# Verified models of U-Boot's BedBug, API and boot-table code

Four parts of this U-Boot tree are modelled here, each with the properties that its callers rely on.

**BedBug for the PowerPC** (`common/bedbug.c`, `include/bedbug/`). The assembler, the disassembler and
the single stepper work from one opcode table. Machine words are natural numbers below 2^32, and the
bitwise operators of C are defined one bit at a time (`bits.dfy`). The whole shipped table, 206 opcodes, 35
operands and 98 special purpose registers, is part of the model (`opcode_table.dfy`, `spr_map.dfy`), and
is proved to meet the conditions that the theorems ask of a table. The main results say exactly which
words survive disassembling and assembling, that an assembled word decodes to what was parsed, that
the binary search with a different mask at every probe is sound and complete, and exactly when a single
step is the step of the Power ISA (section 2.4 of Power ISA 2.07 Book I, written out in `power_isa.dfy`).
What a printed line shows and how a line may be written is stated in digits and characters
(`printed_line.dfy`, `assembled_line.dfy`, `numerals.dfy`, `d_form.dfy`). `long` has 32 bits and the host is big-endian.

**Device enumeration** (`api/api_storage.c`, `api/api.c`, `api/api_net.c`). The client hands back the
cookie it was given last; the groups of storage devices keep two flags between calls. One call is a function
from state to state (`storage_protocol.dfy`), which the methods of a class refine (`storage.dfy`); the
theorems are about all states and about whole runs (`storage_runs.dfy`, `storage_loops.dfy`, `storage_reachable.dfy`).

**Environment enumeration** (`API_env_enum` in `api/api.c`, with `envmatch`). The nested scan over a flat
buffer is "the next element of the list" for a well-formed environment (`env_enum.dfy`).

**Boot tables and scripts** (`common/aml_dt.c`, `common/cmd_autoscript.c`). The lookup in a packed table
of device trees refines a search in a list (`multi_dtb.dfy`), and the answer is stated on the words in memory
(`multi_dtb_answer.dfy`); the script of a multi-file image is its first
component (`autoscript.dfy`), and is run line by line in the buffer it was copied to
(`script_lines.dfy`).

Code that updates state in place is a method with loops or a class, proved against a specification function;
the lemmas about the function are then about the method.

## Where the code departs from its intent

Each of these is stated by a lemma that gives the exact condition, and shown on a concrete input.

- Disassembled text is not always assembled back. A word is lost when it names a register of the SPR map
  (the names are printed in capitals and looked up in lower case), has an offset operand
  such as `8(r4)` (the assembler counts one operand too few), has an eight-letter mnemonic followed by
  a register (`subfzeo.` leaves no room for the blank), has a nonzero plain number and is printed in
  octal (the prefix `O` is not a digit), has bits that the table does not name, or is printed under a
  name that is not in the table (`.long`, and the simplified `blt`, `bne` and `bdnz`).
  `Reassembly.DisassembleAssemble` says that there is no other reason, and `Shipped.ShippedLosses` gives
  a word of the shipped table for each of the first five.
- The operand table gives the displacement of loads and stores fifteen bits (`include/bedbug/tables.h:25`), where the
  instruction has sixteen: a displacement is printed rightly exactly when it is not negative
  (`DForm.LwzShowsOffsetIff`); `lwz r3,-8(r1)` is printed as `lwz r3,0x7ff8(r1)` (`Shipped.ShippedMinusEight`).
- The stepper treats the branch hints of BO (values 6, 7, 14, 15 and above 21) as "not taken", does not round CTR
  and LR down to a word, and steps past rfi, sc and a trap that is taken: `StepRefinesIsa.StepIsIsaNext`
  has the condition; `StepRefinesIsa.BcWithHint`, `StepRefinesIsa.UnalignedBlr` and
  `StepRefinesIsa.InterruptWords` have the inputs.
- An enumeration from NULL returns the first slot of each group at most, although the comments promise the
  next available device: `StorageRuns.FindsAllIff`, `StorageRuns.SecondDeviceMissed`.
- When the environment is longer than its limit, or the name is unknown, the call hands `last` back
  instead of NULL: `EnvEnum.WalkVisitsAll`, `EnvEnum.NextIs`, `EnvEnum.HandedBack`.
- A script whose last line has no newline returns 1 when that line succeeds and 0 when it fails:
  `ScriptLines.StatusIff`, `ScriptLines.UnterminatedLineInverted`.
- Entry 0xffff of a table of device trees is taken for "none": `MultiDtb.MultiDtbLookup`, `MultiDtb.LongTableMissed`.

## What the end of an enumeration depends on

`StorageRuns.EveryRunEnds` assumes that no device stands in two slots of a group. The drivers of this tree
meet that: those of IDE, SATA, SCSI and USB index an array of descriptors (`common/cmd_ide.c:720`,
`common/cmd_sata.c:61`, `common/cmd_scsi.c:200`, `common/usb_storage.c:176`), and that of MMC finds a device by its own
number (`drivers/mmc/mmc.c:1268`). So here every enumeration ends, and the following says only how much of
the assumption is needed, should a driver come that does not meet it.

- From arbitrary flags every run ends exactly when no group repeats a device in front of its last slot (A, A, B,
  but not A, A): `StorageLoops.EveryRunEndsIff`, `StorageLoops.LoopExamples`.
- From flags that calls can leave, whatever cookies the client passes, only the groups count that can be
  entered while all groups before them are ended: `StorageLoops.ReachableRunsEndIff`. A group is
  entered exactly when the one before it can end by returning a device (`StorageReachable.EnterableIff`), so a
  repetition behind an empty group is harmless (`StorageLoops.LoopNotEntered`).

## Model

| member | source | states |
|---|---|---|
| `Reassembly.DisassembleAssemble` | common/bedbug.c:231-346 | for every word, address and option, over every well-formed table: assembling the text printed for the word at the same address gives the word back if and only if it matches an entry and is printed under its name, no operand is an offset, an eight-letter mnemonic does not run into its operand, every operand is readable in that radix, and every set bit is named by the entry; `.long` and the simplified blt, bne and bdnz never come back |
| `AssembledLine.LineOutcome` | common/bedbug.c:753-841 | the outcome of every line: no word gives the empty line, an unknown mnemonic the bad opcode, otherwise the first operand that is missing or wrong decides the error, and without one the line assembles, whatever follows its operands |
| `AssembledLine.WordsSeparated` | common/bedbug.c:953-977 | words are separated by any number of tabs, line ends, blanks and no-break spaces, or by one comma and any of these |
| `AssembledLine.CapitalsAssemble` | common/bedbug.c:458-472 | a mnemonic in capitals assembles like the one in lower case |
| `AssembledLine.ImmediateAssembled` | common/bedbug.c:854-918 | a 16-bit immediate written as a signed number in decimal or hexadecimal is that number modulo 2^16 in the assembled word |
| `AssembledLine.RegisterWritten` | common/bedbug.c:881-894 | a register may be written with r, R, %r or %R in front or without, and numbers above 31 are refused |
| `AssembledLine.SprWritten` | common/bedbug.c:526-559 | a special purpose register written as a number gives the number with its halves exchanged |
| `AssembledLine.TbrNumberWritten` | common/bedbug.c:606-641 | of the numbers only 268 and 269 are time base registers |
| `AssembledLine.TbrNameWritten` | common/bedbug.c:606-641 | of the names only tbl and tbu are, in any case |
| `DForm.AddiAssembles` | common/bedbug.c:753-841 | `addi rD,rA,n` with n in signed decimal assembles to 0x38000000 + D * 2^21 + A * 2^16 + n modulo 2^16, for all D, A and n |
| `DForm.AddiPrinted` | common/bedbug.c:231-346 | the text of every addi word in hexadecimal, character by character; a zero base register is printed as 0 |
| `DForm.LwzPrinted` | common/bedbug.c:231-346 | the text of every lwz word: the low fifteen bits of the displacement and the base register in parentheses |
| `DForm.LwzShowsOffsetIff` | include/bedbug/tables.h:25 | the line shows the sixteen bits of the displacement if and only if its sign bit is clear |
| `Shipped.DFormRows` | include/bedbug/tables.h:66-479 | the shipped table has the rows of addi and lwz |
| `Shipped.ShippedMinusEight` | include/bedbug/tables.h:25 | on the shipped tables the word 0x8061fff8, `lwz r3,-8(r1)`, is shown as `lwz     r3,0x7ff8(r1)` at every address |
| `Shipped.ShippedTables` | include/bedbug/tables.h:66-479 | the shipped opcode and SPR tables meet every condition that the theorems about the assembler, the disassembler and the stepper require |
| `OpcodeTableChecks.ShippedTableWellFormed` | include/bedbug/tables.h:66-479 | the 206 opcodes are strictly sorted with one mask per primary opcode, their names are distinct and at most eight characters, silent fields come last inside the mask, printed fields are disjoint outside it |
| `SprMap.SprMapOk` | include/bedbug/tables.h:483-582 | every SPR name is one to nine capitals, digits and underscores, starting with a capital |
| `Shipped.SurvivesIff` | common/bedbug.c:753-841 | the round-trip condition for the entry that a word matches, wherever it stands in the table, with and without simplified mnemonics |
| `Shipped.BranchSurvives` | common/bedbug.c:261-274 | every b, bl, ba and bla word survives disassembling and assembling, at every address and with every option |
| `Shipped.ShippedLosses` | common/bedbug.c:231-346 | on the shipped tables `mfspr r3,LR`, `lwz r3,8(r4)`, `subfzeo. r3,r4`, an isync with a stray bit, and `mulli r3,r4,8` in octal are not assembled back, at any address and with any other option |
| `AssemblerInput.ShownFits` | common/bedbug.c:753-841 | the text of every disassembled word, `.long`, offsets and simplified branches included, has no NUL and no word that overruns the assembler's 20-byte scratch buffer |
| `RoundTrip.JoinedIsWord` | common/bedbug.c:795-828 | the operand values, read back and ORed to the opcode, are the word if and only if all are readable and no bit lies outside them and the mask |
| `RoundTrip.LineIsLead` | common/bedbug.c:231-346 | wherever `datalen` points after the padded mnemonic, the line ends in the mnemonic and the operands joined by commas; only an eight-letter mnemonic loses its blank |
| `RoundTrip.AsmWithOffset` | common/bedbug.c:795-828 | a line with an offset operand never assembles to a word: the parenthesised form is one word for two operands, so the error is the missing operand unless an operand before the offset fails |
| `OperandRoundTrip.FieldReadBack` | common/bedbug.c:854-918 | for every kind of operand, what parsing makes of the printed text: the bits of the field when it is readable, otherwise zero or the error |
| `OperandRoundTrip.AddressPrintParse` | common/bedbug.c:863-879 | printing the target of a 14 or 24 bit field and parsing it at the same base gives the field back, modulo 2^32, for every base |
| `OperandRoundTrip.AddressParsePrint` | common/bedbug.c:863-879 | parsing a target and printing the field gives the target back if and only if its signed distance is a multiple of four in [-2^(n+1), 2^(n+1)) |
| `Decoding.AssembleDecode` | common/bedbug.c:753-841 | a line that assembles gives a word that is found under its own mnemonic, whose printed fields hold the parsed values cut to their width, and that has no other bits |
| `OpcodeSearch.FindOpcode` | common/bedbug.c:417-440 | terminates; an entry returned matches under its own mask; on a searchable table NULL is returned only when no entry matches |
| `OpcodeSearch.ProbeDirection` | common/bedbug.c:425-436 | although each probe masks the word differently, the comparison tells on which side the matching entry lies |
| `OpcodeSearch.MatchUnique` | common/bedbug.c:417-440 | no two entries of a searchable table match the same word |
| `Assembler.AsmPpc` | common/bedbug.c:753-841 | the loop over the operands refines the specification of one line: same word, same error, for every text whose words fit the scratch buffer |
| `Assembler.ParseOperand` | common/bedbug.c:854-918 | the buffer-changing operand parser refines the specification of each operand kind, with the errors for registers, SPRs and TBRs |
| `Assembler.FindOpcodeByName` | common/bedbug.c:458-472 | finds the first entry with the lowered name; the name buffer stays a C string |
| `Disassembler.DisPpc` | common/bedbug.c:79-218 | the lines of a memory region, each at its own address modulo 2^32, from `virtual` or, when that is zero, from `memaddr` |
| `Disassembler.DisOne` | common/bedbug.c:130-215 | one line: the entry found, or `.long`, or the simplified mnemonic |
| `PrintedLine.LineShowsAddress` | common/bedbug.c:151-190 | the first eight characters of every line are the address in hexadecimal, and with raw output the four byte pairs are the bytes of the word, the highest first |
| `PrintedLine.LongShowsWord` | common/bedbug.c:196-204 | a word that no row matches is shown as `.long 0x` and its eight hexadecimal digits |
| `PrintedLine.LinesAt` | common/bedbug.c:136-136 | there is one line for every word, and line i has the address of the first plus 4 * i modulo 2^32 |
| `PrintedLine.NumberPrinted` | common/bedbug.c:327-331 | plain numbers and offsets show the bits of their field in the chosen radix, octal ones behind the letter O |
| `PrintedLine.RegisterPrinted` | common/bedbug.c:293-305 | registers show r and the bits of the field in decimal, or 0 for a zero base register that means zero |
| `PrintedLine.AddressPrinted` | common/bedbug.c:263-291 | addresses show 0x and the target in hexadecimal |
| `PrintedLine.SprPrinted` | common/bedbug.c:490-510 | a register that the map has is shown by a name the map gives it, any other by its number, with the halves of the field exchanged |
| `PrintedLine.TbrPrinted` | common/bedbug.c:577-596 | the time base registers are shown as TBL and TBU, others as ??? |
| `PrintedLine.EightLetters` | common/bedbug.c:196-213 | behind an eight-letter mnemonic there is a blank if and only if its first operand is added with strcat: a special purpose or time base register, a literal, or a zero base register |
| `Disassembler.PpcCtx.PrintOperands` | common/bedbug.c:231-346 | the loop over the fields leaves the text and `datalen` of the specification, parentheses included |
| `Disassembler.PpcCtx.PrintOperand` | common/bedbug.c:245-343 | one operand, written over the text at `datalen` or appended to its end as the code does |
| `Disassembler.OperandValue` | common/bedbug.c:373-400 | the field's bits when the opcode has the field, otherwise none |
| `Disassembler.SimplifyBc` | common/bedbug.c:655-699 | the three simplified mnemonics, for BO and BI that name them |
| `Disassembler.HeaderIs` | common/bedbug.c:140-165 | the address and the raw bytes take exactly the columns that `datalen` is advanced by |
| `Text.GetWord` | common/bedbug.c:953-977 | copies the next word up to a blank or comma, drops one comma, and returns the rest |
| `Text.DownString` | common/bedbug.c:1017-1029 | lowers the letters of a C string in place and nothing behind its NUL |
| `Text.SimpleStrToUl` | lib/vsprintf.c:37-62 | the loop accumulates the digits modulo 2^32 and stops at the first character that is no digit of the base |
| `Text.ReadNumberDecimal` | common/bedbug.c:990-1014 | a number printed with %u is read back |
| `Text.ReadNumberHex` | common/bedbug.c:990-1014 | a number printed with 0x%x is read back |
| `Text.ReadNumberOctal` | common/bedbug.c:990-1014 | a number printed with O%o is read as zero |
| `Numerals.ReadNumberIs` | common/bedbug.c:990-1014 | for every numeral, decimal or behind 0x or 0X, in either case, with or without a minus sign and leading zeros, and whatever stands behind it: the number it denotes, modulo 2^32 |
| `Numerals.NoNumber` | common/bedbug.c:990-1014 | a text that starts with no digit and no minus sign is read as zero |
| `Numerals.PrefixOverrides` | lib/vsprintf.c:43-50 | simple_strtoul reads hexadecimal digits behind 0x whatever the base |
| `Numerals.ReadSignedDecimal` | common/bedbug.c:1010-1011 | a signed decimal is read as the number modulo 2^32 |
| `Numerals.ReadSignedHex` | common/bedbug.c:1010-1011 | and so is a signed hexadecimal |
| `Numerals.DigitsAre` | lib/vsprintf.c:48-60 | the sixteen digits, in lower and upper case, have the values of their places |
| `Sprs.SprRoundTripIff` | common/bedbug.c:490-559 | with capitalised names, spr_value(spr_name(v)) is v for a nonzero field if and only if the map does not name the register |
| `Sprs.SprRoundTripLowerCase` | common/bedbug.c:490-559 | with lower case, distinct names and numbers it would be v for every 10-bit field |
| `Sprs.TbrRoundTripIff` | common/bedbug.c:577-641 | the time base functions are inverse exactly on registers 268 and 269 |
| `Sprs.SwapInvolution` | common/bedbug.c:490-510 | exchanging the five-bit halves of a field twice gives it back |
| `Sprs.SwapBitsIsSwap` | common/bedbug.c:490-510 | the shifts and masks of the code exchange the halves |
| `Sprs.FindSprName` | common/bedbug.c:490-510 | the name in the map, or the number in decimal |
| `Sprs.FindSprValue` | common/bedbug.c:526-559 | the encoded number for a name or number, zero when unknown, with the buffer lowered in place |
| `StepRefinesIsa.StepIsIsaNext` | common/bedbug.c:1053-1236 | for every word of the table in a valid form, at every address, for all registers and all vectors, the address to step to is the next instruction of the ISA if and only if a conditional branch that the ISA takes has a BO value the switch knows (or leads to the fall-through) and a CTR or LR target on a word boundary, and rfi, sc, a satisfied trap or a taken bctar happens to lead to pc+4 |
| `StepRefinesIsa.StopsAtUnknown` | common/bedbug.c:1084-1087 | there is no address if and only if no row of the table matches the word |
| `StepRefinesIsa.InterruptsAreSteppedPast` | common/bedbug.c:1081-1158 | sc and rfi step to pc+4 in both modes, where the ISA goes to the system call vector and to SRR0 |
| `StepRefinesIsa.InterruptWords` | include/bedbug/tables.h:66-479 | 0x4c000064 is an rfi and 0x44000002 an sc |
| `StepRefinesIsa.UnalignedTarget` | common/bedbug.c:1128-1158 | a bclr or bcctr that is taken with LR or CTR off a word boundary steps to an address that is not the one of the ISA |
| `StepRefinesIsa.UnalignedBlr` | common/bedbug.c:1141-1153 | blr with LR 0x102 steps to 0x102, where the ISA goes to 0x100 |
| `StepRefinesIsa.StopsAre` | common/bedbug.c:1081-1233 | both addresses for every word and register state; stepping over gives pc+4 exactly where a taken branch links and otherwise agrees with stepping in |
| `StepRefinesIsa.HintIsIgnored` | common/bedbug.c:1160-1216 | a bc with BO 14 or 15 whose bit is set is taken by the ISA and stepped past by the code |
| `StepRefinesIsa.BcWithHint` | common/bedbug.c:1160-1216 | the word 0x41c00008 is such a branch, to pc+8 |
| `StepRefinesIsa.SameConditions` | common/bedbug.c:1160-1216 | the nine-way switch over BO computes ctr_ok and cond_ok of the ISA on the values it knows, and refuses the others |
| `StepRefinesIsa.SameDisplacement` | common/bedbug.c:1093-1126 | subtracting 1 << bits and shifting modulo 2^32 is the sign extension of BD and LI |
| `Stepper.FindNextAddress` | common/bedbug.c:1053-1236 | the answer is the one for the word in memory at the multiple of four that nip points into, at that address, for every memory and register state |
| `Stepper.Conditions` | common/bedbug.c:1160-1216 | the updates of ctr, ctr_ok and cond_ok leave the specified decision |
| `Stepper.DecodeBranch` | common/bedbug.c:1081-1158 | the operands of the branch, or failure when get_operand_value misses one |
| `SteppingText.PrintedTargetIsStep` | common/bedbug.c:261-274 | a taken b or bc steps to the address that the disassembler prints for it |
| `SteppingText.SimplifiedMeaning` | common/bedbug.c:655-699 | whenever blt, bne cr2 or bdnz is printed, stepping takes the branch if and only if CR bit 0 is set, CR bit 10 is clear, or CTR-1 is not zero modulo 2^32, and it goes to the printed address |
| `SimplifiedText.SimplifiedTextMeaning` | common/bedbug.c:655-699 | whenever the first word of a printed line is blt, bne (then the next is cr2) or bdnz, stepping takes the branch if and only if CR bit 0 is set, CR bit 10 is clear, or CTR-1 is not zero, and goes to the number that the line ends in |
| `SimplifiedText.SimplifiedWhen` | common/bedbug.c:671-697 | the relative bc is shown under these names exactly for BO 12 BI 0, BO 4 BI 10, and BO 16 BI 0 |
| `SteppingText.AssembleThenStepB` | common/bedbug.c:1093-1126 | stepping at an assembled b goes to the target in its text if and only if the distance is aligned and fits the field |
| `SteppingText.AssembleThenStepBc` | common/bedbug.c:1093-1216 | the same for bc under the conditions that the BO and BI of the text select, and pc+4 otherwise |
| `StorageRuns.EveryRunEnds` | api/api_storage.c:205-296 | from any flags and any non-NULL cookie, over a fixed table without duplicates in a group, feeding each cookie back reaches NULL |
| `StorageRuns.RunLength` | api/api_storage.c:308-321 | the number of calls is at most (unset flags) times (largest group + 1) plus the slots left in the group of the cookie |
| `StorageRuns.Progress` | api/api_storage.c:205-296 | every successful call sets a flag, or sets none and has fewer slots left in the group of the cookie |
| `StorageRuns.OnlyContinues` | api/api_storage.c:239-249 | a successful call that sets no flag went on in the group of the cookie, and all groups before it are ended |
| `StorageRuns.CanonicalRun` | api/api.c:223-243 | from NULL, whatever the old flags, the run is the network device if any, then the active first slots of IDE, USB, SCSI, MMC and SATA in that order, then NULL |
| `StorageContinued.ContinuedRun` | api/api_storage.c:132-177 | from a device in a group whose predecessors are ended, a run returns the active devices behind it up to the first empty slot, each once and in order, and then the active first slots of the groups that follow |
| `StorageRuns.RunIsUnique` | api/api.c:214-244 | a state has one run only, so restarting gives the same run |
| `StorageRuns.FindsAllIff` | api/api_storage.c:116-177 | a run from NULL returns every active storage device if and only if each of them is the first slot of some group; with no device in two places, if and only if each is in slot 0 |
| `StorageRuns.SecondDeviceMissed` | api/api_storage.c:116-177 | with two active devices in the first group the run is the first one only |
| `StorageRuns.DuplicatesLoop` | api/api_storage.c:132-157 | a witness that the ending theorem needs its condition: with one device in the first two of three slots of a group the call can return exactly the state it was given |
| `StorageLoops.EveryRunEndsIff` | api/api_storage.c:205-296 | over any table, duplicates included, the runs from arbitrary flags and all non-NULL cookies reach NULL if and only if no group has a stretch of slots, each the first place of its active device, followed by a slot that is not the last and repeats a device of the stretch |
| `StorageLoops.ReachableRunsEndIff` | api/api_storage.c:205-321 | the same over the states that calls with any cookies can leave from cleared flags: all runs end if and only if no group that is enterable has such a stretch |
| `StorageLoops.LoopNotEntered` | api/api_storage.c:205-321 | behind an empty first group the slots A, A, B are such a stretch in a group that is not enterable |
| `StorageReachable.EnterableIff` | api/api_storage.c:239-296 | some sequence of calls ends all groups before a group and leaves it open if and only if it is the first, or the group before it has an active first slot, or that one can itself be entered and has an active last slot behind another device |
| `StorageReachable.ReachableOrdered` | api/api_storage.c:205-306 | after any calls a started group is ended, and an open group behind an ended one is enterable |
| `StorageReachable.Cascade` | api/api_storage.c:308-321 | when the cookie belongs to no group ahead, the groups end one after the other up to the first that returns its first slot |
| `StorageLoops.LoopStep` | api/api_storage.c:239-249 | in such a stretch, with the groups before it ended and it not, a call returns the device of the next slot and leaves the flags as they are |
| `StorageLoops.DistinctLoopFree` | api/api_storage.c:205-296 | a table without duplicates has no such stretch |
| `StorageLoops.LoopExamples` | api/api_storage.c:205-296 | the slots A, A, B have one, the slots A, A do not |
| `StorageProtocol.EnumAnswers` | api/api_storage.c:125-176 | whatever the flags and the cookie, a cookie returned is the network device at a restart, or an active device in the bounds of a group whose type, block count and block size come with it |
| `StorageProtocol.EnumGrows` | api/api_storage.c:205-296 | between resets flags are only set |
| `Storage.Api.ApiDevEnum` | api/api.c:214-244 | the call refines one step of the state machine on the flags and the client's structure; EINVAL for a NULL argument; the open state is untouched |
| `Storage.Api.DevEnumStorage` | api/api_storage.c:308-321 | the loop over the groups refines the specification and changes flags and structure as it says |
| `Storage.Api.DevEnumStor` | api/api_storage.c:205-296 | one group: restart, continue, first time, out of order, with the early returns that leave the flags alone |
| `Storage.Api.DevStorGet` | api/api_storage.c:116-177 | found, more and the structure for the first or the next slot |
| `Storage.Api.DevEnumReset` | api/api_storage.c:298-306 | clears both flags of every group |
| `Storage.Api.DevEnumNet` | api/api_net.c:79-94 | type and cookie are set even when there is no device; the address only when there is one |
| `Storage.Api.DevStorType` | api/api_storage.c:183-193 | the first group that has the device, or ENUM_MAX |
| `Storage.Api.DevStorIsValid` | api/api_storage.c:323-333 | whether the device is in the group and not of unknown type |
| `Storage.Api.DevStorIndex` | api/api_storage.c:360-370 | the first slot of the device in its group |
| `Storage.Api.DevOpenStor` | api/api_storage.c:336-347 | accepts exactly the active devices of some group |
| `Storage.Api.ApiDevOpen` | api/api.c:247-276 | every error in the order of the checks, and the state becomes open exactly on success |
| `Storage.Api.DevReadStor` | api/api_storage.c:373-390 | the driver is asked if and only if the cookie is an active device with a block_read, and with an index at which its group has that device |
| `Storage.EnumeratedCanBeOpened` | api/api_storage.c:336-390 | every storage cookie that the enumeration returns is accepted by open, and with disjoint groups the slot found by read is the only one that holds it |
| `EnvEnum.WalkVisitsAll` | api/api.c:513-554 | stepping from NULL visits every entry once in buffer order and then ends, for whole entries and for bare names, if and only if the last entry ends within CONFIG_ENV_SIZE |
| `EnvEnum.NextIs` | api/api.c:527-551 | one call in a well-formed environment: the next entry, NULL behind the last, the argument itself for an unknown name or past the limit; and no comparison runs off the end of a string |
| `EnvEnum.ApiEnvEnum` | api/api.c:513-554 | the nested loops refine the scan for every memory, with the early return at the limit |
| `EnvEnum.EnvMatch` | common/cmd_nvedit.c:542-551 | a match exactly when the names before the `=` are equal, and then the place behind the `=` |
| `EnvEnum.LayoutHolds` | api/api.c:513-554 | a buffer that starts with the bytes of distinct name=value entries is a well-formed environment |
| `EnvEnum.HandedBack` | api/api.c:527-551 | in the environment `a=1` with a limit of two the call after `a=1` returns its argument, and so does the call after an unknown name with a limit that fits |
| `EnvEnum.EmptyEnvironment` | api/api.c:523-525 | in an empty environment the first step gives an empty text, not NULL |
| `ScriptLines.TextRuns` | common/cmd_autoscript.c:171-197 | for every text the non-empty lines and the remainder run in order up to and including the first that fails; rcode is 1 if and only if one fails, with the answer inverted when the unterminated line was run |
| `ScriptLines.TerminatedText` | common/cmd_autoscript.c:171-197 | when the text ends in a newline rcode is 1 if and only if a command fails |
| `ScriptLines.RunsUpToFailure` | common/cmd_autoscript.c:179-194 | what runs is a prefix of the commands: all before its last pass, and it is the first to fail or there are no more |
| `ScriptLines.CommandsAre` | common/cmd_autoscript.c:180-181 | the commands are the lines that are not empty, in their order |
| `ScriptLines.StatusIff` | common/cmd_autoscript.c:195-197 | rcode tells whether the last command failed if and only if no unterminated line was run |
| `ScriptLines.UnterminatedLineInverted` | common/cmd_autoscript.c:195-197 | every script of one unterminated line runs that line, and returns 1 when it succeeds and 0 when it fails |
| `ScriptLines.LinesJoin` | common/cmd_autoscript.c:174-194 | the lines, each with its newline, and the remainder make up the text |
| `ScriptLines.LinesHoldNoNewline` | common/cmd_autoscript.c:174-194 | no line holds a newline |
| `ScriptLines.ExecuteLines` | common/cmd_autoscript.c:170-197 | the loop that turns newlines into NULs as it goes runs the commands of the text before the first NUL and returns the status of the specification, for a shell whose answers may depend on all earlier commands |
| `ScriptLines.EndLine` | common/cmd_autoscript.c:180-192 | one newline: the line before it is run unless it is empty, and the rest of the text still leads to the same result |
| `ScriptLines.EndText` | common/cmd_autoscript.c:195-197 | the remainder is run unless it is empty, with its status inverted |
| `Autoscript.ScriptIsFirstComponent` | README:3827-3832 | for a multi-file image of nonzero components the copied script is exactly the first component |
| `Autoscript.SkipsSizes` | common/cmd_autoscript.c:102-107 | the skip loop ends on the terminating zero and leaves the data behind it, for every size list |
| `Autoscript.SizeRoundTrip` | common/cmd_autoscript.c:94-97 | a size written in network byte order is read back |
| `Autoscript.SeekData` | common/cmd_autoscript.c:107-107 | the loop with the post-increment stops just behind the first zero word |
| `Autoscript.Autoscript` | common/cmd_autoscript.c:50-201 | a bad magic, header sum or type, an empty script, and with verify a bad data sum give 1 and run nothing; otherwise the script up to its first NUL or its length is executed, also with a bad data sum when verify is off |
| `Autoscript.RunMultiFile` | common/cmd_autoscript.c:50-201 | for a multi-file image the same checks decide, and what runs is the text of its first component |
| `MultiDtb.MultiDtbLookup` | common/aml_dt.c:83-127 | for a table written for any list of blobs, in either version, get_multi_dt_entry returns base plus the offset of the last blob whose three identifiers have the parts of aml_dt as prefixes, or base when there is none, if and only if that blob is not number 0xffff or its offset is zero |
| `MultiDtbAnswer.Answer` | common/aml_dt.c:24-129 | in terms of the words in memory and the text: for a table of version 1 or 2 the address is base plus the offset of the last blob whose three identifiers start with the text before the first underscore, between the first two and behind the second, and base when none does or when that blob is number 0xffff |
| `MultiDtb.GetMultiDtEntry` | common/aml_dt.c:24-129 | the triple loop, the split and the selection refine the search in the list that the table holds, of which `MultiDtbAnswer.Answer` says what it finds; a single blob and an empty aml_dt give the base |
| `MultiDtb.LastMatchIsLast` | common/aml_dt.c:102-107 | the entry selected matches and no later entry does; none is selected only when none matches |
| `MultiDtb.ShortTable` | common/aml_dt.c:83-126 | with up to 0xffff blobs the address returned is always the wanted one |
| `MultiDtb.LastBlobMissed` | common/aml_dt.c:118-126 | when the last match is blob 0xffff the address returned is that of the table |
| `MultiDtb.LongTableMissed` | common/aml_dt.c:83-126 | a memory with a version 1 table of 0x10000 blobs soc1, plat, vari at offset 0x100: for `s_p_v` the last match is blob 0xffff, and base is returned |
| `MultiDtb.TableIs` | common/aml_dt.c:86-97 | unpacking the words of a table gives the identifiers it was written for, for every identifier length divisible by four |
| `MultiDtb.PackUnpack` | common/aml_dt.c:92-95 | the four shifts give the characters of a packed word, the first from the top byte |
| `MultiDtb.UnpackEntry` | common/aml_dt.c:87-97 | the two inner loops leave the three identifiers of the entry in dt_info |
| `MultiDtb.FindMatch` | common/aml_dt.c:83-108 | the loop leaves the number of the last match, or 0xffff |
| `MultiDtb.StartsWith` | common/aml_dt.c:102-104 | the comparison of strlen(token) characters is the prefix relation |
| `MultiDtb.SplitParts` | common/aml_dt.c:70-73 | the three strsep calls leave the three parts as C strings in the buffer |
| `MultiDtb.StrSep` | lib/string.c:351-364 | the first underscore becomes a NUL and the rest starts behind it; none leaves the buffer alone |

## Left out

- Console, network traffic, udelay, reset, getenv and setenv, and the variable argument lists of `api/api.c`: input and output, and the C calling convention. The calls are methods with typed arguments.
- Source lines and symbols in the disassembly (`USE_SOURCE_CODE`), debug output, and the callback of `disppc`, whose lines are returned as a list.
- NULL pointers as arguments of BedBug functions, and the error texts of `asm_error_str`.
- Assembler.AsmPpc: takes for granted that every word fits the 20-byte scratch buffer, as the code does; `AssemblerInput.ShownFits` shows it for all disassembled text.
- Disassembler.PpcCtx.PrintOperands: `ctx->data` is a text of any length, so the size of the buffer that callers pass (F_LINENO and longer operand lists aside) is not modelled.
- StepRefinesIsa.StepIsIsaNext: leaves out bcctr with the decrement option, which the ISA calls an invalid form; `StepRefinesIsa.StopsAre` says what the code does with it. The interrupts that other instructions may cause (storage, alignment, program) are left out of `power_isa.dfy`.
- The `H_IMM_HIGH` hint and the DS, XFL, XS, A, MD and MDS forms of `include/bedbug/ppc.h`: no row of the table uses them.
- Reading and writing devices through the API beyond the choice of driver and index, and closing them: they pass their arguments on.
- StorageRuns.EveryRunEnds: the table that `get_dev` answers from is fixed and has no device past `max_dev`; with a device twice in a group `StorageLoops.EveryRunEndsIff` and `StorageLoops.ReachableRunsEndIff` apply instead.
- EnvEnum.ApiEnvEnum: the environment is readable two characters past CONFIG_ENV_SIZE, and a name without `=` is not compared with an equal entry without `=`, where envmatch would read on behind both strings; a `NULL` place for the result is not modelled.
- Autoscript.Autoscript: the image has a terminated size list and the first size does not reach past its end, since the code checks neither; FIT images, the hush shell, the checksums themselves and a failing malloc are left out.
- MultiDtb.FindMatch: the loop counter of the code is an `int`, so tables of 2^31 and more entries, which memory cannot hold, are not modelled as it would treat them.
- MultiDtb.GetMultiDtEntry: needs a known magic and version, and an aml_dt of fewer than 64 characters with at least three parts, the first three no longer than an identifier; the other cases read uninitialised or foreign memory. The `get_dt` hook, the printing and the freeing of the buffers are left out.
- `common/cmd_aml.c`, `common/cmd_chiprev.c`, `common/cmd_boot.c`, `common/cmd_boardid.c`, `common/cmd_ambapp.c` and `platform_set_mr`: thin wrappers and easy lookups.
