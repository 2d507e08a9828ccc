/** The opcode table of include/bedbug/tables.h. */
module OpcodeTable {
  import opened Ppc
  import opened OperandLists

  // ----- the rows, in the order of the table, nine at a time -----

  const PART0: seq<Opcode> := [
    Opcode(DOpcode(3), D_MASK, TO_RA_SIMM, NoHandler, "twi", {}),
    Opcode(DOpcode(7), D_MASK, RD_RA_SIMM, NoHandler, "mulli", {}),
    Opcode(DOpcode(8), D_MASK, RD_RA_SIMM, NoHandler, "subfic", {}),
    Opcode(DOpcode(10), D_MASK, CRFD_L_RA_UIMM, NoHandler, "cmpli", {}),
    Opcode(DOpcode(11), D_MASK, CRFD_L_RA_SIMM, NoHandler, "cmpi", {}),
    Opcode(DOpcode(12), D_MASK, RD_RA_SIMM, NoHandler, "addic", {}),
    Opcode(DOpcode(13), D_MASK, RD_RA_SIMM, NoHandler, "addic.", {}),
    Opcode(DOpcode(14), D_MASK, RD_RA_SIMM, NoHandler, "addi", {H_RA0_IS_0}),
    Opcode(DOpcode(15), D_MASK, RD_RA_SIMM, NoHandler, "addis", {H_RA0_IS_0, H_IMM_HIGH})
  ]

  const PART1: seq<Opcode> := [
    Opcode(BOpcode(16, 0, 0), B_MASK, BC_FIELDS, HandleBc, "bc", {H_RELATIVE}),
    Opcode(BOpcode(16, 0, 1), B_MASK, BC_FIELDS, NoHandler, "bcl", {H_RELATIVE}),
    Opcode(BOpcode(16, 1, 0), B_MASK, BC_FIELDS, NoHandler, "bca", {}),
    Opcode(BOpcode(16, 1, 1), B_MASK, BC_FIELDS, NoHandler, "bcla", {}),
    Opcode(ScOpcode(17), SC_MASK, NO_OPERANDS, NoHandler, "sc", {}),
    Opcode(IOpcode(18, 0, 0), I_MASK, B_FIELDS, NoHandler, "b", {H_RELATIVE}),
    Opcode(IOpcode(18, 0, 1), I_MASK, B_FIELDS, NoHandler, "bl", {H_RELATIVE}),
    Opcode(IOpcode(18, 1, 0), I_MASK, B_FIELDS, NoHandler, "ba", {}),
    Opcode(IOpcode(18, 1, 1), I_MASK, B_FIELDS, NoHandler, "bla", {})
  ]

  const PART2: seq<Opcode> := [
    Opcode(XlOpcode(19, 0, 0), XL_MASK, CRFD_CRFS, NoHandler, "mcrf", {}),
    Opcode(XlOpcode(19, 16, 0), XL_MASK, BCXR_FIELDS, NoHandler, "bclr", {}),
    Opcode(XlOpcode(19, 16, 1), XL_MASK, BCXR_FIELDS, NoHandler, "bclrl", {}),
    Opcode(XlOpcode(19, 33, 0), XL_MASK, CRBD_CRBA_CRBB, NoHandler, "crnor", {}),
    Opcode(XlOpcode(19, 50, 0), XL_MASK, NO_OPERANDS, NoHandler, "rfi", {}),
    Opcode(XlOpcode(19, 129, 0), XL_MASK, CRBD_CRBA_CRBB, NoHandler, "crandc", {}),
    Opcode(XlOpcode(19, 150, 0), XL_MASK, NO_OPERANDS, NoHandler, "isync", {}),
    Opcode(XlOpcode(19, 193, 0), XL_MASK, CRBD_CRBA_CRBB, NoHandler, "crxor", {}),
    Opcode(XlOpcode(19, 225, 0), XL_MASK, CRBD_CRBA_CRBB, NoHandler, "crnand", {})
  ]

  const PART3: seq<Opcode> := [
    Opcode(XlOpcode(19, 257, 0), XL_MASK, CRBD_CRBA_CRBB, NoHandler, "crand", {}),
    Opcode(XlOpcode(19, 289, 0), XL_MASK, CRBD_CRBA_CRBB, NoHandler, "creqv", {}),
    Opcode(XlOpcode(19, 417, 0), XL_MASK, CRBD_CRBA_CRBB, NoHandler, "crorc", {}),
    Opcode(XlOpcode(19, 449, 0), XL_MASK, CRBD_CRBA_CRBB, NoHandler, "cror", {}),
    Opcode(XlOpcode(19, 528, 0), XL_MASK, BCXR_FIELDS, NoHandler, "bcctr", {}),
    Opcode(XlOpcode(19, 528, 1), XL_MASK, BCXR_FIELDS, NoHandler, "bcctrl", {}),
    Opcode(MOpcode(20, 0), M_MASK, RA_RS_SH_MB_ME_RC, NoHandler, "rlwimi", {}),
    Opcode(MOpcode(20, 1), M_MASK, RA_RS_SH_MB_ME_RC, NoHandler, "rlwimi.", {}),
    Opcode(MOpcode(21, 0), M_MASK, RA_RS_SH_MB_ME_RC, NoHandler, "rlwinm", {})
  ]

  const PART4: seq<Opcode> := [
    Opcode(MOpcode(21, 1), M_MASK, RA_RS_SH_MB_ME_RC, NoHandler, "rlwinm.", {}),
    Opcode(MOpcode(23, 0), M_MASK, RA_RS_RB_MB_ME_RC, NoHandler, "rlwnm", {}),
    Opcode(MOpcode(23, 1), M_MASK, RA_RS_RB_MB_ME_RC, NoHandler, "rlwnm.", {}),
    Opcode(DOpcode(24), D_MASK, RA_RS_UIMM, NoHandler, "ori", {}),
    Opcode(DOpcode(25), D_MASK, RA_RS_UIMM, NoHandler, "oris", {H_IMM_HIGH}),
    Opcode(DOpcode(26), D_MASK, RA_RS_UIMM, NoHandler, "xori", {}),
    Opcode(DOpcode(27), D_MASK, RA_RS_UIMM, NoHandler, "xoris", {H_IMM_HIGH}),
    Opcode(DOpcode(28), D_MASK, RA_RS_UIMM, NoHandler, "andi.", {}),
    Opcode(DOpcode(29), D_MASK, RA_RS_UIMM, NoHandler, "andis.", {H_IMM_HIGH})
  ]

  const PART5: seq<Opcode> := [
    Opcode(XOpcode(31, 0, 0), X_MASK, CRFD_L_RA_RB, NoHandler, "cmp", {}),
    Opcode(XOpcode(31, 4, 0), X_MASK, TO_RA_RB, NoHandler, "tw", {}),
    Opcode(XoOpcode(31, 8, 0, 0), XO_MASK, RD_RA_RB_OE_RC, NoHandler, "subfc", {}),
    Opcode(XoOpcode(31, 8, 0, 1), XO_MASK, RD_RA_RB_OE_RC, NoHandler, "subfc.", {}),
    Opcode(XoOpcode(31, 10, 0, 0), XO_MASK, RD_RA_RB_OE_RC, NoHandler, "addc", {}),
    Opcode(XoOpcode(31, 10, 0, 1), XO_MASK, RD_RA_RB_OE_RC, NoHandler, "addc.", {}),
    Opcode(XoOpcode(31, 11, 0, 0), XO_MASK, RD_RA_RB_RC, NoHandler, "mulhwu", {}),
    Opcode(XoOpcode(31, 11, 0, 1), XO_MASK, RD_RA_RB_RC, NoHandler, "mulhwu.", {}),
    Opcode(XOpcode(31, 19, 0), X_MASK, RD, NoHandler, "mfcr", {})
  ]

  const PART6: seq<Opcode> := [
    Opcode(XOpcode(31, 20, 0), X_MASK, RD_RA_RB, NoHandler, "lwarx", {H_RA0_IS_0}),
    Opcode(XOpcode(31, 23, 0), X_MASK, RD_RA_RB, NoHandler, "lwzx", {H_RA0_IS_0}),
    Opcode(XOpcode(31, 24, 0), X_MASK, RA_RS_RB_RC, NoHandler, "slw", {}),
    Opcode(XOpcode(31, 24, 1), X_MASK, RA_RS_RB_RC, NoHandler, "slw.", {}),
    Opcode(XOpcode(31, 26, 0), X_MASK, RA_RS_RC, NoHandler, "cntlzw", {}),
    Opcode(XOpcode(31, 26, 1), X_MASK, RA_RS_RC, NoHandler, "cntlzw.", {}),
    Opcode(XOpcode(31, 28, 0), X_MASK, RA_RS_RB_RC, NoHandler, "and", {}),
    Opcode(XOpcode(31, 28, 1), X_MASK, RA_RS_RB_RC, NoHandler, "and.", {}),
    Opcode(XOpcode(31, 32, 0), X_MASK, CRFD_L_RA_RB, NoHandler, "cmpl", {})
  ]

  const PART7: seq<Opcode> := [
    Opcode(XoOpcode(31, 40, 0, 0), XO_MASK, RD_RA_RB_OE_RC, NoHandler, "subf", {}),
    Opcode(XoOpcode(31, 40, 0, 1), XO_MASK, RD_RA_RB_OE_RC, NoHandler, "subf.", {}),
    Opcode(XOpcode(31, 54, 0), X_MASK, RA_RB, NoHandler, "dcbst", {H_RA0_IS_0}),
    Opcode(XOpcode(31, 55, 0), X_MASK, RD_RA_RB, NoHandler, "lwzux", {}),
    Opcode(XOpcode(31, 60, 0), X_MASK, RA_RS_RB_RC, NoHandler, "andc", {}),
    Opcode(XOpcode(31, 60, 1), X_MASK, RA_RS_RB_RC, NoHandler, "andc.", {}),
    Opcode(XoOpcode(31, 75, 0, 0), XO_MASK, RD_RA_RB_RC, NoHandler, "mulhw", {}),
    Opcode(XoOpcode(31, 75, 0, 1), XO_MASK, RD_RA_RB_RC, NoHandler, "mulhw.", {}),
    Opcode(XOpcode(31, 83, 0), X_MASK, RD, NoHandler, "mfmsr", {})
  ]

  const PART8: seq<Opcode> := [
    Opcode(XOpcode(31, 86, 0), X_MASK, RA_RB, NoHandler, "dcbf", {H_RA0_IS_0}),
    Opcode(XOpcode(31, 87, 0), X_MASK, RD_RA_RB, NoHandler, "lbzx", {H_RA0_IS_0}),
    Opcode(XoOpcode(31, 104, 0, 0), XO_MASK, RD_RA_OE_RC, NoHandler, "neg", {}),
    Opcode(XoOpcode(31, 104, 0, 1), XO_MASK, RD_RA_OE_RC, NoHandler, "neg.", {}),
    Opcode(XOpcode(31, 119, 0), X_MASK, RD_RA_RB, NoHandler, "lbzux", {}),
    Opcode(XOpcode(31, 124, 0), X_MASK, RA_RS_RB_RC, NoHandler, "nor", {}),
    Opcode(XOpcode(31, 124, 1), X_MASK, RA_RS_RB_RC, NoHandler, "nor.", {}),
    Opcode(XoOpcode(31, 136, 0, 0), XO_MASK, RD_RA_RB_OE_RC, NoHandler, "subfe", {}),
    Opcode(XoOpcode(31, 136, 0, 1), XO_MASK, RD_RA_RB_OE_RC, NoHandler, "subfe.", {})
  ]

  const PART9: seq<Opcode> := [
    Opcode(XoOpcode(31, 138, 0, 0), XO_MASK, RD_RA_RB_OE_RC, NoHandler, "adde", {}),
    Opcode(XoOpcode(31, 138, 0, 1), XO_MASK, RD_RA_RB_OE_RC, NoHandler, "adde.", {}),
    Opcode(XfxOpcode(31, 144, 0), XFX_MASK, CRM_RS, NoHandler, "mtcrf", {}),
    Opcode(XOpcode(31, 146, 0), X_MASK, RS, NoHandler, "mtmsr", {}),
    Opcode(XOpcode(31, 150, 1), X_MASK, RS_RA_RB, NoHandler, "stwcx.", {}),
    Opcode(XOpcode(31, 151, 0), X_MASK, RS_RA_RB, NoHandler, "stwx", {}),
    Opcode(XOpcode(31, 183, 0), X_MASK, RS_RA_RB, NoHandler, "stwux", {}),
    Opcode(XoOpcode(31, 200, 0, 0), XO_MASK, RD_RA_OE_RC, NoHandler, "subfze", {}),
    Opcode(XoOpcode(31, 200, 0, 1), XO_MASK, RD_RA_OE_RC, NoHandler, "subfze.", {})
  ]

  const PART10: seq<Opcode> := [
    Opcode(XoOpcode(31, 202, 0, 0), XO_MASK, RD_RA_OE_RC, NoHandler, "addze", {}),
    Opcode(XoOpcode(31, 202, 0, 1), XO_MASK, RD_RA_OE_RC, NoHandler, "addze.", {}),
    Opcode(XOpcode(31, 210, 0), X_MASK, SR_RS, NoHandler, "mtsr", {}),
    Opcode(XOpcode(31, 215, 0), X_MASK, RS_RA_RB, NoHandler, "stbx", {H_RA0_IS_0}),
    Opcode(XoOpcode(31, 232, 0, 0), XO_MASK, RD_RA_OE_RC, NoHandler, "subfme", {}),
    Opcode(XoOpcode(31, 232, 0, 1), XO_MASK, RD_RA_OE_RC, NoHandler, "subfme.", {}),
    Opcode(XoOpcode(31, 234, 0, 0), XO_MASK, RD_RA_OE_RC, NoHandler, "addme", {}),
    Opcode(XoOpcode(31, 234, 0, 1), XO_MASK, RD_RA_OE_RC, NoHandler, "addme.", {}),
    Opcode(XoOpcode(31, 235, 0, 0), XO_MASK, RD_RA_RB_OE_RC, NoHandler, "mullw", {})
  ]

  const PART11: seq<Opcode> := [
    Opcode(XoOpcode(31, 235, 0, 1), XO_MASK, RD_RA_RB_OE_RC, NoHandler, "mullw.", {}),
    Opcode(XOpcode(31, 242, 0), X_MASK, RS_RB, NoHandler, "mtsrin", {}),
    Opcode(XOpcode(31, 246, 0), X_MASK, RA_RB, NoHandler, "dcbtst", {H_RA0_IS_0}),
    Opcode(XOpcode(31, 247, 0), X_MASK, RS_RA_RB, NoHandler, "stbux", {}),
    Opcode(XoOpcode(31, 266, 0, 0), XO_MASK, RD_RA_RB_OE_RC, NoHandler, "add", {}),
    Opcode(XoOpcode(31, 266, 0, 1), XO_MASK, RD_RA_RB_OE_RC, NoHandler, "add.", {}),
    Opcode(XOpcode(31, 278, 0), X_MASK, RA_RB, NoHandler, "dcbt", {H_RA0_IS_0}),
    Opcode(XOpcode(31, 279, 0), X_MASK, RD_RA_RB, NoHandler, "lhzx", {H_RA0_IS_0}),
    Opcode(XOpcode(31, 284, 0), X_MASK, RA_RS_RB_RC, NoHandler, "eqv", {})
  ]

  const PART12: seq<Opcode> := [
    Opcode(XOpcode(31, 284, 1), X_MASK, RA_RS_RB_RC, NoHandler, "eqv.", {}),
    Opcode(XOpcode(31, 306, 0), X_MASK, RB, NoHandler, "tlbie", {}),
    Opcode(XOpcode(31, 310, 0), X_MASK, RD_RA_RB, NoHandler, "eciwx", {H_RA0_IS_0}),
    Opcode(XOpcode(31, 311, 0), X_MASK, RD_RA_RB, NoHandler, "lhzux", {}),
    Opcode(XOpcode(31, 316, 0), X_MASK, RA_RS_RB_RC, NoHandler, "xor", {}),
    Opcode(XOpcode(31, 316, 1), X_MASK, RA_RS_RB_RC, NoHandler, "xor.", {}),
    Opcode(XfxOpcode(31, 339, 0), XFX_MASK, RD_SPR, NoHandler, "mfspr", {}),
    Opcode(XOpcode(31, 343, 0), X_MASK, RD_RA_RB, NoHandler, "lhax", {H_RA0_IS_0}),
    Opcode(XOpcode(31, 370, 0), X_MASK, NO_OPERANDS, NoHandler, "tlbia", {})
  ]

  const PART13: seq<Opcode> := [
    Opcode(XfxOpcode(31, 371, 0), XFX_MASK, RD_TBR, NoHandler, "mftb", {}),
    Opcode(XOpcode(31, 375, 0), X_MASK, RD_RA_RB, NoHandler, "lhaux", {}),
    Opcode(XOpcode(31, 407, 0), X_MASK, RS_RA_RB, NoHandler, "sthx", {H_RA0_IS_0}),
    Opcode(XOpcode(31, 412, 0), X_MASK, RA_RS_RB_RC, NoHandler, "orc", {}),
    Opcode(XOpcode(31, 412, 1), X_MASK, RA_RS_RB_RC, NoHandler, "orc.", {}),
    Opcode(XOpcode(31, 438, 0), X_MASK, RS_RA_RB, NoHandler, "ecowx", {H_RA0_IS_0}),
    Opcode(XOpcode(31, 439, 0), X_MASK, RS_RA_RB, NoHandler, "sthux", {}),
    Opcode(XOpcode(31, 444, 0), X_MASK, RA_RS_RB_RC, NoHandler, "or", {}),
    Opcode(XOpcode(31, 444, 1), X_MASK, RA_RS_RB_RC, NoHandler, "or.", {})
  ]

  const PART14: seq<Opcode> := [
    Opcode(XoOpcode(31, 459, 0, 0), XO_MASK, RD_RA_RB_OE_RC, NoHandler, "divwu", {}),
    Opcode(XoOpcode(31, 459, 0, 1), XO_MASK, RD_RA_RB_OE_RC, NoHandler, "divwu.", {}),
    Opcode(XfxOpcode(31, 467, 0), XFX_MASK, SPR_RS, NoHandler, "mtspr", {}),
    Opcode(XOpcode(31, 470, 0), X_MASK, RA_RB, NoHandler, "dcbi", {H_RA0_IS_0}),
    Opcode(XOpcode(31, 476, 0), X_MASK, RA_RS_RB_RC, NoHandler, "nand", {}),
    Opcode(XOpcode(31, 476, 1), X_MASK, RA_RS_RB_RC, NoHandler, "nand.", {}),
    Opcode(XoOpcode(31, 491, 0, 0), XO_MASK, RD_RA_RB_OE_RC, NoHandler, "divw", {}),
    Opcode(XoOpcode(31, 491, 0, 1), XO_MASK, RD_RA_RB_OE_RC, NoHandler, "divw.", {}),
    Opcode(XOpcode(31, 512, 0), X_MASK, CRFD, NoHandler, "mcrxr", {})
  ]

  const PART15: seq<Opcode> := [
    Opcode(XoOpcode(31, 8, 1, 0), XO_MASK, RD_RA_RB_OE_RC, NoHandler, "subfco", {}),
    Opcode(XoOpcode(31, 8, 1, 1), XO_MASK, RD_RA_RB_OE_RC, NoHandler, "subfco.", {}),
    Opcode(XoOpcode(31, 10, 1, 0), XO_MASK, RD_RA_RB_OE_RC, NoHandler, "addco", {}),
    Opcode(XoOpcode(31, 10, 1, 1), XO_MASK, RD_RA_RB_OE_RC, NoHandler, "addco.", {}),
    Opcode(XOpcode(31, 533, 0), X_MASK, RD_RA_RB, NoHandler, "lswx", {H_RA0_IS_0}),
    Opcode(XOpcode(31, 534, 0), X_MASK, RD_RA_RB, NoHandler, "lwbrx", {H_RA0_IS_0}),
    Opcode(XOpcode(31, 536, 0), X_MASK, RA_RS_RB_RC, NoHandler, "srw", {}),
    Opcode(XOpcode(31, 536, 1), X_MASK, RA_RS_RB_RC, NoHandler, "srw.", {}),
    Opcode(XoOpcode(31, 40, 1, 0), XO_MASK, RD_RA_RB_OE_RC, NoHandler, "subfo", {})
  ]

  const PART16: seq<Opcode> := [
    Opcode(XoOpcode(31, 40, 1, 1), XO_MASK, RD_RA_RB_OE_RC, NoHandler, "subfo.", {}),
    Opcode(XOpcode(31, 566, 0), X_MASK, NO_OPERANDS, NoHandler, "tlbsync", {}),
    Opcode(XOpcode(31, 595, 0), X_MASK, RD_SR, NoHandler, "mfsr", {}),
    Opcode(XOpcode(31, 597, 0), X_MASK, RD_RA_NB, NoHandler, "lswi", {H_RA0_IS_0}),
    Opcode(XOpcode(31, 598, 0), X_MASK, NO_OPERANDS, NoHandler, "sync", {}),
    Opcode(XoOpcode(31, 104, 1, 0), XO_MASK, RD_RA_OE_RC, NoHandler, "nego", {}),
    Opcode(XoOpcode(31, 104, 1, 1), XO_MASK, RD_RA_OE_RC, NoHandler, "nego.", {}),
    Opcode(XoOpcode(31, 136, 1, 0), XO_MASK, RD_RA_RB_OE_RC, NoHandler, "subfeo", {}),
    Opcode(XoOpcode(31, 136, 1, 1), XO_MASK, RD_RA_RB_OE_RC, NoHandler, "subfeo.", {})
  ]

  const PART17: seq<Opcode> := [
    Opcode(XoOpcode(31, 138, 1, 0), XO_MASK, RD_RA_RB_OE_RC, NoHandler, "addeo", {}),
    Opcode(XoOpcode(31, 138, 1, 1), XO_MASK, RD_RA_RB_OE_RC, NoHandler, "addeo.", {}),
    Opcode(XOpcode(31, 659, 0), X_MASK, RD_RB, NoHandler, "mfsrin", {}),
    Opcode(XOpcode(31, 661, 0), X_MASK, RS_RA_RB, NoHandler, "stswx", {H_RA0_IS_0}),
    Opcode(XOpcode(31, 662, 0), X_MASK, RS_RA_RB, NoHandler, "stwbrx", {H_RA0_IS_0}),
    Opcode(XoOpcode(31, 200, 1, 0), XO_MASK, RD_RA_OE_RC, NoHandler, "subfzeo", {}),
    Opcode(XoOpcode(31, 200, 1, 1), XO_MASK, RD_RA_OE_RC, NoHandler, "subfzeo.", {}),
    Opcode(XoOpcode(31, 202, 1, 0), XO_MASK, RD_RA_OE_RC, NoHandler, "addzeo", {}),
    Opcode(XoOpcode(31, 202, 1, 1), XO_MASK, RD_RA_OE_RC, NoHandler, "addzeo.", {})
  ]

  const PART18: seq<Opcode> := [
    Opcode(XOpcode(31, 725, 0), X_MASK, RS_RA_NB, NoHandler, "stswi", {H_RA0_IS_0}),
    Opcode(XoOpcode(31, 232, 1, 0), XO_MASK, RD_RA_OE_RC, NoHandler, "subfmeo", {}),
    Opcode(XoOpcode(31, 232, 1, 1), XO_MASK, RD_RA_OE_RC, NoHandler, "subfmeo.", {}),
    Opcode(XoOpcode(31, 234, 1, 0), XO_MASK, RD_RA_OE_RC, NoHandler, "addmeo", {}),
    Opcode(XoOpcode(31, 234, 1, 1), XO_MASK, RD_RA_OE_RC, NoHandler, "addmeo.", {}),
    Opcode(XoOpcode(31, 235, 1, 0), XO_MASK, RD_RA_RB_OE_RC, NoHandler, "mullwo", {}),
    Opcode(XoOpcode(31, 235, 1, 1), XO_MASK, RD_RA_RB_OE_RC, NoHandler, "mullwo.", {}),
    Opcode(XoOpcode(31, 266, 1, 0), XO_MASK, RD_RA_RB_OE_RC, NoHandler, "addo", {}),
    Opcode(XoOpcode(31, 266, 1, 1), XO_MASK, RD_RA_RB_OE_RC, NoHandler, "addo.", {})
  ]

  const PART19: seq<Opcode> := [
    Opcode(XOpcode(31, 790, 0), X_MASK, RD_RA_RB, NoHandler, "lhbrx", {H_RA0_IS_0}),
    Opcode(XOpcode(31, 792, 0), X_MASK, RA_RS_RB_RC, NoHandler, "sraw", {}),
    Opcode(XOpcode(31, 792, 1), X_MASK, RA_RS_RB_RC, NoHandler, "sraw.", {}),
    Opcode(XOpcode(31, 824, 0), X_MASK, RA_RS_SH_RC, NoHandler, "srawi", {}),
    Opcode(XOpcode(31, 824, 1), X_MASK, RA_RS_SH_RC, NoHandler, "srawi.", {}),
    Opcode(XOpcode(31, 854, 0), X_MASK, NO_OPERANDS, NoHandler, "eieio", {}),
    Opcode(XOpcode(31, 918, 0), X_MASK, RS_RA_RB, NoHandler, "sthbrx", {H_RA0_IS_0}),
    Opcode(XOpcode(31, 922, 0), X_MASK, RA_RS_RC, NoHandler, "extsh", {}),
    Opcode(XOpcode(31, 922, 1), X_MASK, RA_RS_RC, NoHandler, "extsh.", {})
  ]

  const PART20: seq<Opcode> := [
    Opcode(XOpcode(31, 954, 0), X_MASK, RA_RS_RC, NoHandler, "extsb", {}),
    Opcode(XOpcode(31, 954, 1), X_MASK, RA_RS_RC, NoHandler, "extsb.", {}),
    Opcode(XoOpcode(31, 459, 1, 0), XO_MASK, RD_RA_RB_OE_RC, NoHandler, "divwuo", {}),
    Opcode(XoOpcode(31, 459, 1, 1), XO_MASK, RD_RA_RB_OE_RC, NoHandler, "divwuo.", {}),
    Opcode(XOpcode(31, 978, 0), X_MASK, RB, NoHandler, "tlbld", {}),
    Opcode(XOpcode(31, 982, 0), X_MASK, RA_RB, NoHandler, "icbi", {H_RA0_IS_0}),
    Opcode(XoOpcode(31, 491, 1, 0), XO_MASK, RD_RA_RB_OE_RC, NoHandler, "divwo", {}),
    Opcode(XoOpcode(31, 491, 1, 1), XO_MASK, RD_RA_RB_OE_RC, NoHandler, "divwo.", {}),
    Opcode(XOpcode(31, 1010, 0), X_MASK, RB, NoHandler, "tlbli", {})
  ]

  const PART21: seq<Opcode> := [
    Opcode(XOpcode(31, 1014, 0), X_MASK, RA_RB, NoHandler, "dcbz", {H_RA0_IS_0}),
    Opcode(DOpcode(32), D_MASK, RD_D_RA, NoHandler, "lwz", {H_RA0_IS_0}),
    Opcode(DOpcode(33), D_MASK, RD_D_RA, NoHandler, "lwzu", {}),
    Opcode(DOpcode(34), D_MASK, RD_D_RA, NoHandler, "lbz", {H_RA0_IS_0}),
    Opcode(DOpcode(35), D_MASK, RD_D_RA, NoHandler, "lbzu", {}),
    Opcode(DOpcode(36), D_MASK, RS_D_RA, NoHandler, "stw", {H_RA0_IS_0}),
    Opcode(DOpcode(37), D_MASK, RS_D_RA, NoHandler, "stwu", {}),
    Opcode(DOpcode(38), D_MASK, RS_D_RA, NoHandler, "stb", {H_RA0_IS_0}),
    Opcode(DOpcode(39), D_MASK, RS_D_RA, NoHandler, "stbu", {})
  ]

  const PART22: seq<Opcode> := [
    Opcode(DOpcode(40), D_MASK, RD_D_RA, NoHandler, "lhz", {H_RA0_IS_0}),
    Opcode(DOpcode(41), D_MASK, RD_D_RA, NoHandler, "lhzu", {}),
    Opcode(DOpcode(42), D_MASK, RD_D_RA, NoHandler, "lha", {H_RA0_IS_0}),
    Opcode(DOpcode(43), D_MASK, RD_D_RA, NoHandler, "lhau", {}),
    Opcode(DOpcode(44), D_MASK, RS_D_RA, NoHandler, "sth", {H_RA0_IS_0}),
    Opcode(DOpcode(45), D_MASK, RS_D_RA, NoHandler, "sthu", {}),
    Opcode(DOpcode(46), D_MASK, RD_D_RA, NoHandler, "lmw", {H_RA0_IS_0}),
    Opcode(DOpcode(47), D_MASK, RS_D_RA, NoHandler, "stmw", {H_RA0_IS_0})
  ]

  const GROUP0: seq<Opcode> := PART0 + PART1 + PART2
  const GROUP1: seq<Opcode> := PART3 + PART4 + PART5
  const GROUP2: seq<Opcode> := PART6 + PART7 + PART8
  const GROUP3: seq<Opcode> := PART9 + PART10 + PART11
  const GROUP4: seq<Opcode> := PART12 + PART13 + PART14
  const GROUP5: seq<Opcode> := PART15 + PART16 + PART17
  const GROUP6: seq<Opcode> := PART18 + PART19 + PART20
  const GROUP7: seq<Opcode> := PART21 + PART22

  const HALF0: seq<Opcode> := GROUP0 + GROUP1 + GROUP2 + GROUP3
  const HALF1: seq<Opcode> := GROUP4 + GROUP5 + GROUP6 + GROUP7

  const OPCODES: seq<Opcode> := HALF0 + HALF1
}
