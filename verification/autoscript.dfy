/** Running the script of a legacy image: finding it behind the list of sizes, and executing it line
    by line in the buffer it was copied to. */
module Autoscript {
  import Text
  import opened ScriptLines

  // ----- the multi-file format -----

  /** A byte of the image is a `char` below 256. */
  predicate IsBytes(s: seq<char>) { forall i | 0 <= i < |s| :: s[i] as int < 256 }

  /** The 32-bit number at `i`, in network byte order. */
  function SizeAt(image: seq<char>, i: nat): nat
    requires i + 4 <= |image|
  {
    0x100_0000 * image[i] as int + 0x1_0000 * image[i + 1] as int + 0x100 * image[i + 2] as int + image[i + 3] as int
  }

  /** Its four bytes. */
  function SizeBytes(n: nat): (r: seq<char>)
    requires n < 0x1_0000_0000
    ensures |r| == 4
  {
    [(n / 0x100_0000) as char, (n / 0x1_0000 % 0x100) as char, (n / 0x100 % 0x100) as char, (n % 0x100) as char]
  }

  lemma SizeRoundTrip(n: nat)
    requires n < 0x1_0000_0000
    ensures IsBytes(SizeBytes(n)) && SizeAt(SizeBytes(n), 0) == n
  {
    var a, b, c, d := n / 0x100_0000, n / 0x1_0000 % 0x100, n / 0x100 % 0x100, n % 0x100;
    assert n == 0x100_0000 * a + 0x1_0000 * b + 0x100 * c + d;
  }

  function SizeList(components: seq<seq<char>>): (r: seq<char>)
    requires forall i | 0 <= i < |components| :: |components[i]| < 0x1_0000_0000
  {
    if components == [] then SizeBytes(0) else SizeBytes(|components[0]|) + SizeList(components[1..])
  }

  /** Zero bytes up to the next multiple of four. */
  function Padding(n: nat): (r: seq<char>)
    ensures (n + |r|) % 4 == 0 && |r| < 4
  {
    seq((4 - n % 4) % 4, _ => '\0')
  }

  function Aligned(components: seq<seq<char>>): seq<char> {
    if components == [] then []
    else components[0] + Padding(|components[0]|) + Aligned(components[1..])
  }

  /** The data of a multi-file image. */
  function MultiFile(components: seq<seq<char>>): seq<char>
    requires forall i | 0 <= i < |components| :: |components[i]| < 0x1_0000_0000
  {
    SizeList(components) + Aligned(components)
  }

  // ----- the script of an image -----

  /** Some size from `i` on, in steps of four, is zero. */
  predicate Terminated(image: seq<char>, i: nat)
    decreases |image| - i
  {
    i + 4 <= |image| && (SizeAt(image, i) == 0 || Terminated(image, i + 4))
  }

  /** The place behind the terminating zero. */
  function DataStart(image: seq<char>, i: nat): (r: nat)
    requires Terminated(image, i)
    ensures i + 4 <= r <= |image| && SizeAt(image, r - 4) == 0
    decreases |image| - i
  {
    if SizeAt(image, i) == 0 then i + 4 else DataStart(image, i + 4)
  }

  /** The size list ends, and the first size does not reach past the image. */
  predicate HasScript(image: seq<char>) {
    Terminated(image, 0) && DataStart(image, 0) + SizeAt(image, 0) <= |image|
  }

  function Script(image: seq<char>): seq<char>
    requires HasScript(image)
  {
    image[DataStart(image, 0)..][..SizeAt(image, 0)]
  }

  lemma {:induction false} SkipsSizes(components: seq<seq<char>>, before: seq<char>, behind: seq<char>)
    requires forall i | 0 <= i < |components| :: 0 < |components[i]| < 0x1_0000_0000
    ensures
      var image := before + SizeList(components) + behind;
      Terminated(image, |before|) && DataStart(image, |before|) == |before + SizeList(components)|
    decreases |components|
  {
    var image := before + SizeList(components) + behind;
    var size := if components == [] then 0 else |components[0]|;
    SizeRoundTrip(size);
    assert image[|before|..][..4] == SizeBytes(size);
    assert SizeAt(image, |before|) == SizeAt(SizeBytes(size), 0);
    if components != [] {
      var before' := before + SizeBytes(size);
      assert image == before' + SizeList(components[1..]) + behind;
      assert before + SizeList(components) == before' + SizeList(components[1..]);
      SkipsSizes(components[1..], before', behind);
    }
  }

  lemma FirstSize(n: nat, tail: seq<char>)
    requires n < 0x1_0000_0000
    ensures SizeAt(SizeBytes(n) + tail, 0) == n
  {
    SizeRoundTrip(n);
    var image := SizeBytes(n) + tail;
    assert image[0] == SizeBytes(n)[0] && image[1] == SizeBytes(n)[1];
    assert image[2] == SizeBytes(n)[2] && image[3] == SizeBytes(n)[3];
  }

  lemma DataBehind(sizes: seq<char>, first: seq<char>, others: seq<char>)
    ensures (sizes + (first + others))[|sizes|..][..|first|] == first
  {
  }

  predicate SizesOk(components: seq<seq<char>>) {
    forall i | 0 <= i < |components| :: 0 < |components[i]| < 0x1_0000_0000
  }

  lemma DataOfMultiFile(components: seq<seq<char>>)
    requires SizesOk(components)
    ensures Terminated(MultiFile(components), 0) && DataStart(MultiFile(components), 0) == |SizeList(components)|
  {
    assert MultiFile(components) == [] + SizeList(components) + Aligned(components);
    assert [] + SizeList(components) == SizeList(components);
    SkipsSizes(components, [], Aligned(components));
  }

  lemma SizeOfMultiFile(components: seq<seq<char>>)
    requires components != [] && SizesOk(components)
    ensures |MultiFile(components)| >= 4 && SizeAt(MultiFile(components), 0) == |components[0]|
  {
    var rest := SizeList(components[1..]) + Aligned(components);
    assert MultiFile(components) == SizeBytes(|components[0]|) + rest;
    FirstSize(|components[0]|, rest);
  }

  lemma AlignedFirst(components: seq<seq<char>>)
    requires components != []
    ensures Aligned(components) == components[0] + (Padding(|components[0]|) + Aligned(components[1..]))
  {
  }

  lemma ScriptAt(image: seq<char>, sizes: seq<char>, first: seq<char>, others: seq<char>)
    requires image == sizes + (first + others) && |image| >= 4 && SizeAt(image, 0) == |first|
    requires Terminated(image, 0) && DataStart(image, 0) == |sizes|
    ensures HasScript(image) && Script(image) == first
  {
    DataBehind(sizes, first, others);
  }

  /** The script of a multi-file image is its first component. */
  lemma ScriptIsFirstComponent(components: seq<seq<char>>)
    requires components != [] && SizesOk(components)
    ensures HasScript(MultiFile(components)) && Script(MultiFile(components)) == components[0]
  {
    DataOfMultiFile(components);
    SizeOfMultiFile(components);
    AlignedFirst(components);
    ScriptAt(MultiFile(components), SizeList(components), components[0], Padding(|components[0]|) + Aligned(components[1..]));
  }

  // ----- autoscript -----

  /** What the checks of the image header find. */
  datatype Header = Header(magic: bool, headerCrc: bool, dataCrc: bool, isScript: bool)

  method SeekData(image: seq<char>) returns (data: nat)
    requires Terminated(image, 0)
    ensures data == DataStart(image, 0)
  {
    data := 0;
    var size := SizeAt(image, data);
    data := data + 4;
    while size != 0
      invariant data <= |image|
      invariant size == 0 ==> data == DataStart(image, 0)
      invariant size != 0 ==> Terminated(image, data) && DataStart(image, data) == DataStart(image, 0)
      decreases |image| - data, size
    {
      size := SizeAt(image, data);
      data := data + 4;
    }
  }

  /** autoscript for a legacy image whose data is `image`, without the hush shell. A bad data sum stops
      it only when `verify` is set. */
  method Autoscript(h: Header, verify: bool, image: seq<char>, shell: Shell) returns (rcode: nat)
    requires |image| >= 4 && (SizeAt(image, 0) != 0 ==> HasScript(image))
    modifies shell
    ensures !h.magic || !h.headerCrc || (verify && !h.dataCrc) || !h.isScript || SizeAt(image, 0) == 0 ==>
              rcode == 1 && shell.log == old(shell.log)
    ensures h.magic && h.headerCrc && (!verify || h.dataCrc) && h.isScript && SizeAt(image, 0) != 0 ==>
              Result(shell.log, rcode) == Execute(shell.outcome, Text.CStr(Script(image)), old(shell.log))
  {
    if !h.magic {
      return 1;
    }
    if !h.headerCrc {
      return 1;
    }
    if verify {
      if !h.dataCrc {
        return 1;
      }
    }
    if !h.isScript {
      return 1;
    }
    var len := SizeAt(image, 0);
    if len == 0 {
      return 1;
    }
    var data := SeekData(image);
    var cmd := new char[len + 1];
    forall i | 0 <= i < len {
      cmd[i] := image[data + i];
    }
    cmd[len] := '\0';
    assert cmd[..][len] == '\0';
    CopyEnds(Script(image), cmd[..]);
    rcode := ExecuteLines(cmd, shell);
  }

  /** The NUL behind the copy ends the text that the script itself does not end. */
  lemma {:induction false} CopyEnds(script: seq<char>, copy: seq<char>)
    requires |copy| == |script| + 1 && copy[..|script|] == script && copy[|script|] == '\0'
    ensures Text.CStr(copy) == Text.CStr(script)
  {
    if script != [] {
      CopyEnds(script[1..], copy[1..]);
    }
  }

  /** An image of the multi-file format executes its first component, unless a check stops it. */
  method RunMultiFile(h: Header, verify: bool, components: seq<seq<char>>, shell: Shell) returns (rcode: nat)
    requires components != [] && SizesOk(components)
    modifies shell
    ensures !h.magic || !h.headerCrc || (verify && !h.dataCrc) || !h.isScript ==>
              rcode == 1 && shell.log == old(shell.log)
    ensures h.magic && h.headerCrc && (!verify || h.dataCrc) && h.isScript ==>
              Result(shell.log, rcode) == Execute(shell.outcome, Text.CStr(components[0]), old(shell.log))
  {
    ScriptIsFirstComponent(components);
    SizeOfMultiFile(components);
    rcode := Autoscript(h, verify, MultiFile(components), shell);
  }
}
