/** The first experiment with the FIEMAP ioctl (the program ioctl-1): map
    the whole of one file with room for 1024 extents and print the physical
    offset and length of each slot, up to the one flagged as the last. */
module FiemapScan {
  import opened Abi
  import opened Util
  import opened Format

  /** The number of extent slots show_extents asks for. */
  const ExtentCapacity: U32 := 1024

  /** The header fields of struct fiemap as the caller fills them in. */
  datatype Request = Request(start: U64, length: U64, flags: bv32, extentCount: U32)

  /** What the kernel answers to FS_IOC_FIEMAP on the open file: the extents
      it maps (fm_mapped_extents of them, written from the first slot on),
      or a failure and the strerror() text of its errno. */
  datatype Reply = Mapped(extents: seq<Extent>) | IoctlFailed(reason: string)

  /** The kernel never writes more extents than the request has slots for. */
  predicate HonoursCapacity(req: Request, reply: Reply) {
    reply.Mapped? ==> |reply.extents| <= req.extentCount
  }

  /** The request show_extents makes: every byte of the file, from offset 0
      to the largest length, with no flags. */
  const WholeFile := Request(0, U64Max, 0, ExtentCapacity)

  /** The bytes alloc_fiemap asks for: the header and extentCount slots. */
  function FiemapBytes(extentCount: U32): nat {
    FiemapHeaderSize + FiemapExtentSize * extentCount
  }

  /** alloc_fiemap: a zeroed struct fiemap with extentCount extent slots,
      or die("out of memory"). */
  method AllocFiemap(extentCount: U32, memoryAvailable: bool) returns (r: Result<Fiemap>)
    ensures r.Ok? <==> CallocSucceeds(1, FiemapBytes(extentCount), memoryAvailable)
    ensures r.Died? ==> r.message == "out of memory"
    ensures r.Ok? ==> fresh(r.value) && fresh(r.value.extents)
    ensures r.Ok? ==> r.value.extents.Length == extentCount && r.value.AllZero()
  {
    var block := XCalloc(1, FiemapBytes(extentCount), memoryAvailable);
    if block.Died? {
      return Died(block.message);
    }
    var fm := new Fiemap.Zeroed(extentCount);
    return Ok(fm);
  }

  /** The kernel's side of a successful ioctl: it records how many extents
      it mapped and writes them into the first slots, leaving every other
      slot and header field as it was. */
  method StoreExtents(fm: Fiemap, es: seq<Extent>)
    requires |es| <= fm.extentCount <= fm.extents.Length
    modifies fm, fm.extents
    ensures fm.mappedExtents == |es|
    ensures fm.extents[..] == es + old(fm.extents[..])[|es|..]
    ensures fm.start == old(fm.start) && fm.length == old(fm.length)
    ensures fm.flags == old(fm.flags) && fm.extentCount == old(fm.extentCount)
  {
    fm.mappedExtents := |es|;
    forall i | 0 <= i < |es| {
      fm.extents[i] := es[i];
    }
  }

  /** The 1024 slots after a successful ioctl that mapped es: the mapped
      extents, then the zeroed slots calloc left behind. */
  function Slots(es: seq<Extent>): (slots: seq<Extent>)
    requires |es| <= ExtentCapacity
    ensures |slots| == ExtentCapacity
    ensures slots[..|es|] == es
    ensures forall k | |es| <= k < |slots| :: slots[k] == ZeroExtent
  {
    es + seq(ExtentCapacity - |es|, _ => ZeroExtent)
  }

  /** How many slots the loop prints: up to and including the first one
      flagged as the last extent, or all of them when none is. */
  function ScanLength(slots: seq<Extent>): (n: nat)
    ensures n <= |slots|
    ensures slots != [] ==> n >= 1
    ensures forall k | 0 <= k < n - 1 :: !IsLast(slots[k])
    ensures n == |slots| || IsLast(slots[n - 1])
    decreases |slots|
  {
    if slots == [] then 0
    else if IsLast(slots[0]) then 1
    else 1 + ScanLength(slots[1..])
  }

  /** The line printed for one slot. */
  function ExtentLine(e: Extent): string {
    "offset: " + Dec(e.physical) + "   length: " + Dec(e.length) + "\n"
  }

  /** The lines printed for the slots es, in order. */
  function Lines(es: seq<Extent>): string
    decreases |es|
  {
    if es == [] then "" else Lines(es[..|es| - 1]) + ExtentLine(es[|es| - 1])
  }

  /** What show_extents makes of the kernel's reply: die if the fiemap
      cannot be allocated or the ioctl fails, otherwise the lines of the
      slots up to the first one flagged as the last. fm_mapped_extents plays
      no part. */
  function ScanOutput(reply: Reply, memoryAvailable: bool): Result<string>
    requires HonoursCapacity(WholeFile, reply)
  {
    if !CallocSucceeds(1, FiemapBytes(ExtentCapacity), memoryAvailable) then Died("out of memory")
    else match reply
      case IoctlFailed(reason) => Died("ioctl error: " + reason)
      case Mapped(es) =>
        var slots := Slots(es);
        Ok(Lines(slots[..ScanLength(slots)]))
  }

  /** The first half of show_extents: allocate the fiemap, fill in the
      whole-file request and make the ioctl. On success the slots hold the
      extents the kernel mapped, then zeroes. */
  method MapWholeFile(kernel: Request -> Reply, memoryAvailable: bool) returns (r: Result<Fiemap>)
    requires HonoursCapacity(WholeFile, kernel(WholeFile))
    ensures !CallocSucceeds(1, FiemapBytes(ExtentCapacity), memoryAvailable) ==> r == Died("out of memory")
    ensures CallocSucceeds(1, FiemapBytes(ExtentCapacity), memoryAvailable) && kernel(WholeFile).IoctlFailed? ==>
      r == Died("ioctl error: " + kernel(WholeFile).reason)
    ensures r.Ok? <==> CallocSucceeds(1, FiemapBytes(ExtentCapacity), memoryAvailable) && kernel(WholeFile).Mapped?
    ensures r.Ok? ==> fresh(r.value) && fresh(r.value.extents)
    ensures r.Ok? ==> r.value.extents[..] == Slots(kernel(WholeFile).extents)
  {
    var alloc := AllocFiemap(ExtentCapacity, memoryAvailable);
    if alloc.Died? {
      return Died(alloc.message);
    }
    var fm := alloc.value;
    ghost var zeroed := fm.extents[..];
    assert forall k | 0 <= k < |zeroed| :: zeroed[k] == ZeroExtent;

    fm.start := 0;
    fm.length := U64Max;
    fm.extentCount := ExtentCapacity;
    fm.flags := 0;

    var reply := kernel(Request(fm.start, fm.length, fm.flags, fm.extentCount));
    if reply.IoctlFailed? {
      return Died("ioctl error: " + reply.reason);
    }
    StoreExtents(fm, reply.extents);
    assert zeroed[|reply.extents|..] == seq(ExtentCapacity - |reply.extents|, _ => ZeroExtent);
    return Ok(fm);
  }

  /** The second half of show_extents: print slot after slot, stopping
      after the first one flagged as the last. */
  method PrintUntilLast(fm: Fiemap) returns (out: string)
    requires fm.extents.Length == ExtentCapacity
    ensures out == Lines(fm.extents[..][..ScanLength(fm.extents[..])])
  {
    ghost var slots := fm.extents[..];
    out := "";
    var i := 0;
    while i < ExtentCapacity
      invariant 0 <= i <= ExtentCapacity
      invariant forall k | 0 <= k < i :: !IsLast(slots[k])
      invariant out == Lines(slots[..i])
    {
      var e := fm.extents[i];
      assert slots[..i + 1][..i] == slots[..i];
      out := out + ExtentLine(e);
      if IsLast(e) {
        ScanLengthIs(slots, i + 1);
        return;
      }
      i := i + 1;
    }
    ScanLengthIs(slots, i);
  }

  /** show_extents on a file whose FIEMAP answers are given by kernel: what
      it prints, or the message it dies with. */
  method ShowExtents(kernel: Request -> Reply, memoryAvailable: bool) returns (r: Result<string>)
    requires HonoursCapacity(WholeFile, kernel(WholeFile))
    ensures r == ScanOutput(kernel(WholeFile), memoryAvailable)
  {
    var mapped := MapWholeFile(kernel, memoryAvailable);
    if mapped.Died? {
      return Died(mapped.message);
    }
    var out := PrintUntilLast(mapped.value);
    return Ok(out);
  }

  /** The conditions that pin down ScanLength. */
  lemma ScanLengthIs(slots: seq<Extent>, n: nat)
    requires 1 <= n <= |slots|
    requires forall k | 0 <= k < n - 1 :: !IsLast(slots[k])
    requires n == |slots| || IsLast(slots[n - 1])
    ensures ScanLength(slots) == n
  {
    var m := ScanLength(slots);
    if m < n {
      assert false;
    } else if m > n {
      assert false;
    }
  }

  /** The lines of several slots: one line per slot. */
  lemma {:induction false} LinesCount(es: seq<Extent>)
    ensures CountNewlines(Lines(es)) == |es|
    decreases |es|
  {
    if es != [] {
      var e := es[|es| - 1];
      var body := "offset: " + Dec(e.physical) + "   length: " + Dec(e.length);
      assert NoNewline(body);
      assert ExtentLine(e) == body + "\n";
      OneLine(body);
      LinesCount(es[..|es| - 1]);
      CountNewlinesAppend(Lines(es[..|es| - 1]), ExtentLine(e));
    }
  }

  /** A successful scan prints at least one line and never more than the
      1024 slots. */
  lemma ScanPrintsBoundedLines(reply: Reply, memoryAvailable: bool)
    requires HonoursCapacity(WholeFile, reply)
    requires ScanOutput(reply, memoryAvailable).Ok?
    ensures 1 <= CountNewlines(ScanOutput(reply, memoryAvailable).value) <= ExtentCapacity
  {
    var slots := Slots(reply.extents);
    LinesCount(slots[..ScanLength(slots)]);
  }

  /** When the kernel flags its final mapped extent as the last, exactly
      the mapped extents are printed. */
  lemma LastFlagStopsScan(es: seq<Extent>, memoryAvailable: bool)
    requires 1 <= |es| <= ExtentCapacity
    requires IsLast(es[|es| - 1])
    requires forall k | 0 <= k < |es| - 1 :: !IsLast(es[k])
    requires CallocSucceeds(1, FiemapBytes(ExtentCapacity), memoryAvailable)
    ensures ScanOutput(Mapped(es), memoryAvailable) == Ok(Lines(es))
  {
    var slots := Slots(es);
    ScanLengthIs(slots, |es|);
  }

  /** The count of mapped extents is not consulted: when the kernel maps no
      extent at all, as for an empty file, every one of the 1024 zeroed
      slots is printed as "offset: 0   length: 0". */
  lemma EmptyFileScansEverySlot(memoryAvailable: bool)
    requires CallocSucceeds(1, FiemapBytes(ExtentCapacity), memoryAvailable)
    ensures ScanOutput(Mapped([]), memoryAvailable) == Ok(Lines(seq(ExtentCapacity, _ => ZeroExtent)))
    ensures CountNewlines(ScanOutput(Mapped([]), memoryAvailable).value) == ExtentCapacity
  {
    var slots := Slots([]);
    assert !IsLast(ZeroExtent);
    ScanLengthIs(slots, |slots|);
    assert slots[..|slots|] == slots == seq(ExtentCapacity, _ => ZeroExtent);
    LinesCount(slots);
  }

  /** The name diagnostics start with: argv[0], which is a null pointer,
      printed by the C library as "(null)", when argc is 0. */
  function ProgramNameOf(argv: seq<string>): (name: string)
    ensures |argv| > 0 ==> name == argv[0]
    ensures |argv| == 0 ==> name == "(null)"
  {
    if |argv| > 0 then argv[0] else "(null)"
  }

  /** main: check that exactly one operand was given, open it, and show
      its extents; fs answers the fopen and kernel the ioctl on the opened
      file. */
  method Run(argv: seq<string>, fs: FileSystem, kernel: Request -> Reply, memoryAvailable: bool)
    returns (exit: Exit)
    requires HonoursCapacity(WholeFile, kernel(WholeFile))
    ensures |argv| < 2 ==> exit == ExitOf(ProgramNameOf(argv), Died("too few arguments"))
    ensures |argv| > 2 ==> exit == ExitOf(ProgramNameOf(argv), Died("too many arguments"))
    ensures |argv| == 2 && argv[1] !in fs.files ==>
      exit == ExitOf(argv[0], Died(argv[1] + ": can't open \"" + fs.errnoText + "\""))
    ensures |argv| == 2 && argv[1] in fs.files ==>
      exit == ExitOf(argv[0], ScanOutput(kernel(WholeFile), memoryAvailable))
  {
    var progname := ProgramNameOf(argv);
    if |argv| < 2 {
      return ExitOf(progname, Died("too few arguments"));
    }
    if |argv| > 2 {
      return ExitOf(progname, Died("too many arguments"));
    }
    if argv[1] !in fs.files {
      return ExitOf(progname, Died(argv[1] + ": can't open \"" + fs.errnoText + "\""));
    }
    var r := ShowExtents(kernel, memoryAvailable);
    return ExitOf(progname, r);
  }
}
