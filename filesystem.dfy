/** General file system access: opening the file to examine, and finding
    where the block device holding it starts, by reading the partition's
    start sector from sysfs. */
module Filesystem {
  import opened Abi
  import opened Util
  import opened Format

  /** open_file: the opened file (its contents), or die naming the path
      and the reason fopen gave. */
  function OpenFile(fs: FileSystem, path: string): (r: Result<string>)
    ensures r.Ok? <==> path in fs.files
    ensures r.Ok? ==> r.value == fs.files[path]
    ensures r.Died? ==> r.message == path + ": " + fs.errnoText
  {
    if path in fs.files then Ok(fs.files[path]) else Died(path + ": " + fs.errnoText)
  }

  /** The size of the buffer get_offset formats the sysfs path into. */
  const SysfsBufferSize: nat := 1024

  const SysfsPrefix := "/sys/dev/block/"
  const SysfsSuffix := "/start"

  /** The sysfs file holding the start sector of device maj:min. */
  function SysfsPath(maj: U32, min: U32): (path: string)
    ensures |path| == |SysfsPrefix| + |Dec(maj)| + 1 + |Dec(min)| + |SysfsSuffix|
  {
    SysfsPrefix + Dec(maj) + ":" + Dec(min) + SysfsSuffix
  }

  /** However large the device numbers, the path takes at most 42
      characters, so it always fits the buffer and the "exceeds buffer"
      diagnostic can never be issued. */
  lemma SysfsPathFits(maj: U32, min: U32)
    ensures |SysfsPath(maj, min)| <= 42 < SysfsBufferSize
  {
    assert Pow10(10) == 10_000_000_000;
    DecLength(maj, 10);
    DecLength(min, 10);
  }

  /** Different devices have different sysfs paths: the major and minor
      numbers can be read back from the path. */
  lemma SysfsPathInjective(maj1: U32, min1: U32, maj2: U32, min2: U32)
    requires SysfsPath(maj1, min1) == SysfsPath(maj2, min2)
    ensures maj1 == maj2 && min1 == min2
  {
    var p1, p2 := SysfsPath(maj1, min1), SysfsPath(maj2, min2);
    var m1, m2 := Dec(maj1) + ":" + Dec(min1), Dec(maj2) + ":" + Dec(min2);
    assert p1 == SysfsPrefix + m1 + SysfsSuffix && p2 == SysfsPrefix + m2 + SysfsSuffix;
    assert m1 == p1[|SysfsPrefix|..|p1| - |SysfsSuffix|];
    assert m2 == p2[|SysfsPrefix|..|p2| - |SysfsSuffix|];
    SplitAtColon(Dec(maj1), Dec(min1), Dec(maj2), Dec(min2));
    DecRoundTrip(maj1);
    DecRoundTrip(maj2);
    DecRoundTrip(min1);
    DecRoundTrip(min2);
  }

  /** A run of digits, a colon and anything: the colon is the first one, so
      the two parts can be told apart. */
  lemma SplitAtColon(a1: string, b1: string, a2: string, b2: string)
    requires AllDigits(a1) && AllDigits(a2)
    requires a1 + ":" + b1 == a2 + ":" + b2
    ensures a1 == a2 && b1 == b2
  {
    var s := a1 + ":" + b1;
    assert s[|a1|] == ':';
    assert s[|a2|] == ':';
    if |a1| < |a2| {
      assert false;
    }
    if |a2| < |a1| {
      assert false;
    }
    assert a1 == s[..|a1|] == a2;
    assert b1 == s[|a1| + 1..] == b2;
  }

  /** The first index from i on that is not white space. */
  function SkipSpaces(s: string, i: nat): (j: nat)
    requires i <= |s|
    ensures i <= j <= |s|
    ensures forall k | i <= k < j :: IsSpace(s[k])
    ensures j < |s| ==> !IsSpace(s[j])
    decreases |s| - i
  {
    if i < |s| && IsSpace(s[i]) then SkipSpaces(s, i + 1) else i
  }

  /** The first index from i on that is not a decimal digit. */
  function SkipDigits(s: string, i: nat): (j: nat)
    requires i <= |s|
    ensures i <= j <= |s|
    ensures forall k | i <= k < j :: IsDigit(s[k])
    ensures j < |s| ==> !IsDigit(s[j])
    decreases |s| - i
  {
    if i < |s| && IsDigit(s[i]) then SkipDigits(s, i + 1) else i
  }

  /** strtoull's answer for a run of digits: its value, or ULLONG_MAX when
      that does not fit. */
  function Saturate(n: nat): (v: U64)
    ensures n <= U64Max ==> v == n
    ensures n > U64Max ==> v == U64Max
  {
    if n <= U64Max then n else U64Max
  }

  /** What fscanf(fp, "%llu %c", &value, &extra) returns and stores into
      value: -1 when the input ends before a number starts, 0 when
      something else than a digit starts it, 1 when nothing but white space
      follows the number, 2 when a character does. */
  datatype Scan = Scan(count: int, value: U64)

  predicate AllSpaces(s: string) {
    forall k | 0 <= k < |s| :: IsSpace(s[k])
  }

  function ScanUnsignedThenChar(s: string): (r: Scan)
    ensures -1 <= r.count <= 2
  {
    var i := SkipSpaces(s, 0);
    if i == |s| then Scan(-1, 0)
    else
      var j := SkipDigits(s, i);
      if j == i then Scan(0, 0)
      else
        var v := Saturate(DigitsValue(s[i..j]));
        if SkipSpaces(s, j) == |s| then Scan(1, v) else Scan(2, v)
  }

  /** A number with only white space around it is read with a count of 1. */
  lemma ScanAcceptsNumberWithSpaces(before: string, digits: string, after: string)
    requires AllSpaces(before) && AllSpaces(after)
    requires |digits| >= 1 && AllDigits(digits)
    ensures ScanUnsignedThenChar(before + digits + after) == Scan(1, Saturate(DigitsValue(digits)))
  {
    var s := before + digits + after;
    var i := |before|;
    var j := |before| + |digits|;
    SkipSpacesOver(s, 0, i);
    assert !IsSpace(s[i]) by { assert s[i] == digits[0]; }
    SkipDigitsOver(s, i, j);
    assert s[i..j] == digits;
    SkipSpacesOver(s, j, |s|);
  }

  /** Only a number with only white space around it is read with a count of
      1: the count is 1 exactly when the number is followed by nothing but
      white space. */
  lemma ScanAcceptsOnlyNumberWithSpaces(s: string)
    requires ScanUnsignedThenChar(s).count == 1
    ensures var i := SkipSpaces(s, 0);
            var j := SkipDigits(s, i);
            && i < j
            && AllSpaces(s[..i]) && AllDigits(s[i..j]) && AllSpaces(s[j..])
            && ScanUnsignedThenChar(s).value == Saturate(DigitsValue(s[i..j]))
  {
    var i := SkipSpaces(s, 0);
    var j := SkipDigits(s, i);
    assert forall k | 0 <= k < |s[j..]| :: s[j..][k] == s[j + k];
  }

  lemma SkipSpacesOver(s: string, i: nat, j: nat)
    requires i <= j <= |s|
    requires forall k | i <= k < j :: IsSpace(s[k])
    requires j < |s| ==> !IsSpace(s[j])
    ensures SkipSpaces(s, i) == j
  {
    var r := SkipSpaces(s, i);
    if r < j {
      assert false;
    } else if r > j {
      assert false;
    }
  }

  lemma SkipDigitsOver(s: string, i: nat, j: nat)
    requires i <= j <= |s|
    requires forall k | i <= k < j :: IsDigit(s[k])
    requires j < |s| ==> !IsDigit(s[j])
    ensures SkipDigits(s, i) == j
  {
    var r := SkipDigits(s, i);
    if r < j {
      assert false;
    } else if r > j {
      assert false;
    }
  }

  /** What the kernel writes into a start file, a number and a line end, is
      read back as that number. */
  lemma SysfsNumberScansBack(n: U64)
    ensures ScanUnsignedThenChar(Dec(n) + "\n") == Scan(1, n)
  {
    assert AllSpaces("") && AllSpaces("\n");
    assert "" + Dec(n) + "\n" == Dec(n) + "\n";
    ScanAcceptsNumberWithSpaces("", Dec(n), "\n");
    DecRoundTrip(n);
  }

  const SectorsWrap: nat := 0x80_0000_0000_0000

  /** offset_in_sectors * k_sector_size in __u64 arithmetic. */
  function SectorsToBytes(sectors: U64): (bytes: U64)
  {
    (sectors * SectorSize) % TwoTo64
  }

  /** The byte offset is 512 times the sector count taken modulo 2^55, so it
      is always a whole number of sectors, and exact unless the product
      overflows. */
  lemma SectorsToBytesMeaning(sectors: U64)
    ensures SectorsToBytes(sectors) == (sectors % SectorsWrap) * SectorSize
    ensures SectorsToBytes(sectors) % SectorSize == 0
    ensures sectors * SectorSize < TwoTo64 ==> SectorsToBytes(sectors) == sectors * SectorSize
  {
    var q := sectors / SectorsWrap;
    var r := sectors % SectorsWrap;
    assert sectors * SectorSize == q * TwoTo64 + r * SectorSize;
    assert 0 <= r * SectorSize < TwoTo64;
    ModUnique(sectors * SectorSize, q, r * SectorSize);
  }

  lemma ModUnique(x: nat, q: nat, r: nat)
    requires x == q * TwoTo64 + r && r < TwoTo64
    ensures x % TwoTo64 == r
  {
  }

  /** The line get_offset prints before the table. */
  function OffsetLine(maj: U32, min: U32, bytes: U64, sectors: U64): (line: string)
  {
    "On block device " + Dec(maj) + ":" + Dec(min) + ", which starts at byte "
      + Dec(bytes) + " (sector " + Dec(sectors) + "):\n"
  }

  /** The printed line is one line and ends the way the format says. */
  lemma OffsetLineIsOneLine(maj: U32, min: U32, bytes: U64, sectors: U64)
    ensures CountNewlines(OffsetLine(maj, min, bytes, sectors)) == 1
  {
    var body := "On block device " + Dec(maj) + ":" + Dec(min) + ", which starts at byte "
      + Dec(bytes) + " (sector " + Dec(sectors) + "):";
    assert NoNewline(body);
    assert OffsetLine(maj, min, bytes, sectors) == body + "\n";
    OneLine(body);
  }

  /** What get_offset leaves behind: the offset it returns and the line it
      prints. */
  datatype DeviceOffset = DeviceOffset(bytes: U64, printed: string)

  const PathTooLong := "sysfs path exceeds buffer (this is a bug!)"

  /** get_offset: where the block device maj:min starts, read from sysfs.
      It dies when the start file cannot be opened or does not hold a
      number with only white space around it; the buffer check never
      fires. */
  function GetOffset(maj: U32, min: U32, fs: FileSystem): (r: Result<DeviceOffset>)
    ensures var path := SysfsPath(maj, min);
      && (r.Ok? <==> path in fs.files && ScanUnsignedThenChar(fs.files[path]).count == 1)
      && (path !in fs.files ==> r == Died(path + ": " + fs.errnoText))
      && (path in fs.files && ScanUnsignedThenChar(fs.files[path]).count != 1 ==>
            r == Died("can't interpret " + path + " as offset"))
      && (r.Ok? ==>
            var sectors := ScanUnsignedThenChar(fs.files[path]).value;
            r.value.bytes == SectorsToBytes(sectors) && r.value.bytes % SectorSize == 0
            && r.value.printed == OffsetLine(maj, min, r.value.bytes, sectors))
    ensures r != Died(PathTooLong)
  {
    var path := SysfsPath(maj, min);
    SysfsPathFits(maj, min);
    if |path| >= SysfsBufferSize then
      assert false;
      Died(PathTooLong)
    else if path !in fs.files then
      assert (path + ": " + fs.errnoText)[0] != PathTooLong[0];
      Died(path + ": " + fs.errnoText)
    else
      var scan := ScanUnsignedThenChar(fs.files[path]);
      if scan.count != 1 then
        Died("can't interpret " + path + " as offset")
      else
        var bytes := SectorsToBytes(scan.value);
        SectorsToBytesMeaning(scan.value);
        Ok(DeviceOffset(bytes, OffsetLine(maj, min, bytes, scan.value)))
  }

  /** When sysfs reports that the device starts at sector n, get_offset
      returns n * 512 (modulo 2^64) and prints both numbers. */
  lemma GetOffsetReadsStartSector(maj: U32, min: U32, fs: FileSystem, n: U64)
    requires SysfsPath(maj, min) in fs.files
    requires fs.files[SysfsPath(maj, min)] == Dec(n) + "\n"
    ensures GetOffset(maj, min, fs) == Ok(DeviceOffset(SectorsToBytes(n), OffsetLine(maj, min, SectorsToBytes(n), n)))
  {
    SysfsNumberScansBack(n);
  }
}
