/** The fixed six-column extent table: one label block, then one row per
    mapped extent giving its logical offset, physical offset on the whole
    device and length, each in bytes and in 512-byte sectors. */
module Table {
  import opened Abi
  import opened Format

  /** k_logical_width, k_logical_short_width, k_physical_width,
      k_physical_short_width, k_length_width, k_length_short_width. */
  const Widths: seq<nat> := [11, 8, 13, 10, 9, 6]

  /** Whole sectors in a byte count, rounding down. */
  function ToSectors(bytes: U64): (sectors: U64)
    ensures sectors * SectorSize <= bytes < (sectors + 1) * SectorSize
  {
    bytes / SectorSize
  }

  /** A partition-relative physical offset moved by the device's base
      offset, in wrapping 64-bit unsigned arithmetic. */
  function DevicePhysical(offset: U64, physical: U64): (p: U64)
    ensures offset + physical < TwoTo64 ==> p == offset + physical
    ensures offset + physical >= TwoTo64 ==> p == offset + physical - TwoTo64
  {
    (offset + physical) % TwoTo64
  }

  /** The six numbers of an extent's row, left to right. */
  function Cells(e: Extent, offset: U64): seq<U64> {
    var physical := DevicePhysical(offset, e.physical);
    [e.logical, ToSectors(e.logical), physical, ToSectors(physical), e.length, ToSectors(e.length)]
  }

  /** Each sector cell is its byte cell in whole sectors; only the physical
      pair depends on the base offset, and it moves by that offset modulo
      2^64. */
  lemma CellsMeaning(e: Extent, o1: U64, o2: U64)
    ensures var c1, c2 := Cells(e, o1), Cells(e, o2);
      && |c1| == 6
      && (forall k | k in {0, 2, 4} :: c1[k + 1] * SectorSize <= c1[k] < (c1[k + 1] + 1) * SectorSize)
      && c1[0] == e.logical && c1[4] == e.length
      && c1[0] == c2[0] && c1[1] == c2[1] && c1[4] == c2[4] && c1[5] == c2[5]
      && (c1[2] - c2[2]) % TwoTo64 == (o1 - o2) % TwoTo64
  {
    var c1, c2 := Cells(e, o1), Cells(e, o2);
    assert c1[2] == (o1 + e.physical) % TwoTo64 && c2[2] == (o2 + e.physical) % TwoTo64;
  }

  /** The label block printed by show_labels: a blank line, then the labels
      over the byte columns, right-justified in the same widths. */
  function Labels(): string {
    "\n" + LabelLine()
  }

  function LabelLine(): string {
    LabelBody() + "\n"
  }

  function LabelBody(): (body: string)
    ensures NoNewline(body)
  {
    LabelPair("LOGICAL", Widths[0], Widths[1]) + "   "
    + LabelPair("PHYSICAL", Widths[2], Widths[3]) + "   "
    + PadLeft("LENGTH", Widths[4])
  }

  /** A label over a byte column, then the blank heading of its sector column. */
  function LabelPair(heading: string, width: nat, shortWidth: nat): (s: string)
    requires NoNewline(heading)
    ensures NoNewline(s)
  {
    PadLeft(heading, width) + "     " + PadLeft("", shortWidth)
  }

  /** The row show_extent prints for one extent. */
  function Row(e: Extent, offset: U64): string {
    RowBody(Cells(e, offset)) + "\n"
  }

  function RowBody(c: seq<U64>): (body: string)
    requires |c| == 6
    ensures NoNewline(body)
  {
    CellPair(c[0], c[1], Widths[0], Widths[1]) + "   "
    + CellPair(c[2], c[3], Widths[2], Widths[3]) + "   "
    + CellPair(c[4], c[5], Widths[4], Widths[5])
  }

  /** A byte value, " B = ", and the same quantity in sectors. */
  function CellPair(bytes: U64, sectors: U64, width: nat, shortWidth: nat): (s: string)
    ensures NoNewline(s)
  {
    FormatUnsigned(bytes, width) + " B = " + FormatUnsigned(sectors, shortWidth)
  }

  /** The rows for es, in order. */
  function Rows(es: seq<Extent>, offset: U64): string {
    if es == [] then "" else Rows(es[..|es| - 1], offset) + Row(es[|es| - 1], offset)
  }

  lemma RowsSnoc(es: seq<Extent>, e: Extent, offset: U64)
    ensures Rows(es + [e], offset) == Rows(es, offset) + Row(e, offset)
  {
    assert (es + [e])[..|es|] == es;
  }

  /** One more row extends the table by that row. */
  lemma TableGrows(es: seq<Extent>, i: nat, offset: U64)
    requires i < |es|
    ensures Labels() + Rows(es[..i + 1], offset) == (Labels() + Rows(es[..i], offset)) + Row(es[i], offset)
  {
    assert es[..i + 1] == es[..i] + [es[i]];
    RowsSnoc(es[..i], es[i], offset);
  }

  /** show_extent_table: the label block, then one row for each of the
      fm_mapped_extents slots, in index order. It reads no slot at or past
      fm_mapped_extents, and it changes nothing. */
  method ShowExtentTable(fm: Fiemap, offset: U64) returns (out: string)
    requires fm.mappedExtents <= fm.extents.Length
    ensures out == Labels() + Rows(fm.extents[..fm.mappedExtents], offset)
  {
    ghost var slots := fm.extents[..];
    out := Labels();
    var i: nat := 0;
    while i < fm.mappedExtents
      invariant i <= fm.mappedExtents
      invariant out == Labels() + Rows(slots[..i], offset)
    {
      var row := Row(fm.extents[i], offset);
      TableGrows(slots, i, offset);
      out := out + row;
      i := i + 1;
    }
    assert slots[..i] == fm.extents[..fm.mappedExtents];
  }

  /** Every row is exactly one line. */
  lemma RowIsOneLine(e: Extent, offset: U64)
    ensures CountNewlines(Row(e, offset)) == 1
    ensures Row(e, offset)[|Row(e, offset)| - 1] == '\n'
  {
    OneLine(RowBody(Cells(e, offset)));
  }

  /** The rows of es are |es| lines. */
  lemma {:induction false} RowsLineCount(es: seq<Extent>, offset: U64)
    ensures CountNewlines(Rows(es, offset)) == |es|
    decreases |es|
  {
    if es != [] {
      RowsLineCount(es[..|es| - 1], offset);
      RowIsOneLine(es[|es| - 1], offset);
      CountNewlinesAppend(Rows(es[..|es| - 1], offset), Row(es[|es| - 1], offset));
    }
  }

  /** A table starts with a blank line, and it is the two lines of the
      label block plus one line for each row. */
  lemma TableLineCount(es: seq<Extent>, offset: U64)
    ensures (Labels() + Rows(es, offset))[0] == '\n'
    ensures CountNewlines(Labels() + Rows(es, offset)) == |es| + 2
  {
    RowsLineCount(es, offset);
    CountNewlinesAppend(Labels(), Rows(es, offset));
    CountNewlinesAppend("\n", LabelLine());
    OneLine(LabelBody());
  }

  /** Every cell up to the length in bytes fits its width; the last cell,
      the length in sectors, lies right of every label and may overflow. */
  predicate Fits(e: Extent, offset: U64) {
    forall k | 0 <= k < 5 :: |Dec(Cells(e, offset)[k])| <= Widths[k]
  }

  /** word ends just before column col of line, and what follows it is a
      space or the line end. */
  predicate EndsAt(line: string, word: string, col: nat) {
    |word| <= col < |line| && line[col - |word|..col] == word && (line[col] == ' ' || line[col] == '\n')
  }

  lemma EndsAtField(field: string, post: string, word: string)
    requires |word| <= |field| && field[|field| - |word|..] == word
    requires post != [] && (post[0] == ' ' || post[0] == '\n')
    ensures EndsAt(field + post, word, |field|)
  {
    var line := field + post;
    assert line[|field| - |word|..|field|] == field[|field| - |word|..];
  }

  lemma EndsAtPrepend(pre: string, line: string, word: string, col: nat)
    requires EndsAt(line, word, col)
    ensures EndsAt(pre + line, word, |pre| + col)
  {
    assert (pre + line)[|pre| + col - |word|..|pre| + col] == line[col - |word|..col];
  }

  lemma EndsAtAppend(line: string, post: string, word: string, col: nat)
    requires EndsAt(line, word, col)
    ensures EndsAt(line + post, word, col)
  {
    assert (line + post)[col - |word|..col] == line[col - |word|..col];
  }

  /** When every value fits its width, LOGICAL, PHYSICAL and LENGTH end in
      the same columns (11, 40 and 67) as the logical, physical and length
      byte values of the row. */
  lemma LabelsAlignWithRow(e: Extent, offset: U64)
    requires Fits(e, offset)
    ensures var c, row := Cells(e, offset), Row(e, offset);
      && EndsAt(LabelLine(), "LOGICAL", 11) && EndsAt(row, Dec(c[0]), 11)
      && EndsAt(LabelLine(), "PHYSICAL", 40) && EndsAt(row, Dec(c[2]), 40)
      && EndsAt(LabelLine(), "LENGTH", 67) && EndsAt(row, Dec(c[4]), 67)
  {
    LabelColumns();
    RowColumns(Cells(e, offset));
  }

  /** The columns where the three byte values (or their labels) end, for
      any line laid out as show_labels and show_extent lay theirs out. */
  lemma ColumnEnds(p0: string, p1: string, tail: string, w0: string, w2: string, w4: string)
    requires |p0| == 24 && |p1| == 28
    requires EndsAt(p0, w0, 11) && EndsAt(p1, w2, 13) && EndsAt(tail, w4, 9)
    ensures var line := p0 + "   " + p1 + "   " + tail;
      EndsAt(line, w0, 11) && EndsAt(line, w2, 40) && EndsAt(line, w4, 67)
  {
    EndsAtAppend(p0, "   ", w0, 11);
    EndsAtAppend(p0 + "   ", p1, w0, 11);
    EndsAtAppend(p0 + "   " + p1, "   ", w0, 11);
    EndsAtAppend(p0 + "   " + p1 + "   ", tail, w0, 11);

    EndsAtPrepend(p0 + "   ", p1, w2, 13);
    EndsAtAppend(p0 + "   " + p1, "   ", w2, 40);
    EndsAtAppend(p0 + "   " + p1 + "   ", tail, w2, 40);

    EndsAtPrepend(p0 + "   " + p1 + "   ", tail, w4, 9);
  }

  lemma LabelColumns()
    ensures EndsAt(LabelLine(), "LOGICAL", 11)
    ensures EndsAt(LabelLine(), "PHYSICAL", 40)
    ensures EndsAt(LabelLine(), "LENGTH", 67)
  {
    var p0, p1 := LabelPair("LOGICAL", 11, 8), LabelPair("PHYSICAL", 13, 10);
    var l4 := PadLeft("LENGTH", 9);
    LabelPairEnds("LOGICAL", 11, 8);
    LabelPairEnds("PHYSICAL", 13, 10);
    EndsAtField(l4, "\n", "LENGTH");
    ColumnEnds(p0, p1, l4 + "\n", "LOGICAL", "PHYSICAL", "LENGTH");
    Associative(p0 + "   " + p1 + "   ", l4, "\n");
  }

  /** In a label pair whose heading fits its width, the heading ends at
      that width. */
  lemma LabelPairEnds(heading: string, width: nat, shortWidth: nat)
    requires NoNewline(heading) && |heading| <= width
    ensures |LabelPair(heading, width, shortWidth)| == width + 5 + shortWidth
    ensures EndsAt(LabelPair(heading, width, shortWidth), heading, width)
  {
    var l := PadLeft(heading, width);
    EndsAtField(l, "     ", heading);
    EndsAtAppend(l + "     ", PadLeft("", shortWidth), heading, width);
  }

  lemma Associative(a: string, b: string, c: string)
    ensures (a + b) + c == a + (b + c)
  {
  }

  lemma RowColumns(c: seq<U64>)
    requires |c| == 6 && forall k | 0 <= k < 5 :: |Dec(c[k])| <= Widths[k]
    ensures var row := RowBody(c) + "\n";
      EndsAt(row, Dec(c[0]), 11) && EndsAt(row, Dec(c[2]), 40) && EndsAt(row, Dec(c[4]), 67)
  {
    var p0, p1, p2 := CellPair(c[0], c[1], 11, 8), CellPair(c[2], c[3], 13, 10), CellPair(c[4], c[5], 9, 6);
    assert |Dec(c[0])| <= 11 && |Dec(c[1])| <= 8 && |Dec(c[2])| <= 13 && |Dec(c[3])| <= 10;
    assert |Dec(c[4])| <= 9;
    CellPairEnds(c[0], c[1], 11, 8);
    CellPairEnds(c[2], c[3], 13, 10);
    CellPairEnds(c[4], c[5], 9, 6);
    EndsAtAppend(p2, "\n", Dec(c[4]), 9);
    ColumnEnds(p0, p1, p2 + "\n", Dec(c[0]), Dec(c[2]), Dec(c[4]));
    Associative(p0 + "   " + p1 + "   ", p2, "\n");
  }

  /** In a cell pair whose byte value fits its width, the value ends at
      that width. */
  lemma CellPairEnds(bytes: U64, sectors: U64, width: nat, shortWidth: nat)
    requires |Dec(bytes)| <= width
    ensures |Dec(sectors)| <= shortWidth ==> |CellPair(bytes, sectors, width, shortWidth)| == width + 5 + shortWidth
    ensures EndsAt(CellPair(bytes, sectors, width, shortWidth), Dec(bytes), width)
  {
    var f0, f1 := FormatUnsigned(bytes, width), FormatUnsigned(sectors, shortWidth);
    EndsAtField(f0, " B = ", Dec(bytes));
    EndsAtAppend(f0 + " B = ", f1, Dec(bytes), width);
  }
}
