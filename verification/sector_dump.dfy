/** The block console's sector dump (`print_sector`): one 512-byte sector as
    32 rows, each an offset label, the row's 16 bytes in hexadecimal in four
    groups of four, and the same bytes as ASCII. */
module SectorDump {
  import opened Base
  import opened Numerals

  const SectorSize: nat := 512
  const RowBytes: nat := 16
  const RowCount: nat := 32

  /** Offset of the ASCII column in a row, and the width of a whole row
      including its newline. */
  const AsciiStart: nat := 59
  const RowWidth: nat := 76

  type Sector = s: seq<byte> | |s| == 512 witness seq(512, _ => 0)

  /** The ASCII column's rendering of one byte. */
  function Shown(b: byte): char
  {
    if b < 0x20 || 0x7f <= b then '.' else b as char
  }

  /** One `" %02x"` cell per byte. */
  function Cells(bs: seq<byte>): (s: string)
    ensures |s| == 3 * |bs|
  {
    if bs == [] then [] else " " + Hex2(bs[0]) + Cells(bs[1..])
  }

  /** `n` runs of four cells, each run followed by a blank. */
  function Groups(bs: seq<byte>, n: nat): (s: string)
    requires |bs| == 4 * n
    ensures |s| == 13 * n
  {
    if n == 0 then [] else Cells(bs[..4]) + " " + Groups(bs[4..], n - 1)
  }

  function Ascii(bs: seq<byte>): (s: string)
    ensures |s| == |bs|
  {
    if bs == [] then [] else [Shown(bs[0])] + Ascii(bs[1..])
  }

  /** Row `r` of the dump of `data`. */
  function Row(r: nat, data: Sector): string
    requires r < RowCount
  {
    var bs := data[16 * r .. 16 * r + RowBytes];
    Hex3(16 * r) + ":" + Groups(bs, 4) + " | " + Ascii(bs) + "\n"
  }

  function Rows(data: Sector): (rows: seq<string>)
    ensures |rows| == RowCount
  {
    seq(RowCount, r requires 0 <= r < RowCount => Row(r, data))
  }

  function Flatten(lines: seq<string>): string
  {
    if lines == [] then [] else lines[0] + Flatten(lines[1..])
  }

  /** `%d` applied to a 32-bit unsigned sector number prints it as a signed
      32-bit value. */
  function SignedDecimal(x: u32): string
  {
    if x < 0x8000_0000 then Decimal(x) else "-" + Decimal(WordModulus - x)
  }

  /** The whole output of `print_sector(sector, data)`. */
  function Dump(sector: u32, data: Sector): string
  {
    "# " + SignedDecimal(sector) + ":\n" + Flatten(Rows(data))
  }

  /** Where the two hexadecimal digits of byte `j` of a row start. */
  function HexOffset(j: nat): nat
  {
    5 + 13 * (j / 4) + 3 * (j % 4)
  }

  /** Reads the label and the 16 hexadecimal fields back out of a row. */
  function DecodeRow(line: string): (d: (Option<nat>, seq<Option<byte>>))
    requires |line| == RowWidth
    ensures |d.1| == RowBytes
  {
    (ParseHex3(line[..3]),
     seq(RowBytes, j requires 0 <= j < RowBytes => ParseHex2(line[HexOffset(j) .. HexOffset(j) + 2])))
  }

  lemma {:induction false} CellsAt(bs: seq<byte>, j: nat)
    requires j < |bs|
    ensures Cells(bs)[3 * j] == ' '
    ensures Cells(bs)[3 * j + 1 .. 3 * j + 3] == Hex2(bs[j])
  {
    if j > 0 {
      CellsAt(bs[1..], j - 1);
      assert Cells(bs) == " " + Hex2(bs[0]) + Cells(bs[1..]);
    }
  }

  /** Cell `c` of group `g` holds byte `4 g + c`, after a blank at `o`. */
  lemma {:induction false} GroupsAt(bs: seq<byte>, n: nat, g: nat, c: nat, o: nat)
    requires |bs| == 4 * n && c < 4 && g < n && o == 13 * g + 3 * c
    ensures Groups(bs, n)[o] == ' '
    ensures Groups(bs, n)[o + 1 .. o + 3] == Hex2(bs[4 * g + c])
    decreases g, 1
  {
    if g == 0 {
      FirstGroupAt(bs, n, c, o);
    } else {
      LaterGroupAt(bs, n, g, c, o);
    }
  }

  lemma FirstGroupAt(bs: seq<byte>, n: nat, c: nat, o: nat)
    requires |bs| == 4 * n && c < 4 && 0 < n && o == 3 * c
    ensures Groups(bs, n)[o] == ' '
    ensures Groups(bs, n)[o + 1 .. o + 3] == Hex2(bs[c])
  {
    var cells, rest := Cells(bs[..4]), Groups(bs[4..], n - 1);
    assert Groups(bs, n) == cells + (" " + rest);
    CellsAt(bs[..4], c);
    assert bs[..4][c] == bs[c];
    Before(cells, " " + rest, o + 1, o + 3);
  }

  lemma {:induction false} LaterGroupAt(bs: seq<byte>, n: nat, g: nat, c: nat, o: nat)
    requires |bs| == 4 * n && 0 < g < n && c < 4 && o == 13 * g + 3 * c
    ensures Groups(bs, n)[o] == ' '
    ensures Groups(bs, n)[o + 1 .. o + 3] == Hex2(bs[4 * g + c])
    decreases g, 0
  {
    GroupsAt(bs[4..], n - 1, g - 1, c, o - 13);
    var front, rest := Cells(bs[..4]) + " ", Groups(bs[4..], n - 1);
    assert Groups(bs, n) == front + rest;
    assert bs[4..][4 * (g - 1) + c] == bs[4 * g + c];
    After(front, rest, o - 13 + 1, o - 13 + 3);
  }

  lemma {:induction false} AsciiAt(bs: seq<byte>, j: nat)
    requires j < |bs|
    ensures Ascii(bs)[j] == Shown(bs[j])
  {
    if j > 0 {
      AsciiAt(bs[1..], j - 1);
    }
  }

  /** Every row has the fixed layout: a three-digit label at 16 r, a colon,
      each byte's two hexadecimal digits at its fixed column, the ASCII
      column starting at 59, and a newline at the end. */
  lemma RowLayout(r: nat, data: Sector, j: nat)
    requires r < RowCount && j < RowBytes
    ensures |Row(r, data)| == RowWidth
    ensures Row(r, data)[..3] == Hex3(16 * r)
    ensures Row(r, data)[3] == ':' && Row(r, data)[RowWidth - 1] == '\n'
    ensures Row(r, data)[AsciiStart - 3 .. AsciiStart] == " | "
    ensures Row(r, data)[HexOffset(j) - 1] == ' '
    ensures Row(r, data)[HexOffset(j) .. HexOffset(j) + 2] == Hex2(data[16 * r + j])
    ensures Row(r, data)[AsciiStart + j] == Shown(data[16 * r + j])
  {
    RowFrame(r, data);
    RowField(r, data, j);
  }

  /** The parts of a row that do not depend on the column. */
  lemma RowFrame(r: nat, data: Sector)
    requires r < RowCount
    ensures |Row(r, data)| == RowWidth
    ensures Row(r, data)[..3] == Hex3(16 * r)
    ensures Row(r, data)[3] == ':' && Row(r, data)[RowWidth - 1] == '\n'
    ensures Row(r, data)[AsciiStart - 3 .. AsciiStart] == " | "
  {
    var bs := data[16 * r .. 16 * r + 16];
    var head, tail := Hex3(16 * r) + ":", " | " + Ascii(bs) + "\n";
    var line := Row(r, data);
    assert line == head + Groups(bs, 4) + tail;
    assert line[..3] == head[..3];
    Last(head + Groups(bs, 4), tail, AsciiStart - 3, AsciiStart);
  }

  /** The hexadecimal field and the ASCII character of byte `j` of a row. */
  lemma RowField(r: nat, data: Sector, j: nat)
    requires r < RowCount && j < RowBytes
    ensures |Row(r, data)| == RowWidth
    ensures Row(r, data)[HexOffset(j) - 1] == ' '
    ensures Row(r, data)[HexOffset(j) .. HexOffset(j) + 2] == Hex2(data[16 * r + j])
    ensures Row(r, data)[AsciiStart + j] == Shown(data[16 * r + j])
  {
    RowHex(r, data, j / 4, j % 4, 16 * r + j, HexOffset(j));
    RowAscii(r, data, j);
  }

  /** The hexadecimal field, at `lo`, of cell `c` of group `g` of a row,
      which shows byte `i` of the sector. */
  lemma RowHex(r: nat, data: Sector, g: nat, c: nat, i: nat, lo: nat)
    requires r < RowCount && g < 4 && c < 4
    requires i == 16 * r + 4 * g + c && lo == 5 + 13 * g + 3 * c
    ensures |Row(r, data)| == RowWidth
    ensures Row(r, data)[lo - 1] == ' '
    ensures Row(r, data)[lo .. lo + 2] == Hex2(data[i])
  {
    var bs := data[16 * r .. 16 * r + 16];
    var head, groups, tail := Hex3(16 * r) + ":", Groups(bs, 4), " | " + Ascii(bs) + "\n";
    assert Row(r, data) == head + groups + tail;
    assert bs[4 * g + c] == data[i];
    GroupsAt(bs, 4, g, c, lo - 5);
    Middle(head, groups, tail, lo, lo + 2);
  }

  /** The ASCII character of byte `j` of a row. */
  lemma RowAscii(r: nat, data: Sector, j: nat)
    requires r < RowCount && j < RowBytes
    ensures Row(r, data)[AsciiStart + j] == Shown(data[16 * r + j])
  {
    var bs := data[16 * r .. 16 * r + 16];
    var front, tail := Hex3(16 * r) + ":" + Groups(bs, 4), " | " + Ascii(bs) + "\n";
    assert Row(r, data) == front + tail;
    assert bs[j] == data[16 * r + j];
    AsciiAt(bs, j);
    assert tail[3 + j] == Ascii(bs)[j];
  }

  /** A slice of the first part of a concatenation. */
  lemma Before(a: string, b: string, lo: nat, hi: nat)
    requires lo <= hi <= |a|
    ensures (a + b)[lo .. hi] == a[lo .. hi]
  {
  }

  /** A slice of the second part of a concatenation. */
  lemma After(a: string, b: string, lo: nat, hi: nat)
    requires lo <= hi <= |b|
    ensures (a + b)[|a| + lo .. |a| + hi] == b[lo .. hi]
  {
  }

  /** A slice of the last part of a concatenation. */
  lemma Last(a: string, c: string, lo: nat, hi: nat)
    requires |a| <= lo <= hi <= |a| + |c|
    ensures (a + c)[lo .. hi] == c[lo - |a| .. hi - |a|]
  {
  }

  /** A slice inside the middle part of a concatenation. */
  lemma Middle(a: string, b: string, c: string, lo: nat, hi: nat)
    requires |a| <= lo <= hi <= |a| + |b|
    ensures (a + b + c)[lo .. hi] == b[lo - |a| .. hi - |a|]
  {
  }

  /** The dump's rows decode back to the sector: row `r` is labelled `16 r`
      and holds exactly bytes `16 r` to `16 r + 15`, so the last row ends at
      byte 511. */
  lemma DumpRoundTrip(data: Sector, r: nat)
    requires r < RowCount
    ensures |Rows(data)| == 32 && |Rows(data)[r]| == RowWidth
    ensures DecodeRow(Rows(data)[r]).0 == Some(16 * r)
    ensures DecodeRow(Rows(data)[r]).1 == seq(RowBytes, j requires 0 <= j < RowBytes => Some(data[16 * r + j]))
  {
    assert Rows(data)[r] == Row(r, data);
    RowFrame(r, data);
    Hex3RoundTrip(16 * r);
    FieldsRoundTrip(data, r);
  }

  lemma FieldsRoundTrip(data: Sector, r: nat)
    requires r < RowCount
    ensures |Row(r, data)| == RowWidth
    ensures forall j :: 0 <= j < RowBytes ==> DecodeRow(Row(r, data)).1[j] == Some(data[16 * r + j])
  {
    RowFrame(r, data);
    forall j | 0 <= j < RowBytes
      ensures DecodeRow(Row(r, data)).1[j] == Some(data[16 * r + j])
    {
      RowField(r, data, j);
      Hex2RoundTrip(data[16 * r + j]);
    }
  }

  /** `%d` of a sector number reads back as that number taken as a signed
      32-bit value: a minus sign exactly from 2^31 on, then the magnitude. */
  lemma SignedDecimalReads(x: u32)
    ensures var s := SignedDecimal(x);
            && |s| >= 1 && (s[0] == '-' <==> x >= 0x8000_0000)
            && (s[0] != '-' ==> DigitsValue(s) == x)
            && (s[0] == '-' ==> |s| >= 2 && IsDigits(s[1..]) && x - WordModulus == -(DigitsValue(s[1..]) as int))
  {
    if x < 0x8000_0000 {
      DecimalRoundTrip(x);
    } else {
      var s := SignedDecimal(x);
      assert s[1..] == Decimal(WordModulus - x);
      DecimalRoundTrip(WordModulus - x);
    }
  }

  predicate IsDigits(s: string)
  {
    forall k :: 0 <= k < |s| ==> IsDigit(s[k])
  }

  /** Lines of one width laid end to end: line `r` occupies the `r`-th
      stretch of that width. */
  lemma {:induction false} FlattenAt(lines: seq<string>, w: nat, r: nat)
    requires forall k :: 0 <= k < |lines| ==> |lines[k]| == w
    requires r < |lines|
    ensures |Flatten(lines)| == |lines| * w
    ensures Flatten(lines)[w * r .. w * (r + 1)] == lines[r]
  {
    FlattenLength(lines, w);
    if r > 0 {
      var rest := Flatten(lines[1..]);
      FlattenAt(lines[1..], w, r - 1);
      Stretch(w, r, |lines|);
      assert Flatten(lines) == lines[0] + rest;
      Last(lines[0], rest, w * r, w * (r + 1));
    } else {
      Before(lines[0], Flatten(lines[1..]), 0, w);
    }
  }

  /** Stretch `r` of width `w` is stretch `r - 1` moved by one width, and
      lies within `n` stretches. */
  lemma Stretch(w: nat, r: nat, n: nat)
    requires 0 < r < n
    ensures w * r == w + w * (r - 1) && w * (r + 1) == w + w * r
    ensures w * (r + 1) <= w + (n - 1) * w
  {
    assert w * (r + 1) <= w * n;
  }

  lemma {:induction false} FlattenLength(lines: seq<string>, w: nat)
    requires forall k :: 0 <= k < |lines| ==> |lines[k]| == w
    ensures |Flatten(lines)| == |lines| * w
  {
    if lines != [] {
      FlattenLength(lines[1..], w);
      assert |lines| * w == w + (|lines| - 1) * w;
    }
  }

  /** The whole dump: the header `# <sector>:` on its own line, then the 32
      rows of 76 characters one after another, row `r` holding bytes `16 r`
      to `16 r + 15`. */
  lemma DumpLayout(sector: u32, data: Sector, r: nat)
    requires r < RowCount
    ensures var h := |SignedDecimal(sector)| + 4;
            && |Dump(sector, data)| == h + RowCount * RowWidth
            && Dump(sector, data)[..h] == "# " + SignedDecimal(sector) + ":\n"
            && Dump(sector, data)[h + RowWidth * r .. h + RowWidth * (r + 1)] == Rows(data)[r]
  {
    var rows := Rows(data);
    forall k | 0 <= k < |rows|
      ensures |rows[k]| == RowWidth
    {
      RowFrame(k, data);
    }
    FlattenAt(rows, RowWidth, r);
    var head := "# " + SignedDecimal(sector) + ":\n";
    assert Dump(sector, data) == head + Flatten(rows);
    Last(head, Flatten(rows), |head| + RowWidth * r, |head| + RowWidth * (r + 1));
  }

  /** A byte shows as itself in the ASCII column exactly when it lies in
      0x20..0x7e; every other byte shows as a dot. */
  lemma AsciiColumn(r: nat, data: Sector, j: nat)
    requires r < RowCount && j < RowBytes
    ensures var b := data[16 * r + j];
            (0x20 <= b < 0x7f ==> Row(r, data)[AsciiStart + j] as int == b)
            && (b < 0x20 || 0x7f <= b ==> Row(r, data)[AsciiStart + j] == '.')
  {
    RowLayout(r, data, j);
  }
}
