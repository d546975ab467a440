/** The 16-byte lines that PrintPackets prints for one packet
    (Examples-remote/PacketDriver/TestPacketCapture/TestPacketCapture.c). */
module HexDump {
  import opened Text
  import opened Sequences

  function Min(a: nat, b: nat): nat {
    if a < b then a else b
  }

  // isprint in the C locale.
  function Shown(b: Byte): char {
    if 0x20 <= b <= 0x7e then b as char else '.'
  }

  function Blanks(n: nat): (s: string)
    ensures |s| == n
  {
    if n == 0 then "" else " " + Blanks(n - 1)
  }

  function Cells(bs: seq<Byte>): string {
    if bs == [] then "" else Hex(2, bs[0]) + " " + Cells(bs[1..])
  }

  function Ascii(bs: seq<Byte>): (s: string)
    ensures |s| == |bs|
  {
    if bs == [] then "" else [Shown(bs[0])] + Ascii(bs[1..])
  }

  lemma {:induction false} AsciiAt(bs: seq<Byte>, k: nat)
    requires k < |bs|
    ensures Ascii(bs)[k] == Shown(bs[k])
    decreases |bs|
  {
    if k > 0 {
      AsciiAt(bs[1..], k - 1);
    }
  }

  function Chunk(data: seq<Byte>, i: nat): seq<Byte>
    requires 16 * i <= |data|
  {
    data[16 * i..Min(16 * i + 16, |data|)]
  }

  function Columns(offset: string, cells: string, ascii: string): string {
    offset + " : " + cells + ascii + "\n"
  }

  // One line: offset, hex column padded to 48 characters, characters.
  function LineOf(offset: nat, c: seq<Byte>): string
    requires |c| <= 16
  {
    Columns(Hex(8, offset), Cells(c) + Blanks((16 - |c|) * 3), Ascii(c))
  }

  function Line(data: seq<Byte>, i: nat): string
    requires 16 * i < |data|
  {
    LineOf(16 * i, Chunk(data, i))
  }

  function DumpFrom(data: seq<Byte>, i: nat): string
    decreases |data| - 16 * i
  {
    if 16 * i >= |data| then "" else Line(data, i) + DumpFrom(data, i + 1)
  }

  function Dump(data: seq<Byte>): string {
    DumpFrom(data, 0)
  }

  // ---- Reading a dump back ----

  function ReadCells(s: string): seq<Byte> {
    if |s| < 3 || s[0] == ' ' then [] else ReadCell(s) + ReadCells(s[3..])
  }

  function ReadCell(s: string): seq<Byte>
    requires |s| >= 2
  {
    var v := HexValue(s[0]) * 16 + HexValue(s[1]);
    [if v < 0x100 then v else 0]
  }

  function LineEnd(text: string, p: nat): (e: nat)
    requires p <= |text|
    ensures p <= e <= |text|
    decreases |text| - p
  {
    if p < |text| && text[p] != '\n' then LineEnd(text, p + 1) else p
  }

  function ParseDump(text: string): seq<Byte>
    decreases |text|
  {
    if |text| < 60 then [] else
      var e := LineEnd(text, 59);
      ReadCells(text[11..59]) + if e == |text| then [] else ParseDump(text[e + 1..])
  }

  lemma CellReadsBack(b: Byte)
    ensures |Hex(2, b)| == 2 && ReadCell(Hex(2, b)) == [b] && Hex(2, b)[0] != ' '
  {
    assert Hex(2, b) == Hex(1, b / 16) + [HexDigit(b % 16)];
    assert Hex(1, b / 16) == Hex(0, b / 256) + [HexDigit(b / 16 % 16)];
    assert Hex(2, b)[0] == HexDigit(b / 16) && Hex(2, b)[1] == HexDigit(b % 16);
  }

  lemma {:induction false} CellsReadBack(bs: seq<Byte>, n: nat)
    ensures |Cells(bs)| == 3 * |bs|
    ensures ReadCells(Cells(bs) + Blanks(n)) == bs
    decreases |bs|
  {
    var s := Cells(bs) + Blanks(n);
    if bs == [] {
      assert s == Blanks(n);
    } else {
      CellReadsBack(bs[0]);
      CellsReadBack(bs[1..], n);
      assert s[..2] == Hex(2, bs[0]);
      assert ReadCell(s) == ReadCell(s[..2]);
      assert s[3..] == Cells(bs[1..]) + Blanks(n);
    }
  }

  /** Every line: offset column, a hex column that is always 48 wide and holds exactly the
      line's bytes, one character per byte, and no line feed before its end. */
  lemma LineColumns(data: seq<Byte>, i: nat)
    requires 16 * i < |data| <= TWO32
    ensures var l, c := Line(data, i), Chunk(data, i);
            && |l| == 60 + |c| && ReadHex(l[..8]) == 16 * i && l[8..11] == " : "
            && ReadCells(l[11..59]) == c && l[59..59 + |c|] == Ascii(c) && l[59 + |c|] == '\n'
            && forall k :: 59 <= k < 59 + |c| ==> l[k] != '\n'
  {
    var l, c := Line(data, i), Chunk(data, i);
    var cells := Cells(c) + Blanks((16 - |c|) * 3);
    CellsReadBack(c, (16 - |c|) * 3);
    assert Pow16(8) == TWO32 by {
      assert Pow16(4) == 0x1_0000;
    }
    HexReadsBack(8, 16 * i);
    assert l[..8] == Hex(8, 16 * i);
    assert l[8..11] == " : ";
    assert l[11..59] == cells;
    assert l[59..59 + |c|] == Ascii(c);
    forall k | 59 <= k < 59 + |c|
      ensures l[k] != '\n'
    {
      AsciiAt(c, k - 59);
      assert l[k] == l[59..59 + |c|][k - 59] == Shown(c[k - 59]);
    }
  }

  // The cell of a byte: its two hexadecimal digits and a blank.
  predicate CellShows(s: string, b: Byte) {
    && |s| == 3 && IsHexDigit(s[0]) && IsHexDigit(s[1]) && s[2] == ' '
    && HexValue(s[0]) * 16 + HexValue(s[1]) == b
  }

  // The character of a byte: itself if it can be printed, a dot otherwise.
  predicate CharShows(c: char, b: Byte) {
    if 0x20 <= b <= 0x7e then c as int == b else c == '.'
  }

  // A line, character by character.
  ghost predicate LineShows(l: string, offset: nat, c: seq<Byte>) {
    && |c| <= 16 && |l| == 60 + |c|
    && ReadHex(l[..8]) == offset && (forall k :: 0 <= k < 8 ==> IsHexDigit(l[k])) && l[8..11] == " : "
    && (forall k :: 0 <= k < |c| ==> CellShows(l[11 + 3 * k..14 + 3 * k], c[k]))
    && (forall k :: 11 + 3 * |c| <= k < 59 ==> l[k] == ' ')
    && (forall k :: 0 <= k < |c| ==> CharShows(l[59 + k], c[k]))
    && l[59 + |c|] == '\n'
  }

  lemma CellIs(b: Byte)
    ensures CellShows(Hex(2, b) + " ", b)
  {
    CellReadsBack(b);
    assert Hex(2, b) == Hex(1, b / 16) + [HexDigit(b % 16)];
    assert Hex(1, b / 16) == Hex(0, b / 256) + [HexDigit(b / 16 % 16)];
  }

  lemma {:induction false} CellsAt(bs: seq<Byte>, k: nat)
    requires k < |bs|
    ensures |Cells(bs)| == 3 * |bs| && CellShows(Cells(bs)[3 * k..3 * k + 3], bs[k])
    decreases |bs|
  {
    var cell, rest := Hex(2, bs[0]) + " ", Cells(bs[1..]);
    CellIs(bs[0]);
    CellsReadBack(bs, 0);
    CellsReadBack(bs[1..], 0);
    assert Cells(bs) == cell + rest;
    if k == 0 {
      SliceBefore(cell, rest);
    } else {
      CellsAt(bs[1..], k - 1);
      SliceAfter(cell, rest, 3 * (k - 1), 3 * k);
    }
  }

  lemma {:induction false} BlanksAt(n: nat, k: nat)
    requires k < n
    ensures Blanks(n)[k] == ' '
  {
    if k > 0 {
      BlanksAt(n - 1, k - 1);
    }
  }

  // The pieces of a line are at their places.
  lemma ColumnsSplit(offset: string, cells: string, ascii: string)
    requires |offset| == 8 && |cells| == 48
    ensures var l := Columns(offset, cells, ascii);
            && |l| == 60 + |ascii| && l[..8] == offset && l[8..11] == " : " && l[11..59] == cells
            && l[59..59 + |ascii|] == ascii && l[59 + |ascii|] == '\n'
  {
  }

  lemma OffsetIs(offset: nat)
    requires offset < TWO32
    ensures var s := Hex(8, offset); ReadHex(s) == offset && forall k :: 0 <= k < 8 ==> IsHexDigit(s[k])
  {
    assert Pow16(8) == TWO32 by {
      assert Pow16(4) == 0x1_0000;
    }
    HexReadsBack(8, offset);
  }

  lemma CellsInLine(c: seq<Byte>, cells: string, k: nat)
    requires |c| <= 16 && cells == Cells(c) + Blanks((16 - |c|) * 3) && k < |c|
    ensures |cells| == 48 && CellShows(cells[3 * k..3 * k + 3], c[k])
  {
    CellsAt(c, k);
    assert cells[3 * k..3 * k + 3] == Cells(c)[3 * k..3 * k + 3];
  }

  lemma BlanksInLine(c: seq<Byte>, cells: string, k: nat)
    requires |c| <= 16 && cells == Cells(c) + Blanks((16 - |c|) * 3) && 3 * |c| <= k < 48
    ensures |cells| == 48 && cells[k] == ' '
  {
    CellsReadBack(c, 0);
    BlanksAt((16 - |c|) * 3, k - 3 * |c|);
  }

  /** Every line, character by character: the offset in eight hexadecimal digits, the two digits of
      each byte and blanks up to the 48th column, each byte as a character or a dot, a line feed. */
  lemma LineIsRight(offset: nat, c: seq<Byte>)
    requires |c| <= 16 && offset < TWO32
    ensures LineShows(LineOf(offset, c), offset, c)
  {
    var cells, l := Cells(c) + Blanks((16 - |c|) * 3), LineOf(offset, c);
    CellsReadBack(c, 0);
    ColumnsSplit(Hex(8, offset), cells, Ascii(c));
    OffsetIs(offset);
    forall k | 0 <= k < |c|
      ensures CellShows(l[11 + 3 * k..14 + 3 * k], c[k]) && CharShows(l[59 + k], c[k])
    {
      ByteInLine(c, cells, l, k);
    }
    forall k | 11 + 3 * |c| <= k < 59
      ensures l[k] == ' '
    {
      BlankInLine(c, cells, l, k);
    }
    assert forall k :: 0 <= k < 8 ==> l[k] == l[..8][k];
  }

  lemma ByteInLine(c: seq<Byte>, cells: string, l: string, k: nat)
    requires |c| <= 16 && cells == Cells(c) + Blanks((16 - |c|) * 3) && k < |c|
    requires |l| == 60 + |c| && l[11..59] == cells && l[59..59 + |c|] == Ascii(c)
    ensures CellShows(l[11 + 3 * k..14 + 3 * k], c[k]) && CharShows(l[59 + k], c[k])
  {
    CellsInLine(c, cells, k);
    SliceOfSlice(l, 11, 48, 3 * k, 3 * k + 3);
    AsciiAt(c, k);
    assert l[59..59 + |c|][k] == l[59 + k];
  }

  lemma BlankInLine(c: seq<Byte>, cells: string, l: string, k: nat)
    requires |c| <= 16 && cells == Cells(c) + Blanks((16 - |c|) * 3) && 11 + 3 * |c| <= k < 59
    requires |l| == 60 + |c| && l[11..59] == cells
    ensures l[k] == ' '
  {
    BlanksInLine(c, cells, k - 11);
    assert l[11..59][k - 11] == l[k];
  }

  // Line i of a dump stands at 76 i.
  predicate LineIn(text: string, i: nat, l: string) {
    76 * i + |l| <= |text| && text[76 * i..76 * i + |l|] == l
  }

  lemma {:induction false} LineAt(data: seq<Byte>, j: nat, i: nat)
    requires j <= i && 16 * i < |data| <= TWO32
    ensures LineIn(DumpFrom(data, j), i - j, Line(data, i))
    decreases i - j
  {
    LineColumns(data, j);
    if j == i {
      SliceBefore(Line(data, j), DumpFrom(data, j + 1));
    } else {
      LineAt(data, j + 1, i);
      LaterLine(Line(data, j), DumpFrom(data, j + 1), i - j - 1, Line(data, i));
    }
  }

  lemma LaterLine(first: string, rest: string, k: nat, l: string)
    requires |first| == 76 && LineIn(rest, k, l)
    ensures LineIn(first + rest, k + 1, l)
  {
    SliceAfter(first, rest, 76 * k, 76 * k + |l|);
  }

  // Line i of the text shows bytes 16 i to 16 i + 15 of the data.
  ghost predicate DumpShows(text: string, data: seq<Byte>, i: nat)
    requires 16 * i < |data|
  {
    var c := Chunk(data, i);
    76 * i + 60 + |c| <= |text| && LineShows(text[76 * i..76 * i + 60 + |c|], 16 * i, c)
  }

  /** A dump is its lines, each at its place and with its 16 bytes, and nothing else. */
  lemma DumpIsLines(data: seq<Byte>, i: nat)
    requires 16 * i < |data| <= TWO32
    ensures DumpShows(Dump(data), data, i)
  {
    LineAt(data, 0, i);
    LineIsRight(16 * i, Chunk(data, i));
  }

  lemma {:induction false} LineEndIs(text: string, p: nat, e: nat)
    requires p <= e < |text| && text[e] == '\n' && forall k :: p <= k < e ==> text[k] != '\n'
    ensures LineEnd(text, p) == e
    decreases e - p
  {
    if p < e {
      LineEndIs(text, p + 1, e);
    }
  }

  lemma ParseStep(l: string, rest: string, c: seq<Byte>)
    requires |l| >= 60 && ReadCells(l[11..59]) == c
    requires l[|l| - 1] == '\n' && forall k :: 59 <= k < |l| - 1 ==> l[k] != '\n'
    ensures ParseDump(l + rest) == c + ParseDump(rest)
  {
    var text := l + rest;
    LineEndIs(text, 59, |l| - 1);
    assert text[11..59] == l[11..59];
    assert text[|l|..] == rest;
  }

  lemma ChunkThenRest(data: seq<Byte>, i: nat)
    requires 16 * i < |data|
    ensures data[16 * i..] == Chunk(data, i) + if 16 * (i + 1) >= |data| then [] else data[16 * (i + 1)..]
  {
  }

  lemma {:induction false} DumpReadsBackFrom(data: seq<Byte>, i: nat)
    requires |data| <= TWO32
    ensures ParseDump(DumpFrom(data, i)) == if 16 * i >= |data| then [] else data[16 * i..]
    decreases |data| - 16 * i
  {
    if 16 * i < |data| {
      LineColumns(data, i);
      ParseStep(Line(data, i), DumpFrom(data, i + 1), Chunk(data, i));
      DumpReadsBackFrom(data, i + 1);
      ChunkThenRest(data, i);
    }
  }

  /** The dump of a packet can be read back: it shows every captured byte, once and in order. */
  lemma DumpReadsBack(data: seq<Byte>)
    requires |data| <= TWO32
    ensures ParseDump(Dump(data)) == data
  {
    DumpReadsBackFrom(data, 0);
    assert data[0..] == data;
  }

  // The length of the dump of n bytes.
  function DumpSize(n: nat): nat {
    60 * ((n + 15) / 16) + n
  }

  lemma {:induction false} DumpSizeFrom(data: seq<Byte>, i: nat)
    requires |data| <= TWO32 && 16 * i <= |data| + 15
    ensures |DumpFrom(data, i)| == 60 * ((|data| + 15) / 16 - i) + if 16 * i < |data| then |data| - 16 * i else 0
    decreases |data| - 16 * i
  {
    if 16 * i < |data| {
      LineColumns(data, i);
      DumpSizeFrom(data, i + 1);
    }
  }

  lemma DumpHasSize(data: seq<Byte>)
    requires |data| <= TWO32
    ensures |Dump(data)| == DumpSize(|data|)
  {
    DumpSizeFrom(data, 0);
  }

  function LineFeeds(s: string): nat {
    if s == "" then 0 else (if s[0] == '\n' then 1 else 0) + LineFeeds(s[1..])
  }

  lemma {:induction false} LineFeedsAppend(a: string, b: string)
    ensures LineFeeds(a + b) == LineFeeds(a) + LineFeeds(b)
  {
    if a == "" {
      assert a + b == b;
    } else {
      assert (a + b)[1..] == a[1..] + b;
      LineFeedsAppend(a[1..], b);
    }
  }

  lemma {:induction false} NoLineFeeds(s: string)
    requires forall k :: 0 <= k < |s| ==> s[k] != '\n'
    ensures LineFeeds(s) == 0
  {
    if s != "" {
      NoLineFeeds(s[1..]);
    }
  }

  lemma {:induction false} HexHasNoLineFeed(k: nat, n: nat)
    ensures forall j :: 0 <= j < k ==> Hex(k, n)[j] != '\n'
  {
    if k > 0 {
      HexHasNoLineFeed(k - 1, n / 16);
    }
  }

  lemma {:induction false} CellsHaveNoLineFeed(bs: seq<Byte>)
    ensures forall j :: 0 <= j < |Cells(bs)| ==> Cells(bs)[j] != '\n'
    decreases |bs|
  {
    if bs != [] {
      HexHasNoLineFeed(2, bs[0]);
      CellsHaveNoLineFeed(bs[1..]);
    }
  }

  lemma {:induction false} BlanksHaveNoLineFeed(n: nat)
    ensures forall j :: 0 <= j < n ==> Blanks(n)[j] != '\n'
  {
    if n > 0 {
      BlanksHaveNoLineFeed(n - 1);
    }
  }

  lemma OneLineFeed(data: seq<Byte>, i: nat)
    requires 16 * i < |data|
    ensures LineFeeds(Line(data, i)) == 1
  {
    var c := Chunk(data, i);
    var body := Hex(8, 16 * i) + " : " + (Cells(c) + Blanks((16 - |c|) * 3)) + Ascii(c);
    HexHasNoLineFeed(8, 16 * i);
    CellsHaveNoLineFeed(c);
    BlanksHaveNoLineFeed((16 - |c|) * 3);
    forall k | 0 <= k < |c|
      ensures Ascii(c)[k] != '\n'
    {
      AsciiAt(c, k);
    }
    NoLineFeeds(body);
    LineFeedsAppend(body, "\n");
    assert LineFeeds("\n") == 1 by {
      assert "\n"[1..] == "";
    }
  }

  lemma {:induction false} DumpLinesFrom(data: seq<Byte>, i: nat)
    requires 16 * i <= |data| + 15
    ensures LineFeeds(DumpFrom(data, i)) == (|data| + 15) / 16 - i
    decreases |data| - 16 * i
  {
    if 16 * i < |data| {
      OneLineFeed(data, i);
      DumpLinesFrom(data, i + 1);
      LineFeedsAppend(Line(data, i), DumpFrom(data, i + 1));
    }
  }

  /** A packet of n captured bytes is printed on ceil(n / 16) lines. */
  lemma DumpLines(data: seq<Byte>)
    ensures LineFeeds(Dump(data)) == (|data| + 15) / 16
  {
    DumpLinesFrom(data, 0);
  }

  // ---- The printing loops; a char pointer is an offset into the buffer ----

  method PrintCells(buf: seq<Byte>, pLine: nat, ulen: nat) returns (out: string)
    requires pLine + ulen <= |buf|
    ensures out == Cells(buf[pLine..pLine + ulen])
    ensures |out| == 3 * ulen && forall k :: 0 <= k < ulen ==> CellShows(out[3 * k..3 * k + 3], buf[pLine + k])
  {
    ghost var bs := buf[pLine..pLine + ulen];
    var pChar, j := pLine, 0;
    out := "";
    while j < ulen
      invariant j <= ulen && pChar == pLine + j
      invariant out + Cells(bs[j..]) == Cells(bs)
    {
      assert bs[j..][1..] == bs[j + 1..] && bs[j..][0] == buf[pChar];
      out := out + (Hex(2, buf[pChar]) + " ");
      pChar := pChar + 1;
      j := j + 1;
    }
    assert out + "" == out;
    CellsReadBack(bs, 0);
    forall k | 0 <= k < ulen
      ensures CellShows(out[3 * k..3 * k + 3], buf[pLine + k])
    {
      CellsAt(bs, k);
      assert bs[k] == buf[pLine + k];
    }
  }

  method PrintAscii(buf: seq<Byte>, pLine: nat, ulen: nat) returns (out: string)
    requires pLine + ulen <= |buf|
    ensures out == Ascii(buf[pLine..pLine + ulen])
    ensures |out| == ulen && forall k :: 0 <= k < ulen ==> CharShows(out[k], buf[pLine + k])
  {
    ghost var bs := buf[pLine..pLine + ulen];
    var pChar, j := pLine, 0;
    out := "";
    while j < ulen
      invariant j <= ulen && pChar == pLine + j
      invariant out + Ascii(bs[j..]) == Ascii(bs)
    {
      assert bs[j..][1..] == bs[j + 1..] && bs[j..][0] == buf[pChar];
      out := out + [Shown(buf[pChar])];
      j, pChar := j + 1, pChar + 1;
    }
    assert out + "" == out;
    forall k | 0 <= k < ulen
      ensures CharShows(out[k], buf[pLine + k])
    {
      AsciiAt(bs, k);
      assert bs[k] == buf[pLine + k];
    }
  }

  lemma PadIs(ulen: nat)
    requires ulen <= 16
    ensures Blanks((16 - ulen) * 3) == if ulen < 16 then Blanks((16 - ulen) * 3) else ""
  {
  }

  lemma LineIs(data: seq<Byte>, i: nat, c: seq<Byte>, pad: string)
    requires 16 * i < |data| && c == Chunk(data, i)
    requires pad == Blanks((16 - |c|) * 3)
    ensures Line(data, i) == Columns(Hex(8, 16 * i), Cells(c) + pad, Ascii(c))
  {
  }

  lemma SliceIsChunk(buf: seq<Byte>, base: nat, data: seq<Byte>, i: nat, pLine: nat, ulen: nat)
    requires base + |data| <= |buf| && data == buf[base..base + |data|]
    requires 16 * i < |data| && pLine == base + 16 * i && ulen == Min(16, |data| - 16 * i)
    ensures buf[pLine..pLine + ulen] == Chunk(data, i) && |Chunk(data, i)| == ulen
  {
    SliceOfSlice(buf, base, |data|, 16 * i, 16 * i + ulen);
  }

  method PrintLine(buf: seq<Byte>, base: nat, pLine: nat, ulen: nat, ghost data: seq<Byte>, ghost i: nat)
      returns (out: string)
    requires base + |data| <= |buf| && data == buf[base..base + |data|]
    requires 16 * i < |data| && pLine == base + 16 * i && ulen == Min(16, |data| - 16 * i)
    ensures out == Line(data, i)
  {
    var cells := PrintCells(buf, pLine, ulen);
    var ascii := PrintAscii(buf, pLine, ulen);
    var pad := if ulen < 16 then Blanks((16 - ulen) * 3) else "";
    SliceIsChunk(buf, base, data, i, pLine, ulen);
    PadIs(ulen);
    LineIs(data, i, Chunk(data, i), pad);
    out := Columns(Hex(8, pLine - base), cells + pad, ascii);
  }

  // The variables of the line loop before round i: data is what the record holds, from base on.
  ghost predicate LineState(buf: seq<Byte>, base: nat, data: seq<Byte>, i: nat, pChar: nat, tlen: nat, out: string) {
    && base + |data| <= |buf| < TWO32 - 15 && data == buf[base..base + |data|]
    && pChar == base + Min(16 * i, |data|) && tlen == |data| - Min(16 * i, |data|)
    && out + DumpFrom(data, i) == Dump(data)
  }

  lemma DumpStep(data: seq<Byte>, i: nat, out: string, line: string)
    requires 16 * i < |data| && line == Line(data, i) && out + DumpFrom(data, i) == Dump(data)
    ensures out + line + DumpFrom(data, i + 1) == Dump(data)
  {
    assert out + (line + DumpFrom(data, i + 1)) == out + line + DumpFrom(data, i + 1);
  }

  // One round of the line loop.
  method PrintRound(buf: seq<Byte>, base: nat, ghost data: seq<Byte>, ghost i: nat, pChar: nat, tlen: nat, out: string)
      returns (more: string, pNext: nat, left: nat)
    requires LineState(buf, base, data, i, pChar, tlen, out) && 16 * i < |data|
    ensures LineState(buf, base, data, i + 1, pNext, left, more)
  {
    var pLine, ulen := pChar, tlen;
    ulen := if ulen > 16 then 16 else ulen;
    left := U32(tlen - ulen);
    var line := PrintLine(buf, base, pLine, ulen, data, i);
    DumpStep(data, i, out, line);
    more, pNext := out + line, pLine + ulen;
  }

  lemma LineCount(caplen: nat, n: nat)
    requires caplen + 15 < TWO32 && n == U32(caplen + 15) / 16
    ensures caplen <= 16 * n < caplen + 16
  {
  }

  lemma FirstRound(buf: seq<Byte>, base: nat, data: seq<Byte>)
    requires base + |data| <= |buf| < TWO32 - 15 && data == buf[base..base + |data|]
    ensures LineState(buf, base, data, 0, base, |data|, "")
  {
    assert "" + Dump(data) == Dump(data);
  }

  lemma LastRound(buf: seq<Byte>, base: nat, data: seq<Byte>, i: nat, pChar: nat, tlen: nat, out: string)
    requires LineState(buf, base, data, i, pChar, tlen, out) && 16 * i >= |data|
    ensures out == Dump(data) && tlen == 0
  {
    assert out + "" == out;
  }

  /** The lines of one packet; the counter of bytes still to print, which is unsigned,
      reaches exactly 0. */
  method PrintLines(buf: seq<Byte>, base: nat, caplen: nat) returns (out: string, tlen: nat)
    requires base + caplen <= |buf| < TWO32 - 15
    ensures out == Dump(buf[base..base + caplen]) && tlen == 0 && |out| == DumpSize(caplen)
    ensures forall i :: 0 <= i && 16 * i < caplen ==> DumpShows(out, buf[base..base + caplen], i)
  {
    ghost var data := buf[base..base + caplen];
    tlen := caplen;
    var ulLines := U32(tlen + 15) / 16;
    LineCount(caplen, ulLines);
    FirstRound(buf, base, data);
    var pChar, i := base, 0;
    out := "";
    while i < ulLines
      invariant i <= ulLines && LineState(buf, base, data, i, pChar, tlen, out)
    {
      out, pChar, tlen := PrintRound(buf, base, data, i, pChar, tlen, out);
      i := i + 1;
    }
    LastRound(buf, base, data, i, pChar, tlen, out);
    DumpHasSize(data);
    forall j | 0 <= j && 16 * j < caplen
      ensures DumpShows(out, data, j)
    {
      DumpIsLines(data, j);
    }
  }
}
