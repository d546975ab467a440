/** The block of captured packets that the driver hands over, and PrintPackets' walk over it
    (Examples-remote/PacketDriver/TestPacketCapture/TestPacketCapture.c, Include/Packet32.h). */
module CaptureBuffer {
  import opened Options
  import opened Text
  import opened Sequences
  import opened HexDump

  // ---- Packet_WORDALIGN ----

  // The bitwise "and" of two numbers.
  function BitAnd(x: nat, y: nat): nat {
    if x == 0 then 0 else 2 * BitAnd(x / 2, y / 2) + (x % 2) * (y % 2)
  }

  // The complement of a 32-bit value.
  function Not32(x: nat): nat
    requires x < TWO32
  {
    TWO32 - 1 - x
  }

  const PACKET_ALIGNMENT: nat := 4

  function WordAlign(x: nat): nat
    requires x < TWO32
  {
    BitAnd(U32(x + (PACKET_ALIGNMENT - 1)), Not32(PACKET_ALIGNMENT - 1))
  }

  function Pow2(k: nat): nat {
    if k == 0 then 1 else 2 * Pow2(k - 1)
  }

  lemma {:induction false} AndOnes(x: nat, k: nat)
    requires x < Pow2(k)
    ensures BitAnd(x, Pow2(k) - 1) == x
    decreases k
  {
    if x > 0 {
      assert (Pow2(k) - 1) / 2 == Pow2(k - 1) - 1 && (Pow2(k) - 1) % 2 == 1;
      AndOnes(x / 2, k - 1);
    }
  }

  lemma Pow2Of30()
    ensures Pow2(30) == 0x4000_0000
  {
    assert Pow2(10) == 0x400;
    assert Pow2(20) == 0x10_0000;
  }

  lemma AndEven(x: nat, y: nat)
    ensures BitAnd(x, 2 * y) == 2 * BitAnd(x / 2, y)
  {
    assert 2 * y / 2 == y && 2 * y % 2 == 0;
    assert x % 2 * (2 * y % 2) == 0;
  }

  lemma ClearLowBits(y: nat)
    requires y < TWO32
    ensures BitAnd(y, Not32(3)) == y - y % 4
  {
    Pow2Of30();
    var ones := Pow2(30) - 1;
    AndEven(y, 2 * ones);
    AndEven(y / 2, ones);
    AndOnes(y / 2 / 2, 30);
  }

  lemma RoundsUp(x: nat)
    ensures RoundUp(x) % 4 == 0 && x <= RoundUp(x) <= x + 3 && RoundUp(x) == (x + 3) - (x + 3) % 4
  {
  }

  lemma RoundsUpLeast(x: nat, m: nat)
    requires x <= m && m % 4 == 0
    ensures RoundUp(x) <= m
  {
    assert m == 4 * (m / 4) && (x + 3) / 4 <= m / 4;
  }

  lemma WordAlignValue(x: nat)
    requires x < TWO32
    ensures WordAlign(x) == if x <= TWO32 - 4 then RoundUp(x) else 0
  {
    var y := U32(x + 3);
    ClearLowBits(y);
    assert WordAlign(x) == y - y % 4;
    if x <= TWO32 - 4 {
      RoundsUp(x);
    } else {
      assert y == x + 3 - TWO32;
    }
  }

  /** Up to 2^32 - 4 the macro yields the least multiple of 4 not below x; above, and only
      there, it wraps around to 0. */
  lemma WordAlignIsRoundUp(x: nat)
    requires x < TWO32
    ensures x <= WordAlign(x) <==> x <= TWO32 - 4
    ensures x <= TWO32 - 4 ==> WordAlign(x) == RoundUp(x) && RoundUp(x) % 4 == 0
    ensures x <= TWO32 - 4 ==> forall m :: x <= m && m % 4 == 0 ==> WordAlign(x) <= m
    ensures x > TWO32 - 4 ==> WordAlign(x) == 0
  {
    WordAlignValue(x);
    RoundsUp(x);
    forall m | x <= m && m % 4 == 0
      ensures RoundUp(x) <= m
    {
      RoundsUpLeast(x, m);
    }
  }

  function RoundUp(x: nat): nat {
    (x + 3) / 4 * 4
  }

  // struct bpf_hdr: a time stamp of two 32-bit words, bh_caplen, bh_datalen, bh_hdrlen.
  const HDR_FIELDS: nat := 18

  function Caplen(buf: seq<Byte>, off: nat): nat
    requires off + HDR_FIELDS <= |buf|
  {
    Little(buf[off + 8..off + 12])
  }

  function Datalen(buf: seq<Byte>, off: nat): nat
    requires off + HDR_FIELDS <= |buf|
  {
    Little(buf[off + 12..off + 16])
  }

  function Hdrlen(buf: seq<Byte>, off: nat): nat
    requires off + HDR_FIELDS <= |buf|
  {
    Little(buf[off + 16..off + 18])
  }

  // ---- What the walk finds ----

  datatype Capture = Capture(datalen: nat, data: seq<Byte>)

  // The record at off lies in the buffer and the walk moves on past it.
  predicate RecordFits(buf: seq<Byte>, off: nat) {
    && off + HDR_FIELDS <= |buf|
    && 0 < Hdrlen(buf, off) + Caplen(buf, off)
    && off + Hdrlen(buf, off) + Caplen(buf, off) <= |buf|
  }

  function Next(buf: seq<Byte>, off: nat): (next: nat)
    requires RecordFits(buf, off)
    ensures off < next && off + Hdrlen(buf, off) + Caplen(buf, off) <= next
  {
    RoundUp(off + Hdrlen(buf, off) + Caplen(buf, off))
  }

  function CaptureAt(buf: seq<Byte>, off: nat): Capture
    requires RecordFits(buf, off)
  {
    var base := off + Hdrlen(buf, off);
    Capture(Datalen(buf, off), buf[base..base + Caplen(buf, off)])
  }

  predicate WellFormed(buf: seq<Byte>, received: nat, off: nat)
    decreases received - off
  {
    off >= received || (RecordFits(buf, off) && WellFormed(buf, received, Next(buf, off)))
  }

  function Walk(buf: seq<Byte>, received: nat, off: nat): seq<Capture>
    requires WellFormed(buf, received, off)
    decreases received - off
  {
    if off >= received then [] else [CaptureAt(buf, off)] + Walk(buf, received, Next(buf, off))
  }

  // The offset at which the walk stops.
  function WalkEnd(buf: seq<Byte>, received: nat, off: nat): nat
    requires WellFormed(buf, received, off)
    decreases received - off
  {
    if off >= received then off else WalkEnd(buf, received, Next(buf, off))
  }

  // No record reaches past the bytes received.
  predicate WithinReceived(buf: seq<Byte>, received: nat, off: nat)
    requires WellFormed(buf, received, off)
    decreases received - off
  {
    off < received ==>
      off + Hdrlen(buf, off) + Caplen(buf, off) <= received && WithinReceived(buf, received, Next(buf, off))
  }

  /** If no record reaches past the received bytes, the walk stops at most 3 bytes past them. */
  lemma {:induction false} WalkEndsClose(buf: seq<Byte>, received: nat, off: nat)
    requires WellFormed(buf, received, off) && WithinReceived(buf, received, off) && off <= received + 3
    ensures received <= WalkEnd(buf, received, off) <= received + 3
    decreases received - off
  {
    if off < received {
      WalkEndsClose(buf, received, Next(buf, off));
    }
  }

  // ---- Laying out records ----

  datatype Record = Record(tstamp: seq<Byte>, datalen: nat, extra: seq<Byte>, data: seq<Byte>, pad: seq<Byte>)

  // The header is longer than its fields by extra; pad fills up to the next word.
  predicate ValidRecord(r: Record) {
    && |r.tstamp| == 8 && r.datalen < TWO32 && |r.data| < TWO32
    && HDR_FIELDS + |r.extra| < 0x1_0000
    && |r.pad| == RoundUp(HDR_FIELDS + |r.extra| + |r.data|) - (HDR_FIELDS + |r.extra| + |r.data|)
  }

  function Encode(r: Record): (bs: seq<Byte>)
    ensures |r.tstamp| == 8 ==> |bs| == HDR_FIELDS + |r.extra| + |r.data| + |r.pad|
  {
    r.tstamp + (LittleBytes(4, |r.data|) + (LittleBytes(4, r.datalen)
      + (LittleBytes(2, HDR_FIELDS + |r.extra|) + (r.extra + (r.data + r.pad)))))
  }

  predicate ValidRecords(rs: seq<Record>) {
    forall k :: 0 <= k < |rs| ==> ValidRecord(rs[k])
  }

  function Encodings(rs: seq<Record>): seq<seq<Byte>> {
    seq(|rs|, k requires 0 <= k < |rs| => Encode(rs[k]))
  }

  function Concat(bss: seq<seq<Byte>>): seq<Byte> {
    if bss == [] then [] else bss[0] + Concat(bss[1..])
  }

  function Block(rs: seq<Record>): seq<Byte> {
    Concat(Encodings(rs))
  }

  function Captures(rs: seq<Record>): seq<Capture> {
    if rs == [] then [] else [Capture(rs[0].datalen, rs[0].data)] + Captures(rs[1..])
  }

  // Bytes of the block that need not have been received: the padding of its last record.
  function LastPad(rs: seq<Record>): nat {
    if rs == [] then 0 else |rs[|rs| - 1].pad|
  }

  // What the walk reads at the start of an encoded record.
  ghost predicate ReadsAs(bs: seq<Byte>, r: Record) {
    && RecordFits(bs, 0) && CaptureAt(bs, 0) == Capture(r.datalen, r.data)
    && Hdrlen(bs, 0) == HDR_FIELDS + |r.extra| && Caplen(bs, 0) == |r.data|
    && |bs| == HDR_FIELDS + |r.extra| + |r.data| + |r.pad|
  }

  // The slices of a record made of these parts.
  lemma PartsOfRecord(t: seq<Byte>, caplen: seq<Byte>, datalen: seq<Byte>, hdrlen: seq<Byte>,
                      extra: seq<Byte>, data: seq<Byte>, pad: seq<Byte>)
    requires |t| == 8 && |caplen| == 4 && |datalen| == 4 && |hdrlen| == 2
    ensures var bs := t + (caplen + (datalen + (hdrlen + (extra + (data + pad)))));
            && bs[8..12] == caplen && bs[12..16] == datalen && bs[16..18] == hdrlen
            && bs[18 + |extra|..18 + |extra| + |data|] == data
  {
    var r4 := extra + (data + pad);
    var r3 := hdrlen + r4;
    var r2 := datalen + r3;
    var r1 := caplen + r2;
    SliceAfter(t, r1, 0, 4);
    SliceBefore(caplen, r2);
    SliceAfter(t, r1, 4, 8);
    SliceAfter(caplen, r2, 0, 4);
    SliceBefore(datalen, r3);
    SliceAfter(t, r1, 8, 10);
    SliceAfter(caplen, r2, 4, 6);
    SliceAfter(datalen, r3, 0, 2);
    SliceBefore(hdrlen, r4);
    var from, to := |extra|, |extra| + |data|;
    SliceAfter(t, r1, 10 + from, 10 + to);
    SliceAfter(caplen, r2, 6 + from, 6 + to);
    SliceAfter(datalen, r3, 2 + from, 2 + to);
    SliceAfter(hdrlen, r4, from, to);
    SliceAfter(extra, data + pad, 0, |data|);
    SliceBefore(data, pad);
  }

  lemma FieldsOfEncoding(r: Record)
    requires ValidRecord(r)
    ensures ReadsAs(Encode(r), r)
  {
    Powers();
    LittleReadsBack(4, |r.data|);
    LittleReadsBack(4, r.datalen);
    LittleReadsBack(2, HDR_FIELDS + |r.extra|);
    PartsOfRecord(r.tstamp, LittleBytes(4, |r.data|), LittleBytes(4, r.datalen), LittleBytes(2, HDR_FIELDS + |r.extra|),
                  r.extra, r.data, r.pad);
  }

  // A record that starts bs reads the same inside a buffer.
  lemma RecordMoves(buf: seq<Byte>, off: nat, bs: seq<Byte>)
    requires off + |bs| <= |buf| && buf[off..off + |bs|] == bs && RecordFits(bs, 0)
    ensures RecordFits(buf, off) && CaptureAt(buf, off) == CaptureAt(bs, 0)
    ensures Hdrlen(buf, off) == Hdrlen(bs, 0) && Caplen(buf, off) == Caplen(bs, 0)
  {
    SliceOfSlice(buf, off, |bs|, 8, 12);
    SliceOfSlice(buf, off, |bs|, 12, 16);
    SliceOfSlice(buf, off, |bs|, 16, 18);
    SliceOfSlice(buf, off, |bs|, Hdrlen(bs, 0), Hdrlen(bs, 0) + Caplen(bs, 0));
  }

  lemma RecordInBuffer(buf: seq<Byte>, off: nat, r: Record, bs: seq<Byte>)
    requires ValidRecord(r) && off % 4 == 0 && ReadsAs(bs, r)
    requires off + |bs| <= |buf| && buf[off..off + |bs|] == bs
    ensures RecordFits(buf, off) && CaptureAt(buf, off) == Capture(r.datalen, r.data)
    ensures Next(buf, off) == off + |bs| && |bs| % 4 == 0
    ensures off + Hdrlen(buf, off) + Caplen(buf, off) == off + |bs| - |r.pad|
  {
    RecordMoves(buf, off, bs);
    RoundsUp(HDR_FIELDS + |r.extra| + |r.data|);
  }

  function Size(r: Record): nat {
    HDR_FIELDS + |r.extra| + |r.data| + |r.pad|
  }

  function BlockSize(rs: seq<Record>): nat {
    if rs == [] then 0 else Size(rs[0]) + BlockSize(rs[1..])
  }

  // Each record reads as it should where the walk meets it.
  ghost predicate BlockAt(buf: seq<Byte>, off: nat, rs: seq<Record>)
    decreases |rs|
  {
    rs != [] ==>
      && RecordFits(buf, off) && CaptureAt(buf, off) == Capture(rs[0].datalen, rs[0].data)
      && off + Hdrlen(buf, off) + Caplen(buf, off) == off + Size(rs[0]) - |rs[0].pad|
      && Next(buf, off) == off + Size(rs[0])
      && BlockAt(buf, off + Size(rs[0]), rs[1..])
  }

  lemma BlockSplits(buf: seq<Byte>, off: nat, all: seq<Byte>, bs: seq<Byte>, rest: seq<Byte>)
    requires off + |all| <= |buf| && buf[off..off + |all|] == all && all == bs + rest
    ensures buf[off..off + |bs|] == bs
    ensures off + |bs| + |rest| <= |buf| && buf[off + |bs|..off + |bs| + |rest|] == rest
  {
    SliceOfSlice(buf, off, |all|, 0, |bs|);
    SliceOfSlice(buf, off, |all|, |bs|, |all|);
  }

  lemma HeadOfBlock(buf: seq<Byte>, off: nat, r: Record, bs: seq<Byte>, rest: seq<Byte>, all: seq<Byte>)
    requires ValidRecord(r) && ReadsAs(bs, r) && off % 4 == 0 && all == bs + rest
    requires off + |all| <= |buf| && buf[off..off + |all|] == all
    ensures RecordFits(buf, off) && CaptureAt(buf, off) == Capture(r.datalen, r.data)
    ensures off + Hdrlen(buf, off) + Caplen(buf, off) == off + Size(r) - |r.pad|
    ensures Next(buf, off) == off + Size(r) && Size(r) % 4 == 0 && |all| == Size(r) + |rest|
    ensures off + Size(r) + |rest| <= |buf| && buf[off + Size(r)..off + Size(r) + |rest|] == rest
  {
    BlockSplits(buf, off, all, bs, rest);
    RecordInBuffer(buf, off, r, bs);
  }

  // Texts that read as the records.
  ghost predicate ReadAs(bss: seq<seq<Byte>>, rs: seq<Record>) {
    |bss| == |rs| && forall k :: 0 <= k < |rs| ==> ReadsAs(bss[k], rs[k])
  }

  lemma ReadAsTail(bss: seq<seq<Byte>>, rs: seq<Record>)
    requires rs != [] && ReadAs(bss, rs) && ValidRecords(rs)
    ensures ReadsAs(bss[0], rs[0]) && ValidRecord(rs[0])
    ensures ReadAs(bss[1..], rs[1..]) && ValidRecords(rs[1..])
  {
    forall k | 0 <= k < |rs[1..]|
      ensures ReadsAs(bss[1..][k], rs[1..][k])
    {
      assert ReadsAs(bss[k + 1], rs[k + 1]);
    }
  }

  lemma {:induction false} TextsAreAt(buf: seq<Byte>, off: nat, bss: seq<seq<Byte>>, rs: seq<Record>)
    requires ReadAs(bss, rs) && ValidRecords(rs) && off % 4 == 0
    requires off + |Concat(bss)| <= |buf| && buf[off..off + |Concat(bss)|] == Concat(bss)
    ensures BlockAt(buf, off, rs) && |Concat(bss)| == BlockSize(rs)
    decreases |rs|
  {
    if rs != [] {
      ReadAsTail(bss, rs);
      HeadOfBlock(buf, off, rs[0], bss[0], Concat(bss[1..]), Concat(bss));
      TextsAreAt(buf, off + Size(rs[0]), bss[1..], rs[1..]);
      BlockGrows(buf, off, rs);
    }
  }

  lemma BlockGrows(buf: seq<Byte>, off: nat, rs: seq<Record>)
    requires rs != [] && RecordFits(buf, off) && CaptureAt(buf, off) == Capture(rs[0].datalen, rs[0].data)
    requires off + Hdrlen(buf, off) + Caplen(buf, off) == off + Size(rs[0]) - |rs[0].pad|
    requires Next(buf, off) == off + Size(rs[0]) && BlockAt(buf, off + Size(rs[0]), rs[1..])
    ensures BlockAt(buf, off, rs)
  {
  }

  lemma BlockIsAt(buf: seq<Byte>, off: nat, rs: seq<Record>)
    requires ValidRecords(rs) && off % 4 == 0
    requires off + |Block(rs)| <= |buf| && buf[off..off + |Block(rs)|] == Block(rs)
    ensures BlockAt(buf, off, rs) && |Block(rs)| == BlockSize(rs)
  {
    var bss := Encodings(rs);
    forall k | 0 <= k < |rs|
      ensures ReadsAs(bss[k], rs[k])
    {
      FieldsOfEncoding(rs[k]);
    }
    TextsAreAt(buf, off, bss, rs);
  }

  lemma {:induction false} WalkOfBlock(buf: seq<Byte>, received: nat, off: nat, rs: seq<Record>)
    requires ValidRecords(rs) && BlockAt(buf, off, rs)
    requires off + BlockSize(rs) - LastPad(rs) <= received <= off + BlockSize(rs)
    ensures WellFormed(buf, received, off) && WithinReceived(buf, received, off)
    ensures Walk(buf, received, off) == Captures(rs)
    decreases |rs|
  {
    if rs != [] {
      PadWithinBlock(rs[1..]);
      LastPadOfTail(rs);
      if |rs| > 1 {
        WalkOfBlock(buf, received, off + Size(rs[0]), rs[1..]);
      }
    }
  }

  lemma LastPadOfTail(rs: seq<Record>)
    requires rs != []
    ensures LastPad(rs) == if |rs| == 1 then |rs[0].pad| else LastPad(rs[1..])
    ensures |rs| == 1 ==> rs[1..] == []
  {
  }

  /** Any sequence of records laid out in the buffer at a word boundary is recovered exactly:
      the same captured bytes, in order, none skipped or repeated, whether or not the padding
      of the last record counts as received. */
  lemma WalkRecovers(buf: seq<Byte>, received: nat, off: nat, rs: seq<Record>)
    requires ValidRecords(rs) && off % 4 == 0 && off + |Block(rs)| <= |buf|
    requires buf[off..off + |Block(rs)|] == Block(rs)
    requires off + |Block(rs)| - LastPad(rs) <= received <= off + |Block(rs)|
    ensures WellFormed(buf, received, off) && WithinReceived(buf, received, off)
    ensures Walk(buf, received, off) == Captures(rs)
  {
    BlockIsAt(buf, off, rs);
    WalkOfBlock(buf, received, off, rs);
  }

  lemma {:induction false} PadWithinBlock(rs: seq<Record>)
    ensures LastPad(rs) <= BlockSize(rs) && (rs != [] ==> LastPad(rs) + HDR_FIELDS <= BlockSize(rs))
    decreases |rs|
  {
    if rs != [] {
      LastPadOfTail(rs);
      PadWithinBlock(rs[1..]);
    }
  }

  // ---- The report ----

  const TITLE: string := "Packet length, captured portion: "

  // The two numbers of the first line, printed with "%ld".
  function Lengths(c: Capture): string {
    SignedDecimal(Signed32(c.datalen)) + ", " + SignedDecimal(Signed32(|c.data|))
  }

  // What is printed for one record: the first line, the dump, a blank line.
  function Printed(title: string, c: Capture): string {
    title + Lengths(c) + "\n" + Dump(c.data) + "\n"
  }

  function Report(title: string, cs: seq<Capture>): string {
    if cs == [] then "" else Printed(title, cs[0]) + Report(title, cs[1..])
  }

  // ---- Reading a report back ----

  function CommaAt(s: string): (i: nat)
    ensures i <= |s|
  {
    if s == "" || s[0] == ',' then 0 else 1 + CommaAt(s[1..])
  }

  // The two numbers as 32-bit unsigned values.
  datatype Head = Head(datalen: nat, caplen: nat)

  // Only what "%ld" prints of a 32-bit value.
  function ReadLength(s: string): Option<nat> {
    var x := ReadSigned(s);
    if Signed32(x) == x && SignedDecimal(x) == s then Some(U32(x)) else None
  }

  function ReadLengths(s: string): Option<Head> {
    var i := CommaAt(s);
    if i + 2 > |s| || s[i..i + 2] != ", " then None else
      var a, b := ReadLength(s[..i]), ReadLength(s[i + 2..]);
      if a == None || b == None then None else Some(Head(a.value, b.value))
  }

  // The record whose first line has these lengths, and what follows it.
  function Assemble(head: Head, body: string): (r: Option<(Capture, string)>)
    ensures r.Some? ==> |r.value.1| < |body|
  {
    var size := DumpSize(head.caplen);
    if |body| <= size || body[size] != '\n' then None else
      Some((Capture(head.datalen, ParseDump(body[..size])), body[size + 1..]))
  }

  function AssembleIf(head: Option<Head>, body: string): (r: Option<(Capture, string)>)
    ensures r.Some? ==> |r.value.1| < |body|
  {
    if head == None then None else Assemble(head.value, body)
  }

  // The first record of a report, and the rest.
  function FirstOf(title: string, text: string): (r: Option<(Capture, string)>)
    ensures r.Some? ==> |r.value.1| < |text|
  {
    if !(title <= text) then None else
      var e := LineEnd(text, |title|);
      if e == |text| then None else AssembleIf(ReadLengths(text[|title|..e]), text[e + 1..])
  }

  function ParseReport(title: string, text: string): seq<Capture>
    decreases |text|
  {
    var first := FirstOf(title, text);
    if first == None then [] else [first.value.0] + ParseReport(title, first.value.1)
  }

  predicate Fits(c: Capture) {
    c.datalen < TWO32 && |c.data| < TWO32
  }

  lemma {:induction false} CommaIs(a: string, b: string)
    requires ',' !in a
    ensures CommaAt(a + ", " + b) == |a|
  {
    if a == "" {
      assert (a + ", " + b)[0] == ',';
    } else {
      assert (a + ", " + b)[1..] == a[1..] + ", " + b;
      CommaIs(a[1..], b);
    }
  }

  lemma LengthsReadBack(c: Capture)
    requires Fits(c)
    ensures ReadLengths(Lengths(c)) == Some(Head(c.datalen, |c.data|))
    ensures '\n' !in Lengths(c)
  {
    NumberReadsBack(c.datalen);
    NumberReadsBack(|c.data|);
    NumbersSplit(SignedDecimal(Signed32(c.datalen)), SignedDecimal(Signed32(|c.data|)), c.datalen, |c.data|);
  }

  lemma NumberReadsBack(n: nat)
    requires n < TWO32
    ensures var s := SignedDecimal(Signed32(n)); ReadLength(s) == Some(n) && ',' !in s && '\n' !in s
  {
    SignedDecimalReadsBack(Signed32(n));
    SignedReadsBack(n);
    SignedTwice(n);
  }

  lemma SignedTwice(n: nat)
    requires n < TWO32
    ensures Signed32(Signed32(n)) == Signed32(n)
  {
    SignedReadsBack(n);
  }

  lemma NumbersSplit(a: string, b: string, datalen: nat, caplen: nat)
    requires ',' !in a && '\n' !in a && '\n' !in b
    requires ReadLength(a) == Some(datalen) && ReadLength(b) == Some(caplen)
    ensures ReadLengths(a + ", " + b) == Some(Head(datalen, caplen))
    ensures '\n' !in a + ", " + b
  {
    CommaIs(a, b);
    var s := a + ", " + b;
    assert s[..|a|] == a && s[|a|..|a| + 2] == ", " && s[|a| + 2..] == b;
  }

  // The pieces of a report that starts with one record.
  lemma ReportSplits(title: string, lengths: string, dump: string, rest: string)
    requires '\n' !in lengths
    ensures var text := title + lengths + "\n" + dump + "\n" + rest;
            var e := |title| + |lengths|;
            && title <= text && LineEnd(text, |title|) == e < |text| && text[|title|..e] == lengths
            && text[e + 1..] == dump + "\n" + rest
  {
    var text := title + lengths + "\n" + dump + "\n" + rest;
    assert text[|title|..|title| + |lengths|] == lengths;
    forall k | |title| <= k < |title| + |lengths|
      ensures text[k] != '\n'
    {
      assert text[k] == lengths[k - |title|];
    }
    LineEndIs(text, |title|, |title| + |lengths|);
  }

  lemma BodySplits(dump: string, rest: string)
    ensures var s := dump + "\n" + rest; s[..|dump|] == dump && s[|dump|] == '\n' && s[|dump| + 1..] == rest
  {
  }

  lemma AssembleOne(head: Head, body: string, dump: string, rest: string, c: Capture)
    requires head == Head(c.datalen, |c.data|) && body == dump + "\n" + rest
    requires |dump| == DumpSize(|c.data|) && ParseDump(dump) == c.data
    ensures Assemble(head, body) == Some((c, rest))
  {
    BodySplits(dump, rest);
  }

  lemma ParseOne(title: string, lengths: string, dump: string, rest: string, head: Head, text: string)
    requires '\n' !in lengths && ReadLengths(lengths) == Some(head)
          && text == title + lengths + "\n" + dump + "\n" + rest
    ensures FirstOf(title, text) == Assemble(head, dump + "\n" + rest)
  {
    ReportSplits(title, lengths, dump, rest);
    FirstOfIs(title, text, |title| + |lengths|, lengths, head, dump + "\n" + rest);
  }

  lemma FirstOfIs(title: string, text: string, e: nat, lengths: string, head: Head, body: string)
    requires title <= text && LineEnd(text, |title|) == e < |text| && text[|title|..e] == lengths
    requires ReadLengths(lengths) == Some(head) && text[e + 1..] == body
    ensures FirstOf(title, text) == Assemble(head, body)
  {
  }

  lemma ParseFirst(title: string, c: Capture, rest: string)
    requires Fits(c)
    ensures FirstOf(title, Printed(title, c) + rest) == Some((c, rest))
  {
    LengthsReadBack(c);
    DumpHasSize(c.data);
    DumpReadsBack(c.data);
    AssembleOne(Head(c.datalen, |c.data|), Dump(c.data) + "\n" + rest, Dump(c.data), rest, c);
    ParseOne(title, Lengths(c), Dump(c.data), rest, Head(c.datalen, |c.data|), Printed(title, c) + rest);
  }

  lemma ParseRest(title: string, c: Capture, rest: string)
    requires Fits(c)
    ensures ParseReport(title, Printed(title, c) + rest) == [c] + ParseReport(title, rest)
  {
    ParseFirst(title, c, rest);
  }

  lemma ReportOfMore(title: string, c: Capture, cs: seq<Capture>)
    requires Fits(c) && ParseReport(title, Report(title, cs)) == cs
    ensures ParseReport(title, Report(title, [c] + cs)) == [c] + cs
  {
    ParseRest(title, c, Report(title, cs));
    assert ([c] + cs)[1..] == cs;
  }

  lemma ReportOfNone(title: string)
    requires title != ""
    ensures ParseReport(title, Report(title, [])) == []
  {
  }

  /** The report of a walk can be read back, byte for byte: the lengths and the captured bytes of
      every record, in order. */
  lemma {:induction false} ReportReadsBack(title: string, cs: seq<Capture>)
    requires title != "" && forall k :: 0 <= k < |cs| ==> Fits(cs[k])
    ensures ParseReport(title, Report(title, cs)) == cs
    decreases |cs|
  {
    if cs == [] {
      ReportOfNone(title);
    } else {
      ReportReadsBack(title, cs[1..]);
      ReportOfMore(title, cs[0], cs[1..]);
      assert [cs[0]] + cs[1..] == cs;
    }
  }

  lemma {:induction false} ReportSnoc(title: string, cs: seq<Capture>, c: Capture)
    ensures Report(title, cs + [c]) == Report(title, cs) + Printed(title, c)
    decreases |cs|
  {
    if cs == [] {
      assert [] + [c] == [c] && [c][1..] == [];
      assert Report(title, [c]) == Printed(title, c) + "";
    } else {
      assert (cs + [c])[1..] == cs[1..] + [c];
      ReportSnoc(title, cs[1..], c);
    }
  }

  lemma FieldBounds(buf: seq<Byte>, off: nat)
    requires off + HDR_FIELDS <= |buf|
    ensures Caplen(buf, off) < TWO32 && Datalen(buf, off) < TWO32 && Hdrlen(buf, off) < 0x1_0000
  {
    Powers();
    LittleBound(buf[off + 8..off + 12]);
    LittleBound(buf[off + 12..off + 16]);
    LittleBound(buf[off + 16..off + 18]);
  }

  // The offset of the next record, in 32-bit arithmetic.
  method Advance(buf: seq<Byte>, start: nat) returns (base: nat, off: nat)
    requires |buf| < TWO32 - 15 && RecordFits(buf, start)
    ensures base == start + Hdrlen(buf, start) && off == Next(buf, start)
  {
    FieldBounds(buf, start);
    off := U32(start + Hdrlen(buf, start));
    base := off;
    WordAlignIsRoundUp(U32(off + Caplen(buf, start)));
    off := WordAlign(U32(off + Caplen(buf, start)));
  }

  lemma PrintedIs(title: string, data: seq<Byte>, datalen: nat, caplen: nat, lines: string)
    requires caplen == |data| && lines == Dump(data)
    ensures Printed(title, Capture(datalen, data)) ==
              title + (SignedDecimal(Signed32(datalen)) + ", " + SignedDecimal(Signed32(caplen))) + "\n" + lines + "\n"
  {
  }

  // The first line, the dump and the blank line of a record.
  method PrintText(buf: seq<Byte>, base: nat, tlen1: nat, tlen: nat, title: string) returns (text: string)
    requires base + tlen <= |buf| < TWO32 - 15
    ensures text == Printed(title, Capture(tlen1, buf[base..base + tlen]))
  {
    var lengths := SignedDecimal(Signed32(tlen1)) + ", " + SignedDecimal(Signed32(tlen));
    var lines, left := PrintLines(buf, base, tlen);
    PrintedIs(title, buf[base..base + tlen], tlen1, tlen, lines);
    text := title + lengths + "\n" + lines + "\n";
  }

  // One record: its text, and the offset of the next.
  method PrintRecord(buf: seq<Byte>, start: nat, title: string) returns (text: string, off: nat)
    requires |buf| < TWO32 - 15 && RecordFits(buf, start)
    ensures text == Printed(title, CaptureAt(buf, start)) && off == Next(buf, start)
  {
    var tlen1, tlen := Datalen(buf, start), Caplen(buf, start);
    var base;
    base, off := Advance(buf, start);
    text := PrintText(buf, base, tlen1, tlen, title);
  }

  // The offsets at which the walk meets records, followed by the one at which it stops.
  ghost predicate Route(buf: seq<Byte>, received: nat, offs: seq<nat>, all: seq<Capture>) {
    && |offs| == |all| + 1
    && (forall k :: 0 <= k < |all| ==> offs[k] < received)
    && offs[|all|] >= received
    && forall k :: 0 <= k < |all| ==> RouteStep(buf, offs, all, k)
  }

  ghost predicate RouteStep(buf: seq<Byte>, offs: seq<nat>, all: seq<Capture>, k: nat)
    requires k < |all| == |offs| - 1
  {
    RecordFits(buf, offs[k]) && offs[k + 1] == Next(buf, offs[k]) && all[k] == CaptureAt(buf, offs[k])
  }

  lemma {:induction false} WalkRoute(buf: seq<Byte>, received: nat, off: nat) returns (offs: seq<nat>)
    requires WellFormed(buf, received, off)
    ensures Route(buf, received, offs, Walk(buf, received, off)) && offs[0] == off
    decreases received - off
  {
    if off >= received {
      offs := [off];
    } else {
      var rest := WalkRoute(buf, received, Next(buf, off));
      offs := [off] + rest;
      var all, tail := Walk(buf, received, off), Walk(buf, received, Next(buf, off));
      forall k | 0 <= k < |all|
        ensures RouteStep(buf, offs, all, k)
      {
        if k > 0 {
          assert RouteStep(buf, rest, tail, k - 1);
          assert all[k] == tail[k - 1];
        }
      }
    }
  }

  lemma RouteFits(buf: seq<Byte>, offs: seq<nat>, all: seq<Capture>, k: nat)
    requires k < |all| == |offs| - 1 && RouteStep(buf, offs, all, k)
    ensures Fits(all[k])
  {
    FieldBounds(buf, offs[k]);
  }

  // texts[k] is what is printed once k records are.
  ghost predicate TextStep(title: string, texts: seq<string>, all: seq<Capture>, k: nat)
    requires k < |all| == |texts| - 1
  {
    texts[k + 1] == texts[k] + Printed(title, all[k])
  }

  ghost predicate Texts(title: string, texts: seq<string>, all: seq<Capture>) {
    && |texts| == |all| + 1 && texts[0] == ""
    && forall k :: 0 <= k < |all| ==> TextStep(title, texts, all, k)
  }

  lemma {:induction false} TextIsReport(title: string, texts: seq<string>, all: seq<Capture>, n: nat)
    requires Texts(title, texts, all) && n <= |all|
    ensures texts[n] == Report(title, all[..n])
    decreases n
  {
    if n == 0 {
      assert all[..0] == [];
    } else {
      TextIsReport(title, texts, all, n - 1);
      TextGrows(title, texts, all, n - 1);
    }
  }

  lemma PrefixGrows<T>(s: seq<T>, k: nat)
    requires k < |s|
    ensures s[..k + 1] == s[..k] + [s[k]]
  {
  }

  lemma TextGrows(title: string, texts: seq<string>, all: seq<Capture>, k: nat)
    requires k < |all| == |texts| - 1 && TextStep(title, texts, all, k) && texts[k] == Report(title, all[..k])
    ensures texts[k + 1] == Report(title, all[..k + 1])
  {
    ReportSnoc(title, all[..k], all[k]);
    PrefixGrows(all, k);
  }

  lemma {:induction false} TextsExist(title: string, all: seq<Capture>) returns (texts: seq<string>)
    ensures Texts(title, texts, all)
    decreases |all|
  {
    if all == [] {
      texts := [""];
    } else {
      var n := |all| - 1;
      var before := TextsExist(title, all[..n]);
      texts := before + [before[n] + Printed(title, all[n])];
      forall k | 0 <= k < |all|
        ensures TextStep(title, texts, all, k)
      {
        if k < n {
          TextStepStays(title, before, texts, all, k);
        } else {
          TextStepNew(title, before[n], texts, all);
        }
      }
    }
  }

  lemma TextStepNew(title: string, last: string, texts: seq<string>, all: seq<Capture>)
    requires |all| > 0 && |texts| == |all| + 1 && texts[|all| - 1] == last
    requires texts[|all|] == last + Printed(title, all[|all| - 1])
    ensures TextStep(title, texts, all, |all| - 1)
  {
  }

  lemma TextStepStays(title: string, before: seq<string>, texts: seq<string>, all: seq<Capture>, k: nat)
    requires k < |all| - 1 == |before| - 1 == |texts| - 2 && before == texts[..|before|]
    requires TextStep(title, before, all[..|all| - 1], k)
    ensures TextStep(title, texts, all, k)
  {
    assert before[k] == texts[k] && before[k + 1] == texts[k + 1] && all[..|all| - 1][k] == all[k];
  }

  // One round of the walk, the record number n.
  method PrintNext(buf: seq<Byte>, ghost received: nat, title: string, start: nat, out: string,
                   ghost offs: seq<nat>, ghost all: seq<Capture>, ghost texts: seq<string>, ghost n: nat)
      returns (more: string, off: nat)
    requires |buf| < TWO32 - 15 && Route(buf, received, offs, all) && Texts(title, texts, all)
    requires n < |all| && start == offs[n] && out == texts[n]
    ensures off == offs[n + 1] && more == texts[n + 1]
  {
    assert RouteStep(buf, offs, all, n) && TextStep(title, texts, all, n);
    var text;
    text, off := PrintRecord(buf, start, title);
    more := out + text;
  }

  // PrintPackets, with the text that starts each record as a parameter.
  method PrintWith(buf: seq<Byte>, received: nat, kbhit: nat -> bool, title: string,
                   ghost offs: seq<nat>, ghost all: seq<Capture>, ghost texts: seq<string>)
      returns (out: string, n: nat)
    requires |buf| < TWO32 - 15 && Route(buf, received, offs, all) && offs[0] == 0 && Texts(title, texts, all)
    ensures n <= |all| && out == texts[n]
    ensures (forall k :: 0 <= k < n ==> !kbhit(k)) && (n < |all| ==> kbhit(n))
  {
    var off: nat := 0;
    out, n := "", 0;
    while off < received && !kbhit(n)
      invariant n <= |all| && off == offs[n] && out == texts[n]
      invariant forall k :: 0 <= k < n ==> !kbhit(k)
      decreases |all| - n
    {
      assert n < |all|;
      out, off := PrintNext(buf, received, title, off, out, offs, all, texts, n);
      n := n + 1;
    }
  }

  // The report of the first n records of a walk reads back as these.
  lemma PrefixReadsBack(buf: seq<Byte>, received: nat, title: string, n: nat)
    requires WellFormed(buf, received, 0) && n <= |Walk(buf, received, 0)| && title != ""
    ensures ParseReport(title, Report(title, Walk(buf, received, 0)[..n])) == Walk(buf, received, 0)[..n]
  {
    var all := Walk(buf, received, 0);
    var offs := WalkRoute(buf, received, 0);
    forall k | 0 <= k < n
      ensures Fits(all[..n][k])
    {
      RouteFits(buf, offs, all, k);
    }
    ReportReadsBack(title, all[..n]);
  }

  /** PrintPackets on a block whose records lie in the buffer: it prints the report of the first
      n records, with no offset wrapping around, where n counts the polls that find no key pressed
      before one that does; and the text it prints reads back as exactly these records. */
  method PrintPackets(buf: seq<Byte>, received: nat, kbhit: nat -> bool) returns (out: string, n: nat)
    requires |buf| < TWO32 - 15 && WellFormed(buf, received, 0)
    ensures n <= |Walk(buf, received, 0)| && out == Report(TITLE, Walk(buf, received, 0)[..n])
    ensures ParseReport(TITLE, out) == Walk(buf, received, 0)[..n]
    ensures (forall k :: 0 <= k < n ==> !kbhit(k)) && (n < |Walk(buf, received, 0)| ==> kbhit(n))
  {
    ghost var all := Walk(buf, received, 0);
    ghost var offs := WalkRoute(buf, received, 0);
    ghost var texts := TextsExist(TITLE, all);
    out, n := PrintWith(buf, received, kbhit, TITLE, offs, all, texts);
    TextIsReport(TITLE, texts, all, n);
    PrefixReadsBack(buf, received, TITLE, n);
  }
}
