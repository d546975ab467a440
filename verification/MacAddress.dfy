/** Hardware addresses as text: what addrToStr prints with "%02hhx:%02hhx:..." and what StrToaddr
    scans with "%hhx:%hhx:...". */
module MacAddress {
  import opened Text
  import opened Sequences
  import opened DottedDecimal

  type Mac = s: seq<Byte> | |s| == 6 witness [0, 0, 0, 0, 0, 0]

  function MacText(bs: seq<Byte>): string {
    if bs == [] then "" else Hex(2, bs[0]) + if |bs| == 1 then "" else ":" + MacText(bs[1..])
  }

  // The two hexadecimal digits of a byte.
  predicate PairShows(s: string, b: Byte) {
    |s| == 2 && IsHexDigit(s[0]) && IsHexDigit(s[1]) && HexValue(s[0]) * 16 + HexValue(s[1]) == b
  }

  // Two digits for each byte, and colons between them.
  predicate MacShows(s: string, bs: seq<Byte>) {
    && |s| == (if bs == [] then 0 else 3 * |bs| - 1)
    && (forall k :: 0 <= k < |bs| ==> PairShows(s[3 * k..3 * k + 2], bs[k]))
    && forall k :: 0 <= k < |bs| - 1 ==> s[3 * k + 2] == ':'
  }

  lemma PairIs(b: Byte)
    ensures PairShows(Hex(2, b), b)
  {
    assert Hex(2, b) == Hex(1, b / 16) + [HexDigit(b % 16)];
    assert Hex(1, b / 16) == Hex(0, b / 256) + [HexDigit(b / 16 % 16)];
  }

  // One more byte in front.
  lemma MacGrows(b: Byte, pair: string, rest: string, bs: seq<Byte>)
    requires PairShows(pair, b) && bs != [] && MacShows(rest, bs)
    ensures MacShows(pair + (":" + rest), [b] + bs)
  {
    var s, all := pair + (":" + rest), [b] + bs;
    forall k | 0 <= k < |all|
      ensures PairShows(s[3 * k..3 * k + 2], all[k])
    {
      if k == 0 {
        SliceBefore(pair, ":" + rest);
      } else {
        assert s == (pair + ":") + rest;
        SliceAfter(pair + ":", rest, 3 * (k - 1), 3 * (k - 1) + 2);
      }
    }
    forall k | 0 <= k < |all| - 1
      ensures s[3 * k + 2] == ':'
    {
      if k > 0 {
        assert rest[3 * (k - 1) + 2] == ':';
      }
    }
  }

  /** A hardware address is printed as two lower-case hexadecimal digits for each byte, in order,
      with colons between them. */
  lemma {:induction false} MacTextIs(bs: seq<Byte>)
    ensures MacShows(MacText(bs), bs)
    decreases |bs|
  {
    if bs != [] {
      PairIs(bs[0]);
      if |bs| == 1 {
        assert MacText(bs) == Hex(2, bs[0]) + "" == Hex(2, bs[0]);
      } else {
        MacTextIs(bs[1..]);
        MacGrows(bs[0], Hex(2, bs[0]), MacText(bs[1..]), bs[1..]);
        assert [bs[0]] + bs[1..] == bs;
      }
    }
  }

  // ---- Scanning ----

  predicate ScansHex(c: char) {
    IsHexDigit(c) || 'A' <= c <= 'F'
  }

  function HexRun(s: string): (n: nat)
    ensures n <= |s|
  {
    if s == "" || !ScansHex(s[0]) then 0 else 1 + HexRun(s[1..])
  }

  // Scanning stops at the first text that does not match; the bytes not stored stay 0.
  function ScanPairs(s: string, k: nat): (bs: seq<Byte>)
    ensures |bs| == k
    decreases k
  {
    var n := HexRun(s);
    if k == 0 || n == 0 then Zeros(k)
    else [ReadHex(s[..n]) % 0x100] + if n < |s| && s[n] == ':' then ScanPairs(s[n + 1..], k - 1) else Zeros(k - 1)
  }

  function ParseMac(s: string): Mac {
    ScanPairs(s, 6)
  }

  lemma PairRuns(pair: string, b: Byte, tail: string)
    requires PairShows(pair, b) && (tail == "" || tail[0] == ':')
    ensures HexRun(pair + tail) == 2 && (pair + tail)[..2] == pair && ReadHex(pair) % 0x100 == b
  {
    var s := pair + tail;
    assert HexRun(tail) == 0;
    assert s[1..] == [pair[1]] + tail && ([pair[1]] + tail)[1..] == tail;
    assert HexRun([pair[1]] + tail) == 1;
    PairValue(pair);
  }

  lemma PairValue(pair: string)
    requires |pair| == 2
    ensures ReadHex(pair) == HexValue(pair[0]) * 16 + HexValue(pair[1])
  {
    assert pair[..1] == [pair[0]] && [pair[0]][..0] == "";
    assert ReadHex([pair[0]]) == HexValue(pair[0]);
  }

  lemma ScanLastPair(pair: string, b: Byte)
    requires PairShows(pair, b)
    ensures ScanPairs(pair, 1) == [b]
  {
    PairRuns(pair, b, "");
    assert pair + "" == pair;
  }

  lemma ScanNextPair(pair: string, b: Byte, rest: string, bs: seq<Byte>)
    requires PairShows(pair, b) && ScanPairs(rest, |bs|) == bs
    ensures ScanPairs(pair + (":" + rest), |bs| + 1) == [b] + bs
  {
    PairRuns(pair, b, ":" + rest);
    assert (pair + (":" + rest))[3..] == rest;
  }

  lemma OnePairScansBack(bs: seq<Byte>)
    requires |bs| == 1
    ensures ScanPairs(MacText(bs), |bs|) == bs
  {
    PairIs(bs[0]);
    ScanLastPair(Hex(2, bs[0]), bs[0]);
    assert MacText(bs) == Hex(2, bs[0]) + "" == Hex(2, bs[0]);
  }

  lemma MorePairsScanBack(bs: seq<Byte>)
    requires |bs| > 1 && ScanPairs(MacText(bs[1..]), |bs[1..]|) == bs[1..]
    ensures ScanPairs(MacText(bs), |bs|) == bs
  {
    PairIs(bs[0]);
    ScanNextPair(Hex(2, bs[0]), bs[0], MacText(bs[1..]), bs[1..]);
    MacSplits(bs);
  }

  lemma MacSplits(bs: seq<Byte>)
    requires |bs| > 1
    ensures MacText(bs) == Hex(2, bs[0]) + (":" + MacText(bs[1..]))
  {
  }

  lemma {:induction false} PairsScanBack(bs: seq<Byte>)
    requires bs != []
    ensures ScanPairs(MacText(bs), |bs|) == bs
    decreases |bs|
  {
    if |bs| == 1 {
      OnePairScansBack(bs);
    } else {
      PairsScanBack(bs[1..]);
      MorePairsScanBack(bs);
    }
  }

  /** Scanning a printed hardware address gives it back. */
  lemma MacParses(mac: Mac)
    ensures ParseMac(MacText(mac)) == mac
  {
    PairsScanBack(mac);
  }
}
