/** IPv4 addresses as dotted decimal text: what iptos and addrToStr print with
    "%d.%d.%d.%d", and what StrToaddr scans with "%hhu.%hhu.%hhu.%hhu". */
module DottedDecimal {
  import opened Text

  type Ip = s: seq<Byte> | |s| == 4 witness [0, 0, 0, 0]

  function Dotted(bs: seq<Byte>): string {
    if bs == [] then "" else Decimal(bs[0]) + if |bs| == 1 then "" else "." + Dotted(bs[1..])
  }

  function FormatIp(ip: Ip): string {
    Dotted(ip)
  }

  function DigitRun(s: string): (n: nat)
    ensures n <= |s|
  {
    if s == "" || !IsDigit(s[0]) then 0 else 1 + DigitRun(s[1..])
  }

  lemma {:induction false} DigitRunIs(s: string, n: nat)
    requires n <= |s| && AllDigits(s[..n]) && (n < |s| ==> !IsDigit(s[n]))
    ensures DigitRun(s) == n
  {
    if n > 0 {
      assert s[..n][0] == s[0];
      assert s[1..][..n - 1] == s[..n][1..];
      DigitRunIs(s[1..], n - 1);
    }
  }

  lemma {:induction false} DigitRunDigits(s: string)
    ensures AllDigits(s[..DigitRun(s)])
  {
    if s != "" && IsDigit(s[0]) {
      DigitRunDigits(s[1..]);
      assert forall k :: 0 < k < DigitRun(s) ==> s[..DigitRun(s)][k] == s[1..][..DigitRun(s[1..])][k - 1];
    }
  }

  // The value of the leading digits, as "%hhu" stores it.
  function ScanByte(s: string): Byte {
    DigitRunDigits(s);
    DecimalValue(s[..DigitRun(s)]) % 0x100
  }

  function Zeros(k: nat): (bs: seq<Byte>)
    ensures |bs| == k
  {
    if k == 0 then [] else [0] + Zeros(k - 1)
  }

  // Scanning stops at the first text that does not match; the bytes not stored stay 0.
  function ScanFields(s: string, k: nat): (bs: seq<Byte>)
    ensures |bs| == k
    decreases k
  {
    var n := DigitRun(s);
    if k == 0 || n == 0 then Zeros(k)
    else [ScanByte(s)] + if n < |s| && s[n] == '.' then ScanFields(s[n + 1..], k - 1) else Zeros(k - 1)
  }

  function ParseIp(s: string): Ip {
    ScanFields(s, 4)
  }

  // Scanning one number and what follows it.
  lemma ScanHead(s: string, d: string, tail: string, k: nat, v: Byte, rest: seq<Byte>)
    requires s == d + tail && d != "" && AllDigits(d) && DecimalValue(d) == v && k > 0
    requires tail == "" || tail[0] == '.'
    requires rest == if tail == "" then Zeros(k - 1) else ScanFields(tail[1..], k - 1)
    ensures ScanFields(s, k) == [v] + rest
  {
    assert s[..|d|] == d;
    DigitRunIs(s, |d|);
    if tail != "" {
      assert s[|d| + 1..] == tail[1..];
    }
  }

  lemma ScanLast(b: Byte)
    ensures ScanFields(Decimal(b), 1) == [b]
  {
    DecimalReadsBack(b);
    ScanHead(Decimal(b), Decimal(b), "", 1, b, []);
  }

  lemma ScanNext(b: Byte, t: string, rest: seq<Byte>)
    requires ScanFields(t, |rest|) == rest
    ensures ScanFields(Decimal(b) + ("." + t), |rest| + 1) == [b] + rest
  {
    DecimalReadsBack(b);
    assert ("." + t)[1..] == t;
    ScanHead(Decimal(b) + ("." + t), Decimal(b), "." + t, |rest| + 1, b, rest);
  }

  lemma OneScansBack(bs: seq<Byte>)
    requires |bs| == 1
    ensures ScanFields(Dotted(bs), |bs|) == bs
  {
    ScanLast(bs[0]);
    assert Dotted(bs) == Decimal(bs[0]) + "" == Decimal(bs[0]);
  }

  lemma MoreScanBack(bs: seq<Byte>)
    requires |bs| > 1 && ScanFields(Dotted(bs[1..]), |bs[1..]|) == bs[1..]
    ensures ScanFields(Dotted(bs), |bs|) == bs
  {
    ScanNext(bs[0], Dotted(bs[1..]), bs[1..]);
    DottedSplits(bs);
  }

  lemma DottedSplits(bs: seq<Byte>)
    requires |bs| > 1
    ensures Dotted(bs) == Decimal(bs[0]) + ("." + Dotted(bs[1..]))
  {
  }

  lemma {:induction false} DottedScansBack(bs: seq<Byte>)
    requires bs != []
    ensures ScanFields(Dotted(bs), |bs|) == bs
    decreases |bs|
  {
    if |bs| == 1 {
      OneScansBack(bs);
    } else {
      DottedScansBack(bs[1..]);
      MoreScanBack(bs);
    }
  }

  /** Scanning a printed address gives the address back; so different addresses always print
      differently. */
  lemma FormatParses(ip: Ip)
    ensures ParseIp(FormatIp(ip)) == ip
  {
    DottedScansBack(ip);
  }

  lemma FormatInjective(ip1: Ip, ip2: Ip)
    ensures FormatIp(ip1) == FormatIp(ip2) <==> ip1 == ip2
  {
    FormatParses(ip1);
    FormatParses(ip2);
  }

  /** An address is printed as its four bytes in decimal with dots between them. */
  lemma FormatIs(ip: Ip)
    ensures FormatIp(ip) == Decimal(ip[0]) + "." + Decimal(ip[1]) + "." + Decimal(ip[2]) + "." + Decimal(ip[3])
  {
    DottedSplits(ip);
    DottedSplits(ip[1..]);
    DottedSplits(ip[1..][1..]);
    assert ip[1..][1..] == ip[2..] && ip[2..][1..] == ip[3..] == [ip[3]];
    assert Dotted([ip[3]]) == Decimal(ip[3]) + "";
  }

  lemma {:induction false} DottedLength(bs: seq<Byte>)
    requires bs != []
    ensures 2 * |bs| - 1 <= |Dotted(bs)| <= 4 * |bs| - 1
    ensures forall k :: 0 <= k < |Dotted(bs)| ==> IsDigit(Dotted(bs)[k]) || Dotted(bs)[k] == '.'
    decreases |bs|
  {
    DecimalReadsBack(bs[0]);
    ByteLength(bs[0]);
    if |bs| > 1 {
      DottedLength(bs[1..]);
    }
  }
}
