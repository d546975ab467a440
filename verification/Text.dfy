/** The printf conversions the programs use, and reading their output back. */
module Text {
  type Byte = x: int | 0 <= x < 0x100

  const TWO32: nat := 0x1_0000_0000

  // Conversion to a 32-bit unsigned type.
  function U32(x: int): (r: nat)
    ensures r < TWO32
    ensures 0 <= x < TWO32 ==> r == x
  {
    if 0 <= x < TWO32 then x else x % TWO32
  }

  // Adding a multiple of 2^32 changes nothing.
  lemma U32Shift(x: int, q: int)
    ensures U32(x + TWO32 * q) == U32(x)
  {
    assert (x + TWO32 * q) % TWO32 == x % TWO32;
  }

  // Conversion to a 32-bit signed type; also an unsigned value printed with "%ld".
  function Signed32(x: int): int {
    var u := U32(x); if u < TWO32 / 2 then u else u - TWO32
  }

  // What the conversion adds, and its range.
  lemma Signed32Wraps(x: int) returns (q: int)
    ensures Signed32(x) == x + TWO32 * q && -(TWO32 / 2) <= Signed32(x) < TWO32 / 2
  {
    q := -(x / TWO32) - if U32(x) < TWO32 / 2 then 0 else 1;
    assert U32(x) == x - x / TWO32 * TWO32;
  }

  lemma SignedReadsBack(x: nat)
    requires x < TWO32
    ensures U32(Signed32(x)) == x
  {
    if x >= TWO32 / 2 {
      assert (x - TWO32) % TWO32 == x;
    }
  }

  const TWO64: nat := 0x1_0000_0000_0000_0000

  // Conversion to a 64-bit signed type.
  function Signed64(x: int): int {
    var u := x % TWO64; if u < TWO64 / 2 then u else u - TWO64
  }

  lemma Signed64Wraps(x: int) returns (q: int)
    ensures Signed64(x) == x + TWO64 * q && -(TWO64 / 2) <= Signed64(x) < TWO64 / 2
    ensures -(TWO64 / 2) <= x < TWO64 / 2 <==> q == 0
  {
    q := -(x / TWO64) - if x % TWO64 < TWO64 / 2 then 0 else 1;
    assert x % TWO64 == x - x / TWO64 * TWO64;
  }

  lemma Signed64Shift(x: int, q: int)
    ensures Signed64(x + TWO64 * q) == Signed64(x)
  {
    assert (x + TWO64 * q) % TWO64 == x % TWO64;
  }

  // ---- Decimal numbers ----

  const NUL: char := '\0'

  function Digit(d: nat): char
    requires d < 10
  {
    '0' + d as char
  }

  predicate IsDigit(c: char) {
    '0' <= c <= '9'
  }

  // "%d" of a number that is not negative.
  function Decimal(n: nat): (s: string)
    ensures |s| > 0
  {
    if n < 10 then [Digit(n)] else Decimal(n / 10) + [Digit(n % 10)]
  }

  predicate AllDigits(s: string) {
    forall k :: 0 <= k < |s| ==> IsDigit(s[k])
  }

  function DecimalValue(s: string): nat
    requires AllDigits(s)
  {
    if s == "" then 0 else DecimalValue(s[..|s| - 1]) * 10 + (s[|s| - 1] as int - '0' as int)
  }

  // The digits of n, and no zero in front of them.
  ghost predicate IsDecimal(s: string, n: nat) {
    s != "" && AllDigits(s) && DecimalValue(s) == n && (s[0] == '0' ==> s == "0")
  }

  lemma {:induction false} DecimalReadsBack(n: nat)
    ensures IsDecimal(Decimal(n), n)
  {
    var s := Decimal(n);
    if n < 10 {
      assert s[..0] == "";
    } else {
      DecimalReadsBack(n / 10);
      assert s[..|s| - 1] == Decimal(n / 10);
      NoLeadingZero(Decimal(n / 10), n / 10);
    }
  }

  lemma NoLeadingZero(s: string, n: nat)
    requires IsDecimal(s, n) && n > 0
    ensures s[0] != '0'
  {
    assert "0"[..0] == "";
    assert DecimalValue("0") == 0;
  }

  lemma ByteLength(b: Byte)
    ensures |Decimal(b)| <= 3
  {
    assert |Decimal(b / 100)| == 1;
  }

  // "%d" of any number.
  function SignedDecimal(x: int): (s: string)
    ensures |s| > 0
  {
    if x < 0 then "-" + Decimal(-x) else Decimal(x)
  }

  function Unsigned(s: string): nat {
    if AllDigits(s) then DecimalValue(s) else 0
  }

  function ReadSigned(s: string): int {
    if s != "" && s[0] == '-' then 0 - Unsigned(s[1..]) else Unsigned(s)
  }

  lemma SignedDecimalReadsBack(x: int)
    ensures ReadSigned(SignedDecimal(x)) == x
    ensures var s := SignedDecimal(x); if x < 0 then s[0] == '-' && IsDecimal(s[1..], -x) else IsDecimal(s, x)
    ensures forall k :: 0 <= k < |SignedDecimal(x)| ==> SignedDecimal(x)[k] == '-' || IsDigit(SignedDecimal(x)[k])
  {
    var d := Decimal(if x < 0 then -x else x);
    DecimalReadsBack(if x < 0 then -x else x);
    assert ("-" + d)[1..] == d;
    assert IsDigit(d[0]);
  }

  // ---- "%0kx" of a value below 16^k ----

  function HexDigit(d: nat): char
    requires d < 16
  {
    if d < 10 then '0' + d as char else 'a' + (d - 10) as char
  }

  function HexValue(c: char): nat {
    if '0' <= c <= '9' then c as nat - '0' as nat
    else if 'a' <= c <= 'f' then c as nat - 'a' as nat + 10
    else if 'A' <= c <= 'F' then c as nat - 'A' as nat + 10
    else 0
  }

  function Hex(k: nat, n: nat): (s: string)
    ensures |s| == k
  {
    if k == 0 then "" else Hex(k - 1, n / 16) + [HexDigit(n % 16)]
  }

  function ReadHex(s: string): nat {
    if s == "" then 0 else ReadHex(s[..|s| - 1]) * 16 + HexValue(s[|s| - 1])
  }

  function Pow16(k: nat): nat {
    if k == 0 then 1 else 16 * Pow16(k - 1)
  }

  predicate IsHexDigit(c: char) {
    '0' <= c <= '9' || 'a' <= c <= 'f'
  }

  lemma {:induction false} HexReadsBack(k: nat, n: nat)
    requires n < Pow16(k)
    ensures ReadHex(Hex(k, n)) == n
    ensures forall j :: 0 <= j < k ==> IsHexDigit(Hex(k, n)[j])
    decreases k
  {
    if k > 0 {
      HexReadsBack(k - 1, n / 16);
      assert Hex(k, n)[..k - 1] == Hex(k - 1, n / 16);
    }
  }

  // ---- Little-endian numbers ----

  function Little(bs: seq<Byte>): nat {
    if bs == [] then 0 else bs[0] + 0x100 * Little(bs[1..])
  }

  function LittleBytes(n: nat, v: nat): (bs: seq<Byte>)
    ensures |bs| == n
  {
    if n == 0 then [] else [v % 0x100] + LittleBytes(n - 1, v / 0x100)
  }

  function Pow256(n: nat): nat {
    if n == 0 then 1 else 0x100 * Pow256(n - 1)
  }

  lemma {:induction false} LittleReadsBack(n: nat, v: nat)
    requires v < Pow256(n)
    ensures Little(LittleBytes(n, v)) == v
    decreases n
  {
    if n > 0 {
      LittleReadsBack(n - 1, v / 0x100);
      assert LittleBytes(n, v)[1..] == LittleBytes(n - 1, v / 0x100);
    }
  }

  lemma Powers()
    ensures Pow256(2) == 0x1_0000 && Pow256(4) == TWO32
  {
    assert Pow256(2) == 0x100 * Pow256(1);
  }

  lemma {:induction false} LittleBound(bs: seq<Byte>)
    ensures Little(bs) < Pow256(|bs|)
  {
    if bs != [] {
      LittleBound(bs[1..]);
    }
  }
}
