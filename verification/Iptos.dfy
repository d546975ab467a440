/** iptos with its static buffers (Examples-pcap/iflist/iflist.c). */
module Iptos {
  import opened Text
  import opened DottedDecimal

  const IPTOSBUFFERS: nat := 12
  const TEXT_SIZE: nat := 3 * 4 + 3 + 1

  // The bytes of an address in memory, lowest first.
  function BytesOf(addr: nat): Ip
    requires addr < TWO32
  {
    LittleBytes(4, addr)
  }

  function AddrText(addr: nat): string
    requires addr < TWO32
  {
    FormatIp(BytesOf(addr))
  }

  // The text of the address: its bytes in decimal, the lowest first.
  function BytesText(addr: nat): string {
    Decimal(addr % 0x100) + "." + Decimal(addr / 0x100 % 0x100) + "." +
    Decimal(addr / 0x100 / 0x100 % 0x100) + "." + Decimal(addr / 0x100 / 0x100 / 0x100 % 0x100)
  }

  lemma BytesAre(addr: nat)
    requires addr < TWO32
    ensures var bs := BytesOf(addr);
            && bs[0] == addr % 0x100 && bs[1] == addr / 0x100 % 0x100
            && bs[2] == addr / 0x100 / 0x100 % 0x100 && bs[3] == addr / 0x100 / 0x100 / 0x100 % 0x100
  {
    assert LittleBytes(4, addr)[1..] == LittleBytes(3, addr / 0x100);
    assert LittleBytes(3, addr / 0x100)[1..] == LittleBytes(2, addr / 0x100 / 0x100);
    assert LittleBytes(2, addr / 0x100 / 0x100)[1..] == LittleBytes(1, addr / 0x100 / 0x100 / 0x100);
  }

  /** The text shows the bytes in memory order, the lowest first; scanning it and reading the
      bytes as a little-endian number gives the address back. */
  lemma TextIsAddress(addr: nat)
    requires addr < TWO32
    ensures AddrText(addr) == BytesText(addr) && Little(ParseIp(AddrText(addr))) == addr
  {
    FormatIs(BytesOf(addr));
    BytesAre(addr);
    FormatParses(BytesOf(addr));
    Powers();
    LittleReadsBack(4, addr);
  }

  /** The loopback address, whose lowest byte is 127 and whose highest is 1, is printed as people
      write it. */
  lemma Loopback(addr: nat)
    requires addr < TWO32 && addr % 0x100 == 127 && addr / 0x100 / 0x100 / 0x100 % 0x100 == 1
    requires addr / 0x100 % 0x100 == 0 && addr / 0x100 / 0x100 % 0x100 == 0
    ensures AddrText(addr) == "127.0.0.1"
  {
    TextIsAddress(addr);
    SmallDecimals(addr % 0x100, addr / 0x100 % 0x100, addr / 0x100 / 0x100 / 0x100 % 0x100);
    LoopbackText(Decimal(addr % 0x100), Decimal(addr / 0x100 % 0x100), Decimal(addr / 0x100 / 0x100 / 0x100 % 0x100));
  }

  lemma SmallDecimals(a: nat, b: nat, c: nat)
    requires a == 127 && b == 0 && c == 1
    ensures Decimal(a) == "127" && Decimal(b) == "0" && Decimal(c) == "1"
  {
    assert Decimal(a / 10) == Decimal(a / 100) + [Digit(2)];
  }

  lemma LoopbackText(a: string, b: string, c: string)
    requires a == "127" && b == "0" && c == "1"
    ensures a + "." + b + "." + b + "." + c == "127.0.0.1"
  {
  }

  /** Every text fits its 16 characters with the terminating NUL, and different addresses
      have different texts. */
  lemma TextsFit(addr: nat)
    requires addr < TWO32
    ensures 7 <= |AddrText(addr)| < TEXT_SIZE && NUL !in AddrText(addr)
  {
    DottedLength(BytesOf(addr));
  }

  lemma TextsDiffer(addr1: nat, addr2: nat)
    requires addr1 < TWO32 && addr2 < TWO32
    ensures AddrText(addr1) == AddrText(addr2) <==> addr1 == addr2
  {
    FormatInjective(BytesOf(addr1), BytesOf(addr2));
    Powers();
    LittleReadsBack(4, addr1);
    LittleReadsBack(4, addr2);
  }

  // The static variables: the buffer used last and the text of every buffer.
  datatype Buffers = Buffers(which: nat, texts: seq<string>)

  predicate Ok(b: Buffers) {
    b.which < IPTOSBUFFERS == |b.texts|
  }

  function NextSlot(which: nat): (w: nat)
    requires which < IPTOSBUFFERS
    ensures w < IPTOSBUFFERS
  {
    if which + 1 == IPTOSBUFFERS then 0 else which + 1
  }

  // One call; it returns the buffer number b'.which.
  function Call(b: Buffers, addr: nat): (b': Buffers)
    requires Ok(b) && addr < TWO32
    ensures Ok(b')
  {
    var w := NextSlot(b.which);
    Buffers(w, b.texts[w := AddrText(addr)])
  }

  predicate Addresses(addrs: seq<nat>) {
    forall k :: 0 <= k < |addrs| ==> addrs[k] < TWO32
  }

  // The state after a run of calls, the last address called last.
  function Calls(b: Buffers, addrs: seq<nat>): (b': Buffers)
    requires Ok(b) && Addresses(addrs)
    ensures Ok(b')
  {
    if addrs == [] then b else Call(Calls(b, addrs[..|addrs| - 1]), addrs[|addrs| - 1])
  }

  lemma NextIndex(x: nat)
    ensures (x + 1) % IPTOSBUFFERS
         == if x % IPTOSBUFFERS + 1 == IPTOSBUFFERS then 0 else x % IPTOSBUFFERS + 1
  {
  }

  lemma SameIndex(x: nat, j: nat, k: nat)
    requires j <= k
    ensures (x + j) % IPTOSBUFFERS == (x + k) % IPTOSBUFFERS <==> (k - j) % IPTOSBUFFERS == 0
  {
    var q := (x + k) / IPTOSBUFFERS - (x + j) / IPTOSBUFFERS;
    assert k - j == IPTOSBUFFERS * q + ((x + k) % IPTOSBUFFERS - (x + j) % IPTOSBUFFERS);
  }

  // The buffer in use after k calls.
  function SlotAfter(which: nat, k: nat): (w: nat)
    requires which < IPTOSBUFFERS
    ensures w < IPTOSBUFFERS
  {
    if k == 0 then which else NextSlot(SlotAfter(which, k - 1))
  }

  lemma {:induction false} CallsUseSlots(b: Buffers, addrs: seq<nat>)
    requires Ok(b) && Addresses(addrs)
    ensures Calls(b, addrs).which == SlotAfter(b.which, |addrs|)
    decreases |addrs|
  {
    if addrs != [] {
      CallsUseSlots(b, addrs[..|addrs| - 1]);
    }
  }

  lemma {:induction false} SlotIs(which: nat, k: nat)
    requires which < IPTOSBUFFERS
    ensures SlotAfter(which, k) == (which + k) % IPTOSBUFFERS
    decreases k
  {
    if k > 0 {
      SlotIs(which, k - 1);
      NextIndex(which + k - 1);
    }
  }

  /** In any run, two calls use the same buffer exactly when their numbers differ by a
      multiple of 12; so any 12 calls in a row return 12 different buffers. */
  lemma SameBuffer(which: nat, j: nat, k: nat)
    requires which < IPTOSBUFFERS && j <= k
    ensures SlotAfter(which, j) == SlotAfter(which, k) <==> (k - j) % IPTOSBUFFERS == 0
  {
    SlotIs(which, j);
    SlotIs(which, k);
    SameIndex(which, j, k);
  }

  /** The text a call returns stays in its buffer during the next 11 calls. */
  lemma {:induction false} TextStays(b: Buffers, addr: nat, later: seq<nat>)
    requires Ok(b) && addr < TWO32 && Addresses(later) && |later| < IPTOSBUFFERS
    ensures Calls(Call(b, addr), later).texts[Call(b, addr).which] == AddrText(addr)
    decreases |later|
  {
    if later != [] {
      TextStays(b, addr, later[..|later| - 1]);
      CallsUseSlots(Call(b, addr), later);
      SameBuffer(Call(b, addr).which, 0, |later|);
    }
  }

  /** And the twelfth call overwrites it. */
  lemma TextGoes(b: Buffers, addr: nat, later: seq<nat>)
    requires Ok(b) && addr < TWO32 && Addresses(later) && |later| == IPTOSBUFFERS
    ensures Calls(Call(b, addr), later).texts[Call(b, addr).which] == AddrText(later[IPTOSBUFFERS - 1])
  {
    CallsUseSlots(Call(b, addr), later);
    SameBuffer(Call(b, addr).which, 0, |later|);
  }

  class Converter {
    const output: array2<char>
    var which: nat
    ghost var texts: seq<string>

    // Row i of output, read as a C string, is texts[i].
    ghost predicate Valid()
      reads this, output
    {
      && output.Length0 == IPTOSBUFFERS && output.Length1 == TEXT_SIZE
      && which < IPTOSBUFFERS == |texts|
      && forall i :: 0 <= i < IPTOSBUFFERS ==> Holds(i, texts[i])
    }

    ghost predicate Holds(i: nat, text: string)
      requires i < output.Length0 && output.Length1 == TEXT_SIZE
      reads output
    {
      && |text| < TEXT_SIZE && NUL !in text && output[i, |text|] == NUL
      && forall k :: 0 <= k < |text| ==> output[i, k] == text[k]
    }

    // The static variables of a new process.
    constructor ()
      ensures Valid() && fresh(output) && which == 0
    {
      output := new char[IPTOSBUFFERS, TEXT_SIZE]((_, _) => NUL);
      which := 0;
      texts := seq(IPTOSBUFFERS, _ => "");
    }

    // The sprintf into the buffer in use.
    method Store(text: string)
      requires Valid() && |text| < TEXT_SIZE && NUL !in text
      modifies this`texts, output
      ensures Valid() && texts == old(texts)[which := text]
    {
      forall k | 0 <= k < |text| + 1 {
        output[which, k] := if k < |text| then text[k] else NUL;
      }
      texts := texts[which := text];
    }

    /** One call: the next buffer holds the text of the address, which reads back as the address,
        and the other buffers are as they were. */
    method Iptos(addr: nat) returns (slot: nat)
      requires Valid() && addr < TWO32
      modifies this`which, this`texts, output
      ensures Valid() && slot == which && Holds(slot, texts[slot]) && Little(ParseIp(texts[slot])) == addr
      ensures Buffers(which, texts) == Call(old(Buffers(which, texts)), addr)
    {
      var p := BytesOf(addr);
      which := if which + 1 == IPTOSBUFFERS then 0 else which + 1;
      var text := FormatIp(p);
      TextsFit(addr);
      TextIsAddress(addr);
      Store(text);
      return which;
    }
  }
}
