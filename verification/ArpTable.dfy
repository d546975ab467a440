/** The ARP table and the operations on it (ARP/ARPLayer.cpp). */
module ArpTable {
  import opened Text
  import opened DottedDecimal
  import opened MacAddress
  import opened Sequences

  const INCOMPLETE: nat := 0  // FALSE
  const COMPLETE: nat := 1    // TRUE
  const ARP_TIME_OUT: nat := 2
  const COMPLETE_SPAN: int := 600
  const INCOMPLETE_SPAN: int := 180

  // ARP_NODE; span is the time of its last refresh, in seconds.
  datatype Node = Node(ip: Ip, mac: Mac, status: nat, span: int)

  function Ips(table: seq<Node>): seq<Ip> {
    seq(|table|, k requires 0 <= k < |table| => table[k].ip)
  }

  // inCache: the first entry with the address, or -1.
  function InCache(table: seq<Node>, ip: Ip): (i: int)
    ensures -1 <= i < |table|
  {
    IndexOf(Ips(table), ip)
  }

  lemma InCacheIsFirst(table: seq<Node>, ip: Ip)
    ensures var i := InCache(table, ip);
            && (i == -1 <==> forall k :: 0 <= k < |table| ==> table[k].ip != ip)
            && (i >= 0 ==> table[i].ip == ip && forall k :: 0 <= k < i ==> table[k].ip != ip)
  {
    IndexOfIsFirst(Ips(table), ip);
    assert forall k :: 0 <= k < |table| ==> Ips(table)[k] == table[k].ip;
  }

  // ---- What the operations make of the table ----

  // An ARP request or reply as far as the table is concerned.
  datatype Packet = Request(ip: Ip, mac: Mac) | Reply(ip: Ip, mac: Mac)

  // The first four bytes of a hardware address, which Receive looks up among the IP addresses.
  function Prefix(mac: Mac): Ip {
    mac[..4]
  }

  function Refresh(n: Node, mac: Mac, now: int): Node {
    n.(mac := mac, status := COMPLETE, span := now)
  }

  function AfterReceive(table: seq<Node>, myip: Ip, p: Packet, now: int): seq<Node> {
    if p.ip == myip then table
    else match p
      case Request(ip, mac) =>
        var i := InCache(table, Prefix(mac));
        if i >= 0 then table[i := Refresh(table[i], mac, now)]
        else table + [Node(ip, mac, COMPLETE, now)]
      case Reply(ip, mac) =>
        var i := InCache(table, ip);
        if i >= 0 then table[i := Refresh(table[i], mac, now)] else table
  }

  // Sending to dst enters it as incomplete; an announcement of one's own address does not.
  function AfterSend(table: seq<Node>, src: Ip, dst: Ip, mac: Mac, now: int): seq<Node> {
    if src == dst then table
    else
      var i := InCache(table, dst);
      var n := Node(dst, mac, INCOMPLETE, now);
      if i >= 0 then table[i := n] else table + [n]
  }

  // The hardware address that Send stores for the destination.
  function Broadcast(isGarp: nat): Mac
    requires isGarp <= 1
  {
    var b: Byte := 255 * isGarp;
    [b, b, b, b, b, b]
  }

  // RSend: a gateway that is not in the table is asked for from the host's own address.
  function AfterRSend(table: seq<Node>, own: Ip, gateway: Ip, isGarp: nat, now: int): seq<Node>
    requires isGarp <= 1
  {
    if InCache(table, gateway) >= 0 then table else AfterSend(table, own, gateway, Broadcast(isGarp), now)
  }

  function Aged(n: Node, now: int): Node {
    if n.status == ARP_TIME_OUT then n
    else if now - n.span > (if n.status == COMPLETE then COMPLETE_SPAN else INCOMPLETE_SPAN)
    then n.(status := ARP_TIME_OUT)
    else n
  }

  function AfterTick(table: seq<Node>, now: int): (t: seq<Node>)
    ensures |t| == |table|
    ensures forall k :: 0 <= k < |table| ==> t[k] == Aged(table[k], now)
  {
    seq(|table|, k requires 0 <= k < |table| => Aged(table[k], now))
  }

  // Erasing the first entry with the address; the source leaves the missing case undefined.
  function AfterDelete(table: seq<Node>, ip: Ip): seq<Node>
    requires InCache(table, ip) >= 0
  {
    var i := InCache(table, ip);
    table[..i] + table[i + 1..]
  }

  // ---- What all of them keep ----

  predicate Has(table: seq<Node>, ip: Ip) {
    exists k :: 0 <= k < |table| && table[k].ip == ip
  }

  predicate KnownStatuses(table: seq<Node>) {
    forall k :: 0 <= k < |table| ==> table[k].status <= ARP_TIME_OUT
  }

  predicate Unique(table: seq<Node>) {
    forall j, k :: 0 <= j < k < |table| ==> table[j].ip != table[k].ip
  }

  // No address leaves.
  predicate KeepsAddresses(before: seq<Node>, after: seq<Node>) {
    |before| <= |after| && forall k :: 0 <= k < |before| ==> after[k].ip == before[k].ip
  }

  // Replacing an entry by one with the same address, and appending an entry.
  lemma ReplaceKeeps(table: seq<Node>, i: nat, n: Node)
    requires i < |table| && n.ip == table[i].ip && n.status <= ARP_TIME_OUT
    ensures KeepsAddresses(table, table[i := n])
    ensures KnownStatuses(table) ==> KnownStatuses(table[i := n])
    ensures Unique(table[i := n]) <==> Unique(table)
  {
    var t := table[i := n];
    assert forall k :: 0 <= k < |table| ==> t[k].ip == table[k].ip;
    SameAddresses(table, t);
  }

  lemma SameAddresses(a: seq<Node>, b: seq<Node>)
    requires |a| == |b| && forall k :: 0 <= k < |a| ==> a[k].ip == b[k].ip
    ensures Unique(a) <==> Unique(b)
  {
  }

  lemma AppendKeeps(table: seq<Node>, n: Node)
    requires n.status <= ARP_TIME_OUT
    ensures KeepsAddresses(table, table + [n])
    ensures KnownStatuses(table) ==> KnownStatuses(table + [n])
    ensures Unique(table) ==> (Unique(table + [n]) <==> !Has(table, n.ip))
  {
    var t := table + [n];
    if k :| 0 <= k < |table| && table[k].ip == n.ip {
      assert t[k].ip == t[|table|].ip;
    }
  }

  // ---- What each of them does, entry by entry ----

  // Entry i is the first with the address.
  predicate FirstWith(table: seq<Node>, ip: Ip, i: nat) {
    i < |table| && table[i].ip == ip && forall k :: 0 <= k < i ==> table[k].ip != ip
  }

  // Entry i was replaced, or added at the end; all other entries are as they were.
  predicate OnlyAt(before: seq<Node>, after: seq<Node>, i: nat) {
    && |before| <= |after| <= |before| + 1 && i < |after| && (|after| > |before| ==> i == |before|)
    && forall k :: 0 <= k < |before| && k != i ==> after[k] == before[k]
  }

  // The fields of an entry.
  predicate Holds(n: Node, ip: Ip, mac: Mac, status: nat, span: int) {
    n.ip == ip && n.mac == mac && n.status == status && n.span == span
  }

  lemma FirstIs(table: seq<Node>, ip: Ip)
    ensures InCache(table, ip) >= 0 <==> Has(table, ip)
    ensures InCache(table, ip) >= 0 ==> FirstWith(table, ip, InCache(table, ip))
  {
    InCacheIsFirst(table, ip);
  }

  /** A request from somebody else stores the sender's hardware address, as complete and with the
      present time: in the first entry whose IP address is the first four bytes of that hardware
      address, or else in a new last entry for the sender. */
  lemma RequestStores(table: seq<Node>, myip: Ip, ip: Ip, mac: Mac, now: int) returns (i: nat)
    requires ip != myip
    ensures var t := AfterReceive(table, myip, Request(ip, mac), now);
            && OnlyAt(table, t, i)
            && if Has(table, mac[..4])
               then |t| == |table| && FirstWith(table, mac[..4], i) && Holds(t[i], mac[..4], mac, 1, now)
               else i == |table| && Holds(t[i], ip, mac, 1, now)
  {
    FirstIs(table, Prefix(mac));
    i := if Has(table, mac[..4]) then InCache(table, Prefix(mac)) else |table|;
  }

  /** A reply from somebody else stores the sender's hardware address, as complete and with the
      present time, in the first entry with its IP address; without such an entry nothing changes. */
  lemma ReplyStores(table: seq<Node>, myip: Ip, ip: Ip, mac: Mac, now: int) returns (i: nat)
    requires ip != myip
    ensures var t := AfterReceive(table, myip, Reply(ip, mac), now);
            if Has(table, ip)
            then OnlyAt(table, t, i) && |t| == |table| && FirstWith(table, ip, i) && Holds(t[i], ip, mac, 1, now)
            else t == table
  {
    FirstIs(table, ip);
    i := if Has(table, ip) then InCache(table, ip) else 0;
  }

  /** The host's own packets change nothing. */
  lemma OwnPacketIgnored(table: seq<Node>, p: Packet, now: int)
    ensures AfterReceive(table, p.ip, p, now) == table
  {
  }

  /** A send to somebody else stores the destination as incomplete, with the given hardware address
      and the present time, in its first entry or in a new last one; a send to the source itself
      changes nothing. */
  lemma SendStores(table: seq<Node>, src: Ip, dst: Ip, mac: Mac, now: int) returns (i: nat)
    ensures var t := AfterSend(table, src, dst, mac, now);
            if src == dst then t == table
            else
              && OnlyAt(table, t, i) && Holds(t[i], dst, mac, 0, now)
              && if Has(table, dst) then |t| == |table| && FirstWith(table, dst, i) else i == |table|
  {
    FirstIs(table, dst);
    i := if Has(table, dst) then InCache(table, dst) else |table|;
  }

  /** The hardware address stored for a request is all ones, for an announcement all zeros. */
  lemma BroadcastIs(isGarp: nat)
    requires isGarp <= 1
    ensures Broadcast(isGarp) == if isGarp == 1 then [255, 255, 255, 255, 255, 255] else [0, 0, 0, 0, 0, 0]
  {
  }

  /** A tick lets an entry time out exactly when it is complete and older than 600 seconds, or
      incomplete and older than 180; it changes nothing else of it. */
  lemma TickTimesOut(table: seq<Node>, now: int, k: nat)
    requires k < |table| && KnownStatuses(table)
    ensures var n, m := table[k], AfterTick(table, now)[k];
            && |AfterTick(table, now)| == |table| && Holds(m, n.ip, n.mac, m.status, n.span)
            && m.status == if (n.status == 1 && now - n.span > 600) || (n.status == 0 && now - n.span > 180)
                           then 2 else n.status
  {
  }

  lemma ReceiveKeeps(table: seq<Node>, myip: Ip, p: Packet, now: int)
    ensures KeepsAddresses(table, AfterReceive(table, myip, p, now))
    ensures KnownStatuses(table) ==> KnownStatuses(AfterReceive(table, myip, p, now))
  {
    var i := InCache(table, if p.Request? then Prefix(p.mac) else p.ip);
    if i >= 0 {
      ReplaceKeeps(table, i, Refresh(table[i], p.mac, now));
    } else {
      AppendKeeps(table, Node(p.ip, p.mac, COMPLETE, now));
    }
  }

  lemma SendKeeps(table: seq<Node>, src: Ip, dst: Ip, mac: Mac, now: int)
    ensures KeepsAddresses(table, AfterSend(table, src, dst, mac, now))
    ensures KnownStatuses(table) ==> KnownStatuses(AfterSend(table, src, dst, mac, now))
    ensures Unique(table) ==> Unique(AfterSend(table, src, dst, mac, now))
    ensures src != dst ==> Has(AfterSend(table, src, dst, mac, now), dst)
  {
    InCacheIsFirst(table, dst);
    var i, n := InCache(table, dst), Node(dst, mac, INCOMPLETE, now);
    if i >= 0 {
      ReplaceKeeps(table, i, n);
      assert table[i := n][i].ip == dst;
    } else {
      AppendKeeps(table, n);
      assert (table + [n])[|table|].ip == dst;
    }
  }

  /** Afterwards the gateway is in the table, unless it is the host's own address. */
  lemma RSendKeeps(table: seq<Node>, own: Ip, gateway: Ip, isGarp: nat, now: int)
    requires isGarp <= 1
    ensures var t := AfterRSend(table, own, gateway, isGarp, now);
            && KeepsAddresses(table, t) && (KnownStatuses(table) ==> KnownStatuses(t))
            && (Unique(table) ==> Unique(t)) && (own != gateway ==> Has(t, gateway))
            && (Has(table, gateway) || own == gateway ==> t == table)
            && (!Has(table, gateway) && own != gateway ==>
                  |t| == |table| + 1 && Holds(t[|table|], gateway, Broadcast(isGarp), 0, now))
  {
    SendKeeps(table, own, gateway, Broadcast(isGarp), now);
    FirstIs(table, gateway);
  }

  lemma TickKeeps(table: seq<Node>, now: int)
    ensures KeepsAddresses(table, AfterTick(table, now))
    ensures KnownStatuses(table) ==> KnownStatuses(AfterTick(table, now))
    ensures Unique(table) ==> Unique(AfterTick(table, now))
  {
    SameAddresses(table, AfterTick(table, now));
  }

  lemma ReplyKeepsUnique(table: seq<Node>, myip: Ip, p: Packet, now: int)
    requires Unique(table) && p.Reply?
    ensures Unique(AfterReceive(table, myip, p, now))
  {
    InCacheIsFirst(table, p.ip);
    var i := InCache(table, p.ip);
    if i >= 0 {
      ReplaceKeeps(table, i, Refresh(table[i], p.mac, now));
    }
  }

  /** A request keeps addresses unique if and only if it is one's own, or its sender is new,
      or the first four bytes of the sender's hardware address are in the table as an IP
      address: the cache is looked up with the hardware address. */
  lemma RequestKeepsUnique(table: seq<Node>, myip: Ip, p: Packet, now: int)
    requires Unique(table) && p.Request?
    ensures Unique(AfterReceive(table, myip, p, now))
       <==> p.ip == myip || !Has(table, p.ip) || Has(table, Prefix(p.mac))
  {
    var i := InCache(table, Prefix(p.mac));
    InCacheIsFirst(table, Prefix(p.mac));
    if i >= 0 {
      ReplaceKeeps(table, i, Refresh(table[i], p.mac, now));
    } else {
      AppendKeeps(table, Node(p.ip, p.mac, COMPLETE, now));
    }
  }

  /** Two requests from one host are enough to enter its address twice. */
  lemma TwoRequestsTwoEntries()
    ensures var p := Request([192, 168, 0, 7], [2, 0, 0, 0, 0, 7]);
            var once := AfterReceive([], [192, 168, 0, 1], p, 0);
            var twice := AfterReceive(once, [192, 168, 0, 1], p, 1);
            |twice| == 2 && twice[0].ip == twice[1].ip == p.ip
  {
    var p := Request([192, 168, 0, 7], [2, 0, 0, 0, 0, 7]);
    assert p.ip[3] == 7 && [192, 168, 0, 1][3] == 1 && Prefix(p.mac)[0] == 2;
    var n := Node(p.ip, p.mac, COMPLETE, 0);
    InCacheIsFirst([], Prefix(p.mac));
    InCacheIsFirst([n], Prefix(p.mac));
  }

  /** An entry times out exactly when its time has passed, stays timed out until it is
      refreshed, and keeps its addresses. */
  lemma TickAges(table: seq<Node>, now: int, later: int)
    requires now <= later
    ensures AfterTick(AfterTick(table, now), later) == AfterTick(table, later)
  {
    forall k | 0 <= k < |table|
      ensures Aged(Aged(table[k], now), later) == Aged(table[k], later)
    {
    }
  }

  /** Deleting removes one entry with the address, the first, and keeps all others in order. */
  lemma DeleteRemovesFirst(table: seq<Node>, ip: Ip) returns (i: nat)
    requires Has(table, ip)
    ensures FirstWith(table, ip, i) && InCache(table, ip) >= 0
    ensures var t := AfterDelete(table, ip);
            |t| == |table| - 1 && forall k :: 0 <= k < |t| ==> t[k] == table[if k < i then k else k + 1]
  {
    FirstIs(table, ip);
    i := InCache(table, ip);
  }

  // Some entry after the first one with the address has it too.
  predicate HasLater(table: seq<Node>, ip: Ip) {
    exists k :: InCache(table, ip) < k < |table| && table[k].ip == ip
  }

  /** The deleted address is still in the table if and only if a later entry has it too. */
  lemma DeletedStillThere(table: seq<Node>, ip: Ip)
    requires InCache(table, ip) >= 0
    ensures Has(AfterDelete(table, ip), ip) <==> HasLater(table, ip)
  {
    InCacheIsFirst(table, ip);
    var i, t := InCache(table, ip), AfterDelete(table, ip);
    assert forall k :: 0 <= k < |t| ==> t[k] == if k < i then table[k] else table[k + 1];
    if k :| i < k < |table| && table[k].ip == ip {
      assert t[k - 1].ip == ip;
    }
  }

  /** Deleting keeps addresses unique, and the deleted one is then gone. */
  lemma DeleteKeeps(table: seq<Node>, ip: Ip)
    requires InCache(table, ip) >= 0
    ensures KnownStatuses(table) ==> KnownStatuses(AfterDelete(table, ip))
    ensures Unique(table) ==> Unique(AfterDelete(table, ip)) && !Has(AfterDelete(table, ip), ip)
  {
    InCacheIsFirst(table, ip);
    var i, t := InCache(table, ip), AfterDelete(table, ip);
    assert forall k :: 0 <= k < |t| ==> t[k] == if k < i then table[k] else table[k + 1];
  }

  /** After two requests from one host, deleting its address leaves it in the table. */
  lemma DeletedAfterTwoRequests()
    ensures var p := Request([192, 168, 0, 7], [2, 0, 0, 0, 0, 7]);
            var once := AfterReceive([], [192, 168, 0, 1], p, 0);
            var twice := AfterReceive(once, [192, 168, 0, 1], p, 1);
            InCache(twice, p.ip) >= 0 && Has(AfterDelete(twice, p.ip), p.ip)
  {
    var p := Request([192, 168, 0, 7], [2, 0, 0, 0, 0, 7]);
    var once := AfterReceive([], [192, 168, 0, 1], p, 0);
    var twice := AfterReceive(once, [192, 168, 0, 1], p, 1);
    TwoRequestsTwoEntries();
    InCacheIsFirst(twice, p.ip);
    assert HasLater(twice, p.ip) by {
      assert InCache(twice, p.ip) < 1 && twice[1].ip == p.ip;
    }
    DeletedStillThere(twice, p.ip);
  }

  class ArpLayer {
    var table: seq<Node>
    // is_Garp: the negation of the argument of isGARP, as 0 or 1.
    var isGarp: nat
    // myip[INNER] and myip[OUTER].
    var myip: seq<Ip>

    ghost predicate Valid()
      reads this
    {
      |myip| == 2 && isGarp <= 1
    }

    constructor ()
      ensures Valid() && table == [] && isGarp == 1
    {
      table, isGarp := [], 1;
      myip := [[0, 0, 0, 0], [0, 0, 0, 0]];
    }

    method FindInCache(ip: Ip) returns (res: int)
      ensures res == InCache(table, ip)
    {
      res := -1;
      InCacheIsFirst(table, ip);
      var i := 0;
      while i < |table|
        invariant i <= |table| && res == -1
        invariant forall k :: 0 <= k < i ==> table[k].ip != ip
      {
        if table[i].ip == ip {
          return i;
        }
        i := i + 1;
      }
    }

    method Receive(p: Packet, now: int)
      requires Valid()
      modifies this`table
      ensures table == AfterReceive(old(table), myip[0], p, now)
    {
      var index := FindInCache(Prefix(p.mac));
      if p.ip == myip[0] {
        return;
      }
      match p {
        case Request(ip, mac) =>
          table := if index >= 0 then table[index := Refresh(table[index], mac, now)]
                   else table + [Node(ip, mac, COMPLETE, now)];
        case Reply(ip, mac) =>
          var i := FindInCache(ip);
          table := if i >= 0 then table[i := Refresh(table[i], mac, now)] else table;
      }
    }

    method IsGarp(yes: bool)
      requires Valid()
      modifies this`isGarp
      ensures isGarp == if yes then 0 else 1
    {
      isGarp := if yes then 0 else 1;
    }

    method SetMyAddr(ip: string, iosel: nat)
      requires Valid() && iosel < 2
      modifies this`myip
      ensures myip == old(myip)[iosel := ParseIp(ip)]
    {
      myip := myip[iosel := ParseIp(ip)];
    }

    method Send(src: Ip, dst: Ip, now: int)
      requires Valid()
      modifies this`table
      ensures table == AfterSend(old(table), src, dst, Broadcast(isGarp), now)
    {
      var newNode := Node(dst, Broadcast(isGarp), INCOMPLETE, now);
      if src != dst {
        var idx := FindInCache(dst);
        table := if idx != -1 then table[idx := newNode] else table + [newNode];
      }
    }

    // The part of RSend that is about the table; the reply it waits for is another event.
    method RSend(gateway: Ip, iosel: nat, now: int)
      requires Valid() && iosel < 2
      modifies this`table
      ensures table == AfterRSend(old(table), myip[iosel], gateway, isGarp, now)
    {
      var idx := FindInCache(gateway);
      if idx == -1 {
        Send(myip[iosel], gateway, now);
      }
    }

    method UpdateTable(now: int)
      modifies this`table
      ensures table == AfterTick(old(table), now)
    {
      var i := 0;
      while i < |table|
        invariant i <= |table| == |old(table)|
        invariant forall k :: 0 <= k < |table| ==>
                    table[k] == if k < i then Aged(old(table)[k], now) else old(table)[k]
      {
        if table[i].status != ARP_TIME_OUT {
          if now - table[i].span > (if table[i].status == COMPLETE then COMPLETE_SPAN else INCOMPLETE_SPAN) {
            table := table[i := table[i].(status := ARP_TIME_OUT)];
          }
        }
        i := i + 1;
      }
    }

    method DeleteItem(ip: string)
      requires InCache(table, ParseIp(ip)) >= 0
      modifies this`table
      ensures table == AfterDelete(old(table), ParseIp(ip))
    {
      var k := FindInCache(ParseIp(ip));
      table := table[..k] + table[k + 1..];
    }

    method ClearTable()
      modifies this`table
      ensures table == []
    {
      table := [];
    }
  }
}
