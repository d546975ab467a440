/** The main dialog: the view of the ARP table, the selection of the adapters, and the two ways
    of sending an ARP request (ARP/ARPDlg.cpp), with the part of ARP/IPLayer.cpp below it. */
module ArpDialog {
  import opened Options
  import opened Text
  import opened DottedDecimal
  import opened MacAddress
  import opened ArpTable
  import opened ArpView

  const INNER: nat := 0
  const OUTER: nat := 1
  const DEFAULT_EDIT_TEXT: string := "-"
  const NO_ADDRESS: Ip := [0, 0, 0, 0]
  const ALL_HOSTS: Ip := [255, 255, 255, 255]

  // ---- The state behind the dialog, and what each event makes of it ----

  datatype Header = Header(src: Ip, dst: Ip)

  const NO_HEADER: Header := Header(NO_ADDRESS, NO_ADDRESS)

  type Headers = h: seq<Header> | |h| == 2 witness [NO_HEADER, NO_HEADER]

  // What the dialog's sends handed on from CIPLayer::Send: the adapter, the addresses in the IP
  // header, the value of is_Garp, and whether the adapters could still be chosen at that moment.
  datatype Sending = Sending(iosel: nat, header: Header, isGarp: nat, choosing: bool)

  // Which widgets are enabled, whether the timer runs, and the flag that keeps the receiving
  // threads going. The widgets with a 2 belong to the inner adapter.
  datatype Controls = Controls(combo: bool, src: bool, combo2: bool, src2: bool, dst: bool, timer: bool, canRead: bool)

  // What choosing an adapter puts in its two fields.
  datatype Adapter = Adapter(mac: string, ip: Ip)

  datatype State = State(controls: Controls, mac: string, src: Ip, src2: Ip, dst: Ip,
                         headers: Headers, sent: seq<Sending>,
                         table: seq<Node>, isGarp: nat, myip: seq<Ip>, rows: seq<Row>)

  // The controls while the adapters are fixed (on) and while they can be chosen (off).
  function Session(on: bool, canRead: bool): Controls {
    Controls(!on, !on, !on, !on, on, on, canRead)
  }

  function AfterGarp(s: State): State {
    var outer, inner := Header(s.src, s.src), Header(s.src2, s.src2);
    s.(headers := [inner, outer], isGarp := 1,
       sent := s.sent + [Sending(OUTER, outer, 0, s.controls.combo), Sending(INNER, inner, 0, s.controls.combo)])
  }

  predicate Accepts(s: State) {
    s.mac != DEFAULT_EDIT_TEXT && s.src != NO_ADDRESS
  }

  // Choosing reads the fields before the adapters overwrite them.
  function AfterSelect(s: State, outer: Adapter, inner: Adapter): State {
    if s.controls.combo then
      var t := s.(mac := outer.mac, src := outer.ip, src2 := inner.ip);
      if Accepts(s) then
        AfterGarp(t.(controls := Session(true, !s.controls.canRead), myip := [s.src2, s.src]))
      else t
    else s.(controls := Session(false, !s.controls.canRead))
  }

  predicate CanBeAsked(ip: Ip) {
    ip != NO_ADDRESS && ip != ALL_HOSTS
  }

  function AfterSendArp(s: State, now: int): State
    requires s.isGarp <= 1
  {
    if !s.controls.dst || s.controls.combo then s
    else
      var inner, outer := Header(s.src2, s.dst), Header(s.src, s.dst);
      var t := s.(headers := [inner, outer]);
      if !CanBeAsked(s.dst) then t
      else
        var mac := Broadcast(s.isGarp);
        t.(table := AfterSend(AfterSend(s.table, s.src2, s.dst, mac, now), s.src, s.dst, mac, now),
           sent := s.sent + [Sending(INNER, inner, s.isGarp, false), Sending(OUTER, outer, s.isGarp, false)])
  }

  function AfterUpdate(s: State, now: int): State {
    var table := AfterTick(s.table, now);
    s.(table := table, rows := ShowAll(s.rows, table))
  }

  function AfterItemDel(s: State, mark: int): State
    requires 0 <= mark ==> mark < |s.rows| && InCache(s.table, ParseIp(s.rows[mark].ip)) >= 0
  {
    if mark < 0 then s else s.(table := AfterDelete(s.table, ParseIp(s.rows[mark].ip)), rows := [])
  }

  // Where routing sends a received packet: the next hop, and the adapter.
  datatype Hop = Hop(gateway: Ip, out: nat)

  // A received IP packet leaves its addresses in the header. If a route is up and the next hop is
  // no proxy entry, CARPLayer::RSend asks for a hop that is not in the table.
  function AfterIpReceived(s: State, iosel: nat, header: Header, hop: Option<Hop>, now: int): State
    requires iosel < 2 && s.isGarp <= 1 && (hop.Some? ==> hop.value.out < |s.myip|)
  {
    var table :=
      if hop.None? then s.table
      else AfterRSend(s.table, s.myip[hop.value.out], hop.value.gateway, s.isGarp, now);
    s.(headers := s.headers[iosel := header], table := table)
  }

  // ---- What each event does, field by field ----

  /** Announcing hands on two packets, the outer adapter's first, each from its own source field's
      address to itself and with is_Garp 0; it leaves these addresses in the headers, the flag back
      at 1, and everything else as it was. */
  lemma GarpSends(s: State)
    ensures var r := AfterGarp(s);
            && r.sent == s.sent + [Sending(1, Header(s.src, s.src), 0, s.controls.combo),
                                   Sending(0, Header(s.src2, s.src2), 0, s.controls.combo)]
            && r.headers[1] == Header(s.src, s.src) && r.headers[0] == Header(s.src2, s.src2) && r.isGarp == 1
            && r == s.(headers := r.headers, sent := r.sent, isGarp := r.isGarp)
  {
  }

  // All widgets, the timer and the receiving threads as in a session, or all as outside one.
  predicate Switched(c: Controls, on: bool) {
    c.dst == on && c.timer == on && c.canRead == on && c.combo != on && c.src != on && c.combo2 != on && c.src2 != on
  }

  /** Select outside a session starts one exactly if the outer adapter has a hardware address and
      its field an address, and announces then; in a session it ends it, and changes nothing else. */
  lemma SelectSwitches(s: State, outer: Adapter, inner: Adapter)
    requires Inv(s)
    ensures var r := AfterSelect(s, outer, inner);
            var starts := !s.controls.dst && s.mac != "-" && s.src != [0, 0, 0, 0];
            && Switched(r.controls, starts)
            && (s.controls.dst ==> r == s.(controls := r.controls))
            && (!s.controls.dst ==> r.mac == outer.mac && r.src == outer.ip && r.src2 == inner.ip)
            && (!s.controls.dst && !starts ==> r == s.(mac := r.mac, src := r.src, src2 := r.src2))
            && (starts ==>
                  && r.myip == [s.src2, s.src] && r.dst == s.dst && r.table == s.table && r.rows == s.rows
                  && r.sent == s.sent + [Sending(1, Header(outer.ip, outer.ip), 0, false),
                                         Sending(0, Header(inner.ip, inner.ip), 0, false)]
                  && r.headers[1] == Header(outer.ip, outer.ip) && r.headers[0] == Header(inner.ip, inner.ip))
  {
  }

  /** A request leaves the headers for the destination, each with its own adapter's source field.
      For an address other than 0.0.0.0 and 255.255.255.255 it hands on two packets, the inner
      adapter's first, and changes no entry of another address; otherwise it hands on none. Outside
      a session it does nothing. */
  lemma SendArpSends(s: State, now: int)
    requires Inv(s)
    ensures var r := AfterSendArp(s, now);
            var asks := s.dst != [0, 0, 0, 0] && s.dst != [255, 255, 255, 255];
            if !s.controls.dst then r == s
            else
              && r.headers[0] == Header(s.src2, s.dst) && r.headers[1] == Header(s.src, s.dst)
              && r == s.(headers := r.headers, table := r.table, sent := r.sent)
              && (asks ==> r.sent == s.sent + [Sending(0, Header(s.src2, s.dst), 1, false),
                                               Sending(1, Header(s.src, s.dst), 1, false)])
              && (!asks ==> r.sent == s.sent && r.table == s.table)
  {
    assert s.controls.dst ==> !s.controls.combo;
  }

  lemma SendArpLeavesOthers(s: State, now: int, k: nat)
    requires Inv(s) && k < |s.table| && s.table[k].ip != s.dst
    ensures var r := AfterSendArp(s, now).table; k < |r| && r[k] == s.table[k]
  {
    var mac := Broadcast(s.isGarp);
    var i := SendStores(s.table, s.src2, s.dst, mac, now);
    var t := AfterSend(s.table, s.src2, s.dst, mac, now);
    var j := SendStores(t, s.src, s.dst, mac, now);
  }

  /** A received IP packet leaves its addresses in the header of its adapter, and changes the table
      only for a next hop that is not in it. */
  lemma IpReceivedIs(s: State, iosel: nat, header: Header, hop: Option<Hop>, now: int)
    requires Inv(s) && iosel < 2 && (hop.Some? ==> hop.value.out < 2)
    ensures var r := AfterIpReceived(s, iosel, header, hop, now);
            && r.headers[iosel] == header && r.headers[1 - iosel] == s.headers[1 - iosel]
            && r == s.(headers := r.headers, table := r.table)
            && (hop.None? || Has(s.table, hop.value.gateway) ==> r.table == s.table)
  {
    if hop.Some? {
      FirstIs(s.table, hop.value.gateway);
    }
  }

  /** Deleting a marked row empties the view and erases the first entry with its address, keeping
      all others in order; without a mark nothing happens. */
  lemma ItemDelIs(s: State, mark: int) returns (i: nat)
    requires Inv(s) && mark < |s.rows|
    ensures 0 <= mark ==> InCache(s.table, ParseIp(s.rows[mark].ip)) >= 0
    ensures var r := AfterItemDel(s, mark);
            if mark < 0 then r == s
            else
              && r == s.(table := r.table, rows := []) && |r.table| == |s.table| - 1
              && FirstWith(s.table, ParseIp(s.rows[mark].ip), i)
              && forall k :: 0 <= k < |r.table| ==> r.table[k] == s.table[if k < i then k else k + 1]
  {
    DeleteIsDefined(s, mark);
    if 0 <= mark {
      FirstIs(s.table, ParseIp(s.rows[mark].ip));
      i := DeleteRemovesFirst(s.table, ParseIp(s.rows[mark].ip));
    } else {
      i := 0;
    }
  }

  // ---- Runs ----

  datatype Event =
    | Tick(now: int)
    | ItemDel(mark: int)
    | AllDel
    | Select(outer: Adapter, inner: Adapter)
    | SendArp(now: int)
    | GArpSend
    | Choose(adapter: Adapter)
    | Choose2(adapter2: Adapter)
    | TypeSrc(src: Ip)
    | TypeSrc2(src2: Ip)
    | TypeDst(dst: Ip)
    | ArpReceived(packet: Packet, at: int)
    | IpReceived(iosel: nat, header: Header, hop: Option<Hop>, on: int)

  /** What holds between events: the dialog is in a session or it is not, and all its widgets, the
      timer and the receiving threads go by that; no announcement is under way; the view has
      distinct rows, all for addresses in the table; and everything the dialog sent so far was an
      announcement of an address to itself, or a request for a real address made during a session. */
  ghost predicate Inv(s: State) {
    && s.controls == Session(s.controls.dst, s.controls.dst)
    && s.isGarp == 1 && |s.myip| == 2
    && Distinct(s.rows) && Covered(s.rows, s.table) && KnownStatuses(s.table)
    && AllProper(s.sent)
  }

  predicate Proper(x: Sending) {
    if x.isGarp == 0 then x.header.src == x.header.dst
    else x.isGarp == 1 && !x.choosing && CanBeAsked(x.header.dst)
  }

  predicate AllProper(sent: seq<Sending>) {
    forall k :: 0 <= k < |sent| ==> Proper(sent[k])
  }

  // A selection mark is a row, and there are two adapters.
  predicate Possible(s: State, e: Event) {
    && (e.ItemDel? ==> e.mark < |s.rows|)
    && (e.IpReceived? ==> e.iosel < 2 && (e.hop.Some? ==> e.hop.value.out < 2))
  }

  // Disabled widgets take no input.
  function Next(s: State, e: Event): State
    requires Inv(s) && Possible(s, e)
  {
    match e
    case Tick(now) => AfterUpdate(s, now)
    case ItemDel(mark) =>
      DeleteIsDefined(s, mark);
      AfterItemDel(s, mark)
    case AllDel => s.(table := [], rows := [])
    case Select(outer, inner) => AfterSelect(s, outer, inner)
    case SendArp(now) => AfterSendArp(s, now)
    case GArpSend => AfterGarp(s)
    case Choose(a) => if s.controls.combo then s.(mac := a.mac, src := a.ip) else s
    case Choose2(a) => if s.controls.combo2 then s.(src2 := a.ip) else s
    case TypeSrc(ip) => if s.controls.src then s.(src := ip) else s
    case TypeSrc2(ip) => if s.controls.src2 then s.(src2 := ip) else s
    case TypeDst(ip) => if s.controls.dst then s.(dst := ip) else s
    case ArpReceived(p, now) => s.(table := AfterReceive(s.table, s.myip[0], p, now))
    case IpReceived(iosel, h, hop, now) => AfterIpReceived(s, iosel, h, hop, now)
  }

  /** No run erases past the end of the table: the address of a marked row is in it. */
  lemma DeleteIsDefined(s: State, mark: int)
    requires Inv(s) && mark < |s.rows|
    ensures 0 <= mark ==> InCache(s.table, ParseIp(s.rows[mark].ip)) >= 0
  {
    if 0 <= mark {
      RowCanBeDeleted(s.rows, s.table, mark);
      InCacheIsFirst(s.table, ParseIp(s.rows[mark].ip));
    }
  }

  lemma ProperGrows(sent: seq<Sending>, x: Sending, y: Sending)
    requires AllProper(sent) && Proper(x) && Proper(y)
    ensures AllProper(sent + [x, y])
  {
  }

  lemma GarpKeepsInv(s: State)
    requires Inv(s)
    ensures Inv(AfterGarp(s))
  {
    var on := s.controls.combo;
    ProperGrows(s.sent, Sending(OUTER, Header(s.src, s.src), 0, on), Sending(INNER, Header(s.src2, s.src2), 0, on));
  }

  lemma SelectKeepsInv(s: State, outer: Adapter, inner: Adapter)
    requires Inv(s)
    ensures Inv(AfterSelect(s, outer, inner))
  {
    if s.controls.combo && Accepts(s) {
      GarpKeepsInv(s.(mac := outer.mac, src := outer.ip, src2 := inner.ip,
                      controls := Session(true, !s.controls.canRead), myip := [s.src2, s.src]));
    }
  }

  lemma SendArpKeepsInv(s: State, now: int)
    requires Inv(s)
    ensures Inv(AfterSendArp(s, now)) && KeepsAddresses(s.table, AfterSendArp(s, now).table)
  {
    if s.controls.dst && CanBeAsked(s.dst) {
      var mac := Broadcast(s.isGarp);
      var t := AfterSend(s.table, s.src2, s.dst, mac, now);
      SendKeeps(s.table, s.src2, s.dst, mac, now);
      SendKeeps(t, s.src, s.dst, mac, now);
      CoveredStays(s.rows, s.table, t);
      CoveredStays(s.rows, t, AfterSend(t, s.src, s.dst, mac, now));
      var inner, outer := Header(s.src2, s.dst), Header(s.src, s.dst);
      ProperGrows(s.sent, Sending(INNER, inner, 1, false), Sending(OUTER, outer, 1, false));
    }
  }

  lemma UpdateKeepsInv(s: State, now: int)
    requires Inv(s)
    ensures Inv(AfterUpdate(s, now))
    ensures var r := AfterUpdate(s, now);
            && Agrees(r.rows, r.table) && KeepsRows(s.rows, r.rows)
            && r.table == AfterTick(s.table, now) && r == s.(table := r.table, rows := r.rows)
  {
    TickKeeps(s.table, now);
    CoveredStays(s.rows, s.table, AfterTick(s.table, now));
    TickShowsTable(s.rows, AfterTick(s.table, now));
  }

  lemma IpReceivedKeepsInv(s: State, iosel: nat, header: Header, hop: Option<Hop>, now: int)
    requires Inv(s) && iosel < 2 && (hop.Some? ==> hop.value.out < 2)
    ensures var r := AfterIpReceived(s, iosel, header, hop, now); Inv(r) && KeepsAddresses(s.table, r.table)
  {
    if hop.Some? {
      RSendKeeps(s.table, s.myip[hop.value.out], hop.value.gateway, s.isGarp, now);
    }
    CoveredStays(s.rows, s.table, AfterIpReceived(s, iosel, header, hop, now).table);
  }

  lemma NextKeepsInv(s: State, e: Event)
    requires Inv(s) && Possible(s, e)
    ensures Inv(Next(s, e))
  {
    match e
    case Tick(now) => UpdateKeepsInv(s, now);
    case ItemDel(mark) =>
      DeleteIsDefined(s, mark);
      if 0 <= mark {
        DeleteKeeps(s.table, ParseIp(s.rows[mark].ip));
      }
    case Select(outer, inner) => SelectKeepsInv(s, outer, inner);
    case SendArp(now) => SendArpKeepsInv(s, now);
    case GArpSend => GarpKeepsInv(s);
    case ArpReceived(p, now) =>
      ReceiveKeeps(s.table, s.myip[0], p, now);
      CoveredStays(s.rows, s.table, AfterReceive(s.table, s.myip[0], p, now));
    case IpReceived(iosel, h, hop, now) => IpReceivedKeepsInv(s, iosel, h, hop, now);
    case _ =>
  }

  // Every event of the run is possible when it comes.
  ghost predicate PossibleRun(s: State, es: seq<Event>)
    requires Inv(s)
    decreases |es|
  {
    es == [] || (Possible(s, es[0]) && (NextKeepsInv(s, es[0]); PossibleRun(Next(s, es[0]), es[1..])))
  }

  ghost function Exec(s: State, es: seq<Event>): State
    requires Inv(s) && PossibleRun(s, es)
    decreases |es|
  {
    if es == [] then s else (NextKeepsInv(s, es[0]); Exec(Next(s, es[0]), es[1..]))
  }

  /** Every run of events keeps the invariant. */
  lemma {:induction false} RunKeepsInv(s: State, es: seq<Event>)
    requires Inv(s) && PossibleRun(s, es)
    ensures Inv(Exec(s, es))
    decreases |es|
  {
    if es != [] {
      NextKeepsInv(s, es[0]);
      RunKeepsInv(Next(s, es[0]), es[1..]);
    }
  }

  predicate NoSelect(es: seq<Event>) {
    forall k :: 0 <= k < |es| ==> !es[k].Select?
  }

  // Select is pressed outside a session and accepts what the fields hold.
  predicate Starts(s: State) {
    !s.controls.dst && s.mac != "-" && s.src != [0, 0, 0, 0]
  }

  lemma {:induction false} NoSelectNoSwitch(s: State, es: seq<Event>)
    requires Inv(s) && PossibleRun(s, es) && NoSelect(es)
    ensures Exec(s, es).controls == s.controls
    decreases |es|
  {
    if es != [] {
      NextKeepsInv(s, es[0]);
      assert !es[0].Select?;
      NoSelectNoSwitch(Next(s, es[0]), es[1..]);
    }
  }

  // A run and its first k events.
  lemma {:induction false} RunSplits(s: State, es: seq<Event>, k: nat)
    requires Inv(s) && PossibleRun(s, es) && k <= |es|
    ensures PossibleRun(s, es[..k]) && Inv(Exec(s, es[..k])) && PossibleRun(Exec(s, es[..k]), es[k..])
    ensures Exec(Exec(s, es[..k]), es[k..]) == Exec(s, es)
    decreases k
  {
    if k == 0 {
      assert es[..0] == [] && es[0..] == es;
    } else {
      NextKeepsInv(s, es[0]);
      RunSplits(Next(s, es[0]), es[1..], k - 1);
      assert es[..k][0] == es[0] && es[..k][1..] == es[1..][..k - 1] && es[k..] == es[1..][k - 1..];
    }
  }

  /** After any run the session is on exactly if the last Select of the run started one. */
  lemma SessionAfterRun(s: State, es: seq<Event>, k: nat)
    requires Inv(s) && PossibleRun(s, es) && k < |es| && es[k].Select? && NoSelect(es[k + 1..])
    ensures PossibleRun(s, es[..k])
    ensures Switched(Exec(s, es).controls, Starts(Exec(s, es[..k])))
  {
    RunSplits(s, es, k);
    var t, e, rest := Exec(s, es[..k]), es[k], es[k + 1..];
    assert es[k..][0] == e && es[k..][1..] == rest;
    NextKeepsInv(t, e);
    SelectSwitches(t, e.outer, e.inner);
    NoSelectNoSwitch(Next(t, e), rest);
  }

  /** While a session lasts its source addresses stay what they were when it began. */
  lemma {:induction false} SessionKeepsSources(s: State, es: seq<Event>)
    requires Inv(s) && PossibleRun(s, es) && s.controls.dst && NoSelect(es)
    ensures var t := Exec(s, es);
            t.controls == s.controls && t.mac == s.mac && t.src == s.src && t.src2 == s.src2 && t.myip == s.myip
    decreases |es|
  {
    if es != [] {
      NextKeepsInv(s, es[0]);
      assert !es[0].Select?;
      SessionKeepsSources(Next(s, es[0]), es[1..]);
    }
  }

  predicate NoTyping(es: seq<Event>) {
    forall k :: 0 <= k < |es| ==> !es[k].TypeDst?
  }

  lemma {:induction false} DestinationKept(s: State, es: seq<Event>)
    requires Inv(s) && PossibleRun(s, es) && NoTyping(es)
    ensures Exec(s, es).dst == s.dst
    decreases |es|
  {
    if es != [] {
      NextKeepsInv(s, es[0]);
      assert !es[0].TypeDst?;
      DestinationKept(Next(s, es[0]), es[1..]);
    }
  }

  /** In a session, whatever happens between typing a destination and SendArp, short of another
      destination or the end of the session, the two requests are for that destination and have
      the session's source addresses. */
  lemma TypedIsAsked(s: State, ip: Ip, es: seq<Event>, now: int)
    requires Inv(s) && s.controls.dst && CanBeAsked(ip)
    requires es != [] && es[0] == TypeDst(ip) && PossibleRun(s, es) && NoSelect(es) && NoTyping(es[1..])
    ensures var t := Exec(s, es);
            && Inv(t)
            && AfterSendArp(t, now).sent == t.sent + [Sending(0, Header(s.src2, ip), 1, false),
                                                      Sending(1, Header(s.src, ip), 1, false)]
  {
    NextKeepsInv(s, es[0]);
    RunKeepsInv(s, es);
    SessionKeepsSources(s, es);
    DestinationKept(Next(s, es[0]), es[1..]);
    SendArpSends(Exec(s, es), now);
  }

  // The rows that were there are still there, in their places.
  predicate KeepsRows(before: seq<Row>, after: seq<Row>) {
    |before| <= |after| && forall x :: 0 <= x < |before| ==> after[x].ip == before[x].ip
  }

  predicate NoDeletes(es: seq<Event>) {
    forall k :: 0 <= k < |es| ==> !es[k].ItemDel? && !es[k].AllDel?
  }

  /** In a run that deletes nothing no address leaves the table, and no row moves or goes away. */
  lemma {:induction false} RunKeepsRows(s: State, es: seq<Event>)
    requires Inv(s) && PossibleRun(s, es) && NoDeletes(es)
    ensures KeepsRows(s.rows, Exec(s, es).rows) && KeepsAddresses(s.table, Exec(s, es).table)
    decreases |es|
  {
    if es != [] {
      NextKeepsInv(s, es[0]);
      NextKeepsRows(s, es[0]);
      RunKeepsRows(Next(s, es[0]), es[1..]);
    }
  }

  lemma NextKeepsRows(s: State, e: Event)
    requires Inv(s) && Possible(s, e) && !e.ItemDel? && !e.AllDel?
    ensures KeepsRows(s.rows, Next(s, e).rows) && KeepsAddresses(s.table, Next(s, e).table)
  {
    match e
    case Tick(now) => UpdateKeepsInv(s, now);
    case SendArp(now) => SendArpKeepsInv(s, now);
    case ArpReceived(p, now) => ReceiveKeeps(s.table, s.myip[0], p, now);
    case IpReceived(iosel, h, hop, now) => IpReceivedKeepsInv(s, iosel, h, hop, now);
    case _ =>
  }

  /** After any run, one tick makes the view agree with the table. */
  lemma TickAfterRun(s: State, es: seq<Event>, now: int)
    requires Inv(s) && PossibleRun(s, es)
    ensures var r := AfterUpdate(Exec(s, es), now); Agrees(r.rows, r.table)
  {
    RunKeepsInv(s, es);
    UpdateKeepsInv(Exec(s, es), now);
  }

  /** Deleting a row and one tick: the row is back if and only if a later entry has its address. */
  lemma DeletedRowReturns(s: State, mark: nat, now: int)
    requires Inv(s) && mark < |s.rows|
    ensures InCache(s.table, ParseIp(s.rows[mark].ip)) >= 0
    ensures var r := AfterUpdate(AfterItemDel(s, mark), now);
            HasRow(r.rows, s.rows[mark].ip) <==> HasLater(s.table, ParseIp(s.rows[mark].ip))
  {
    var ip := ParseIp(s.rows[mark].ip);
    RowCanBeDeleted(s.rows, s.table, mark);
    DeleteIsDefined(s, mark);
    DeletedStillThere(s.table, ip);
    var t := AfterDelete(s.table, ip);
    TickKeeps(t, now);
    SameIps(t, AfterTick(t, now), ip);
    TickShowsTable([], AfterTick(t, now));
    RowsAreAddresses(ShowAll([], AfterTick(t, now)), AfterTick(t, now), ip);
  }

  lemma SameIps(before: seq<Node>, after: seq<Node>, ip: Ip)
    requires |before| == |after| && KeepsAddresses(before, after)
    ensures Has(before, ip) <==> Has(after, ip)
  {
    if k :| 0 <= k < |before| && before[k].ip == ip {
      assert after[k].ip == ip;
    }
    if k :| 0 <= k < |after| && after[k].ip == ip {
      assert before[k].ip == ip;
    }
  }

  /** Asking for an address during a session puts it in the table as incomplete, whatever was
      there before; it is left out only when it is the address of both adapters. */
  lemma SendArpEnters(s: State, now: int)
    requires Inv(s) && s.controls.dst && CanBeAsked(s.dst)
    ensures var r := AfterSendArp(s, now).table;
            var i := InCache(r, s.dst);
            if s.src == s.dst && s.src2 == s.dst then r == s.table
            else i >= 0 && Holds(r[i], s.dst, [255, 255, 255, 255, 255, 255], 0, now)
  {
    BroadcastIs(s.isGarp);
    var mac := Broadcast(s.isGarp);
    var t := AfterSend(s.table, s.src2, s.dst, mac, now);
    if s.src2 != s.dst {
      Entered(s.table, s.src2, s.dst, mac, now);
    }
    if s.src != s.dst {
      Entered(t, s.src, s.dst, mac, now);
    }
  }

  lemma Entered(table: seq<Node>, src: Ip, dst: Ip, mac: Mac, now: int)
    requires src != dst
    ensures var r := AfterSend(table, src, dst, mac, now);
            var i := InCache(r, dst);
            i >= 0 && r[i] == Node(dst, mac, INCOMPLETE, now)
  {
    var r := AfterSend(table, src, dst, mac, now);
    var i := InCache(table, dst);
    InCacheIsFirst(table, dst);
    InCacheIsFirst(r, dst);
    var j := if i >= 0 then i else |table|;
    assert r[j].ip == dst;
    assert forall k :: 0 <= k < j ==> r[k] == table[k];
  }

  /** Selecting announces the addresses that the adapters reported, and not those that the fields
      held and that become the host's own: the two are the same if and only if the fields already
      held what the adapters report. */
  lemma AnnouncesOwnAddress(s: State, outer: Adapter, inner: Adapter)
    requires Inv(s) && s.controls.combo && Accepts(s)
    ensures var r := AfterSelect(s, outer, inner);
            var n := |s.sent|;
            && |r.sent| == n + 2 && r.sent[n].iosel == OUTER && r.sent[n + 1].iosel == INNER
            && (r.sent[n].header.src == r.myip[OUTER] <==> s.src == outer.ip)
            && (r.sent[n + 1].header.src == r.myip[INNER] <==> s.src2 == inner.ip)
  {
    assert AfterSelect(s, outer, inner).myip == [s.src2, s.src];
  }

  // Neither an adapter is chosen nor a source address typed.
  predicate LeavesFields(e: Event) {
    !e.Choose? && !e.Choose2? && !e.TypeSrc? && !e.TypeSrc2? && !e.Select?
  }

  lemma {:induction false} FieldsKept(s: State, es: seq<Event>)
    requires Inv(s) && PossibleRun(s, es) && forall k :: 0 <= k < |es| ==> LeavesFields(es[k])
    ensures var t := Exec(s, es);
            t.mac == s.mac && t.src == s.src && t.src2 == s.src2 && t.controls == s.controls
    decreases |es|
  {
    if es != [] {
      NextKeepsInv(s, es[0]);
      assert LeavesFields(es[0]);
      FieldsKept(Next(s, es[0]), es[1..]);
    }
  }

  function OwnAnnouncements(myip: seq<Ip>): seq<Sending>
    requires |myip| == 2
  {
    [Sending(OUTER, Header(myip[OUTER], myip[OUTER]), 0, false),
     Sending(INNER, Header(myip[INNER], myip[INNER]), 0, false)]
  }

  // Selecting from fields that hold what the adapters report.
  ghost predicate AnnouncesOwn(t: State, outer: Adapter, inner: Adapter) {
    var r := AfterSelect(t, outer, inner);
    && |r.myip| == 2 && (Accepts(t) <==> r.controls.dst)
    && r.sent == t.sent + if Accepts(t) then OwnAnnouncements(r.myip) else []
  }

  lemma SelectAnnouncesOwn(t: State, outer: Adapter, inner: Adapter)
    requires Inv(t) && t.controls.combo && t.src == outer.ip && t.src2 == inner.ip
    ensures AnnouncesOwn(t, outer, inner)
  {
    assert t.sent + [] == t.sent;
  }

  /** Over runs: if the adapters are chosen, and no source address is typed and no other adapter
      chosen before Select, then Select accepts them if and only if the outer one has a hardware
      address and an IP address, and both announcements are of the host's own addresses. */
  lemma ChoosingThenSelecting(s: State, outer: Adapter, inner: Adapter, es: seq<Event>)
    requires Inv(s) && s.controls.combo && PossibleRun(s, es)
    requires |es| >= 2 && es[0] == Choose(outer) && es[1] == Choose2(inner)
    requires forall k :: 2 <= k < |es| ==> LeavesFields(es[k])
    ensures Accepts(Exec(s, es)) <==> outer.mac != DEFAULT_EDIT_TEXT && outer.ip != NO_ADDRESS
    ensures AnnouncesOwn(Exec(s, es), outer, inner)
  {
    ChosenFields(s, outer, inner, es);
    RunKeepsInv(s, es);
    SelectAnnouncesOwn(Exec(s, es), outer, inner);
  }

  lemma ChosenFields(s: State, outer: Adapter, inner: Adapter, es: seq<Event>)
    requires Inv(s) && s.controls.combo && PossibleRun(s, es)
    requires |es| >= 2 && es[0] == Choose(outer) && es[1] == Choose2(inner)
    requires forall k :: 2 <= k < |es| ==> LeavesFields(es[k])
    ensures var t := Exec(s, es);
            t.mac == outer.mac && t.src == outer.ip && t.src2 == inner.ip && t.controls == s.controls
  {
    var s1 := Next(s, es[0]);
    NextKeepsInv(s, es[0]);
    var s2 := Next(s1, es[1]);
    NextKeepsInv(s1, es[1]);
    assert es[1..][0] == es[1] && es[1..][1..] == es[2..];
    assert forall k :: 0 <= k < |es[2..]| ==> es[2..][k] == es[k + 2];
    FieldsKept(s2, es[2..]);
  }

  // ---- The code ----

  class IpLayer {
    const under: ArpLayer
    var headers: Headers
    ghost var sent: seq<Sending>

    constructor (arp: ArpLayer)
      ensures under == arp && sent == []
      ensures headers == [NO_HEADER, NO_HEADER]
    {
      under, sent := arp, [];
      headers := [NO_HEADER, NO_HEADER];
    }

    method SetSourceAddress(ip: Ip, iosel: nat)
      requires iosel < 2
      modifies this`headers
      ensures headers == old(headers)[iosel := Header(ip, old(headers)[iosel].dst)]
    {
      headers := headers[iosel := headers[iosel].(src := ip)];
    }

    method SetDestinAddress(ip: Ip, iosel: nat)
      requires iosel < 2
      modifies this`headers
      ensures headers == old(headers)[iosel := Header(old(headers)[iosel].src, ip)]
    {
      headers := headers[iosel := headers[iosel].(dst := ip)];
    }

    method Send(iosel: nat, ghost choosing: bool, now: int)
      requires iosel < 2 && under.Valid()
      modifies this`sent, under`table
      ensures var h := headers[iosel];
              && under.table == AfterSend(old(under.table), h.src, h.dst, Broadcast(under.isGarp), now)
              && sent == old(sent) + [Sending(iosel, h, under.isGarp, choosing)]
    {
      under.Send(headers[iosel].src, headers[iosel].dst, now);
      sent := sent + [Sending(iosel, headers[iosel], under.isGarp, choosing)];
    }

    // The next hop is what Routing finds in its table.
    method Receive(iosel: nat, header: Header, hop: Option<Hop>, now: int)
      requires iosel < 2 && under.Valid() && (hop.Some? ==> hop.value.out < 2)
      modifies this`headers, under`table
      ensures headers == old(headers)[iosel := header]
      ensures under.table == if hop.None? then old(under.table)
                             else AfterRSend(old(under.table), under.myip[hop.value.out], hop.value.gateway,
                                             under.isGarp, now)
    {
      SetSourceAddress(header.src, iosel);
      SetDestinAddress(header.dst, iosel);
      if hop.Some? {
        under.RSend(hop.value.gateway, hop.value.out, now);
      }
    }
  }

  datatype Message = NoMessage | SelectTableFirst | SelectOtherAdapter | InvalidAddress | SetAdapterFirst

  lemma NoAddressText()
    ensures FormatIp(NO_ADDRESS) == "0.0.0.0"
  {
    assert Decimal(0) == "0";
    assert Dotted([0]) == "0";
    assert Dotted([0, 0]) == "0.0" by {
      assert [0, 0][1..] == [0];
    }
    assert Dotted([0, 0, 0]) == "0.0.0" by {
      assert [0, 0, 0][1..] == [0, 0];
    }
    assert NO_ADDRESS[1..] == [0, 0, 0];
  }

  class ArpDialog {
    const arp: ArpLayer
    const ip: IpLayer
    var rows: seq<Row>
    var comboOn: bool
    var srcOn: bool
    var combo2On: bool
    var src2On: bool
    var dstOn: bool
    var timerOn: bool
    var canRead: bool
    var mac: string
    var src: Ip
    var src2: Ip
    var dst: Ip

    ghost predicate Valid()
      reads this, arp, ip
    {
      arp.Valid() && ip.under == arp
    }

    ghost function ControlsNow(): Controls
      reads this
    {
      Controls(comboOn, srcOn, combo2On, src2On, dstOn, timerOn, canRead)
    }

    ghost function Abstract(): State
      reads this, arp, ip
    {
      State(ControlsNow(), mac, src, src2, dst, ip.headers, ip.sent, arp.table, arp.isGarp, arp.myip, rows)
    }

    // The dialog template enables everything but the destination field.
    constructor (mac: string, src: Ip, src2: Ip)
      ensures Valid() && fresh(arp) && fresh(ip) && Inv(Abstract())
      ensures !dstOn && rows == []
    {
      var a := new ArpLayer();
      var i := new IpLayer(a);
      arp, ip := a, i;
      rows := [];
      comboOn, srcOn, combo2On, src2On, dstOn, timerOn, canRead := true, true, true, true, false, false, false;
      this.mac, this.src, this.src2, this.dst := mac, src, src2, NO_ADDRESS;
    }

    method UpdateTable(now: int)
      requires Valid()
      modifies this`rows, arp`table
      ensures Valid() && Abstract() == AfterUpdate(old(Abstract()), now)
    {
      arp.UpdateTable(now);
      var table := arp.table;
      ghost var before, es := rows, Entries(table);
      var i := 0;
      while i < |table|
        invariant i <= |table| && arp.table == table && rows == ShowTo(before, es, i)
      {
        var e := EntryOf(table[i]);
        assert e == es[i];
        ShowInRow(e);
        i := i + 1;
      }
    }

    // One round of the loop.
    method ShowInRow(e: Entry)
      modifies this`rows
      ensures rows == ShowEntry(old(rows), e)
    {
      var fi := FindRow(e.ip);
      FindItemIsFirst(rows, e.ip);
      if fi == -1 {
        fi := |rows|;
        rows := rows + [Row(e.ip, "", "")];
      }
      rows := rows[fi := rows[fi].(mac := e.mac)];
      rows := rows[fi := rows[fi].(status := StatusText(e.status, rows[fi].status))];
      assert fi == |old(rows)| ==> rows == old(rows) + [Row(e.ip, e.mac, StatusText(e.status, ""))];
    }

    method FindRow(text: string) returns (fi: int)
      ensures fi == FindItem(rows, text)
    {
      fi := 0;
      while fi < |rows|
        invariant 0 <= fi <= |rows| && forall k :: 0 <= k < fi ==> rows[k].ip != text
      {
        if rows[fi].ip == text {
          FindItemIsFirst(rows, text);
          return;
        }
        fi := fi + 1;
      }
      FindItemIsFirst(rows, text);
      fi := -1;
    }

    method ItemDel(mark: int) returns (message: Message)
      requires Valid()
      requires 0 <= mark ==> mark < |rows| && InCache(arp.table, ParseIp(rows[mark].ip)) >= 0
      modifies this`rows, arp`table
      ensures Valid() && Abstract() == AfterItemDel(old(Abstract()), mark)
      ensures message == if mark < 0 then SelectTableFirst else NoMessage
    {
      if mark < 0 {
        return SelectTableFirst;
      }
      arp.DeleteItem(rows[mark].ip);
      rows := [];
      message := NoMessage;
    }

    method AllDel()
      requires Valid()
      modifies this`rows, arp`table
      ensures Valid() && Abstract() == old(Abstract()).(table := [], rows := [])
    {
      arp.ClearTable();
      rows := [];
    }

    method SetADDR(address: Ip, iosel: nat)
      requires Valid() && iosel < 2
      modifies ip`headers, arp`myip
      ensures Valid() && arp.myip == old(arp.myip)[iosel := address]
      ensures ip.headers == old(ip.headers)[iosel := Header(address, address)]
    {
      arp.SetMyAddr(FormatIp(address), iosel);
      FormatParses(address);
      ip.SetSourceAddress(address, iosel);
      ip.SetDestinAddress(address, iosel);
    }

    method Choose(adapter: Adapter)
      modifies this`mac, this`src
      ensures mac == adapter.mac && src == adapter.ip
    {
      mac, src := adapter.mac, adapter.ip;
    }

    method Choose2(adapter: Adapter)
      modifies this`src2
      ensures src2 == adapter.ip
    {
      src2 := adapter.ip;
    }

    method Select(outer: Adapter, inner: Adapter, now: int) returns (message: Message)
      requires Valid()
      modifies this, ip, arp
      ensures Valid() && Abstract() == AfterSelect(old(Abstract()), outer, inner)
      ensures message == if old(comboOn && !Accepts(Abstract())) then SelectOtherAdapter else NoMessage
    {
      message := NoMessage;
      if comboOn {
        var ip2, ip1, mac1 := src2, src, mac;
        Choose(outer);
        Choose2(inner);
        var ipText := FormatIp(ip1);
        NoAddressText();
        FormatInjective(ip1, NO_ADDRESS);
        if mac1 != DEFAULT_EDIT_TEXT && ipText != "0.0.0.0" {
          StartSession(ip2, ip1, now);
        } else {
          message := SelectOtherAdapter;
        }
      } else {
        SwitchControls(false);
      }
    }

    // The widgets, the timer and Receiveflip in either branch.
    method SwitchControls(on: bool)
      modifies this`comboOn, this`srcOn, this`combo2On, this`src2On, this`dstOn, this`timerOn, this`canRead
      ensures ControlsNow() == Session(on, !old(canRead)) && canRead == !old(canRead)
      ensures dstOn == timerOn == on && comboOn == srcOn == combo2On == src2On == !on
    {
      comboOn, srcOn := !on, !on;
      combo2On, src2On := !on, !on;
      dstOn, canRead, timerOn := on, !canRead, on;
    }

    // The branch of Select that accepts the adapters.
    method StartSession(ip2: Ip, ip1: Ip, now: int)
      requires Valid()
      modifies this, ip, arp
      ensures Valid()
      ensures var s := old(Abstract());
              Abstract() == AfterGarp(s.(controls := Session(true, !s.controls.canRead), myip := [ip2, ip1]))
    {
      SwitchControls(true);
      SetADDR(ip2, INNER);
      SetADDR(ip1, OUTER);
      assert arp.myip == [ip2, ip1];
      GArpSend(now);
    }

    // The sum tells exactly the two addresses that cannot be asked for.
    static method SumOfBytes(ip: Ip) returns (check: nat)
      ensures check != 0 && check != 255 * 4 <==> CanBeAsked(ip)
    {
      check := 0;
      for i := 0 to |ip|
        invariant 0 <= check <= 255 * i
        invariant check == 0 <==> forall k :: 0 <= k < i ==> ip[k] == 0
        invariant check == 255 * i <==> forall k :: 0 <= k < i ==> ip[k] == 255
      {
        check := check + ip[i];
      }
      assert check == 0 <==> ip == NO_ADDRESS;
      assert check == 255 * 4 <==> ip == ALL_HOSTS;
    }

    method SendArp(now: int) returns (message: Message)
      requires Valid()
      modifies ip, arp`table
      ensures Valid() && Abstract() == AfterSendArp(old(Abstract()), now)
      ensures message == if !dstOn || comboOn then SetAdapterFirst
                         else if CanBeAsked(dst) then NoMessage else InvalidAddress
    {
      if dstOn && !comboOn {
        ip.SetSourceAddress(src2, INNER);
        ip.SetSourceAddress(src, OUTER);
        ip.SetDestinAddress(dst, INNER);
        ip.SetDestinAddress(dst, OUTER);
        assert ip.headers == [Header(src2, dst), Header(src, dst)];
        var check := SumOfBytes(dst);
        if check == 0 || check == 255 * 4 {
          return InvalidAddress;
        }
        ip.Send(INNER, comboOn, now);
        ip.Send(OUTER, comboOn, now);
        message := NoMessage;
      } else {
        message := SetAdapterFirst;
      }
    }

    method GArpSend(now: int)
      requires Valid()
      modifies ip, arp`isGarp, arp`table
      ensures Valid() && Abstract() == AfterGarp(old(Abstract()))
    {
      arp.IsGarp(true);
      ip.SetDestinAddress(src, OUTER);
      ip.SetSourceAddress(src, OUTER);
      ip.Send(OUTER, comboOn, now);
      ip.SetDestinAddress(src2, INNER);
      ip.SetSourceAddress(src2, INNER);
      ip.Send(INNER, comboOn, now);
      arp.IsGarp(false);
    }
  }
}
