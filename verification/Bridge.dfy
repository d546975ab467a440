/** The two forwarding threads of the user-level bridge as interleaved steps
    (Examples-remote/UserLevelBridge/UserBridge.c). What the capture library returns and when
    CTRL+C arrives is part of the schedule. */
module Bridge {
  import opened Options
  import opened Text

  type Packet = seq<Byte>
  type Tid = i: nat | i < 2

  // The adapters a thread reads from and sends to (the couples that main sets up).
  function Input(i: Tid): Tid {
    i
  }

  function Output(i: Tid): Tid {
    1 - i
  }

  // Where a thread stands in CaptureAndForwardThread.
  datatype Pc =
    | Test        // about to test kill_forwaders
    | Read        // in pcap_next_ex
    | WantPrint   // at the first EnterCriticalSection
    | Printing    // at the "Len" printf
    | Printed     // at the LeaveCriticalSection after it
    | Sending     // in pcap_sendpacket
    | Counting    // at n_fwd++
    | WantError   // at the EnterCriticalSection of the failure branch
    | Reporting   // at its printf
    | Reported    // at its LeaveCriticalSection
    | WantFinal   // at the EnterCriticalSection after the loop
    | Finishing   // at the printf after the loop
    | Finished    // at the last LeaveCriticalSection
    | Done

  // What a thread prints.
  datatype Msg =
    | Len(who: Tid, caplen: nat)
    | SendError(who: Tid, caplen: nat)
    | CaptureError(who: Tid)
    | End(who: Tid, forwarded: nat)

  // res and n_fwd are the thread's variables; pkt is the packet of the last read. outcomes
  // records whether sending each packet succeeded.
  datatype Thread = Thread(pc: Pc, res: int, pkt: Packet, nFwd: nat, outcomes: seq<bool>)

  // rx and tx are what each adapter has delivered and what it has been sent.
  datatype State = State(kill: bool, lock: Option<Tid>, threads: seq<Thread>, console: seq<Msg>,
                         rx: seq<seq<Packet>>, tx: seq<seq<Packet>>)

  // What the environment decides: the result of a read, of a send, or nothing.
  datatype Event = ReadReturns(res: int, pkt: Packet) | SendReturns(ok: bool) | Silent

  // ---- One step of one thread ----

  datatype Effect = Effect(t: Thread, lock: Option<Tid>, says: seq<Msg>, gets: seq<Packet>, sends: seq<Packet>)

  function Move(t: Thread, pc: Pc, lock: Option<Tid>): Option<Effect> {
    Some(Effect(t.(pc := pc), lock, [], [], []))
  }

  function Enter(i: Tid, t: Thread, pc: Pc, lock: Option<Tid>): Option<Effect> {
    if lock == None then Move(t, pc, Some(i)) else None
  }

  function Say(t: Thread, pc: Pc, lock: Option<Tid>, m: Msg): Option<Effect> {
    Some(Effect(t.(pc := pc), lock, [m], [], []))
  }

  function Local(i: Tid, t: Thread, kill: bool, lock: Option<Tid>, ev: Event): Option<Effect> {
    match t.pc
    case Test => if ev.Silent? then Move(t, if kill then WantFinal else Read, lock) else None
    case Read =>
      if !ev.ReadReturns? then None
      else if ev.res < 0 then Move(t.(res := ev.res), WantFinal, lock)
      else if ev.res == 0 then Move(t.(res := 0), Test, lock)
      else Some(Effect(t.(pc := WantPrint, res := ev.res, pkt := ev.pkt), lock, [], [ev.pkt], []))
    case WantPrint => if ev.Silent? then Enter(i, t, Printing, lock) else None
    case Printing => if ev.Silent? then Say(t, Printed, lock, Len(i, |t.pkt|)) else None
    case Printed => if ev.Silent? then Move(t, Sending, None) else None
    case Sending =>
      if !ev.SendReturns? then None
      else Some(Effect(t.(pc := if ev.ok then Counting else WantError, outcomes := t.outcomes + [ev.ok]),
                       lock, [], [], if ev.ok then [t.pkt] else []))
    case Counting => if ev.Silent? then Move(t.(nFwd := U32(t.nFwd + 1)), Test, lock) else None
    case WantError => if ev.Silent? then Enter(i, t, Reporting, lock) else None
    case Reporting => if ev.Silent? then Say(t, Reported, lock, SendError(i, |t.pkt|)) else None
    case Reported => if ev.Silent? then Move(t, Test, None) else None
    case WantFinal => if ev.Silent? then Enter(i, t, Finishing, lock) else None
    case Finishing =>
      if ev.Silent? then Say(t, Finished, lock, if t.res < 0 then CaptureError(i) else End(i, t.nFwd)) else None
    case Finished => if ev.Silent? then Move(t, Done, None) else None
    case Done => None
  }

  predicate Shape(s: State) {
    |s.threads| == |s.rx| == |s.tx| == 2
  }

  function Step(s: State, i: Tid, ev: Event): (r: Option<State>)
    requires Shape(s)
    ensures r.Some? ==> Shape(r.value)
  {
    var e := Local(i, s.threads[i], s.kill, s.lock, ev);
    if e == None then None else
      var Effect(t, lock, says, gets, sends) := e.value;
      Some(State(s.kill, lock, s.threads[i := t], s.console + says,
                 s.rx[Input(i) := s.rx[Input(i)] + gets], s.tx[Output(i) := s.tx[Output(i)] + sends]))
  }

  // ctrlc_handler sets the flag; a thread steps.
  datatype Action = CtrlC | Act(i: Tid, ev: Event)

  function Next(s: State, a: Action): (r: Option<State>)
    requires Shape(s)
    ensures r.Some? ==> Shape(r.value)
  {
    match a
    case CtrlC => Some(s.(kill := true))
    case Act(i, ev) => Step(s, i, ev)
  }

  function Start(): State {
    var t := Thread(Test, 0, [], 0, []);
    State(false, None, [t, t], [], [[], []], [[], []])
  }

  function Exec(s: State, actions: seq<Action>): (r: Option<State>)
    requires Shape(s)
    ensures r.Some? ==> Shape(r.value)
  {
    if actions == [] then Some(s) else
      var r := Exec(s, actions[..|actions| - 1]);
      if r == None then None else Next(r.value, actions[|actions| - 1])
  }

  // ---- What must hold ----

  // The packets whose sending succeeded, in the order they were read.
  function Delivered(got: seq<Packet>, outcomes: seq<bool>): seq<Packet>
    requires |outcomes| <= |got|
    decreases |outcomes|
  {
    if outcomes == [] then [] else
      var n := |outcomes| - 1;
      Delivered(got, outcomes[..n]) + if outcomes[n] then [got[n]] else []
  }

  // What is printed for the packets whose outcome is known.
  function Script(i: Tid, got: seq<Packet>, outcomes: seq<bool>): seq<Msg>
    requires |outcomes| <= |got|
    decreases |outcomes|
  {
    if outcomes == [] then [] else
      var n := |outcomes| - 1;
      Script(i, got, outcomes[..n]) + [Len(i, |got[n]|)] + if outcomes[n] then [] else [SendError(i, |got[n]|)]
  }

  predicate InHand(pc: Pc) {
    pc == WantPrint || pc == Printing || pc == Printed || pc == Sending
  }

  predicate Holding(pc: Pc) {
    pc == Printing || pc == Printed || pc == Reporting || pc == Reported || pc == Finishing || pc == Finished
  }

  // What a thread has printed, given where it stands.
  ghost predicate Said(i: Tid, t: Thread, log: seq<Msg>, rx: seq<Packet>)
    requires |t.outcomes| <= |rx|
  {
    var full := Script(i, rx, t.outcomes);
    match t.pc
    case Printed => log == full + [Len(i, |t.pkt|)]
    case Sending => log == full + [Len(i, |t.pkt|)]
    case WantError => log + [SendError(i, |t.pkt|)] == full
    case Reporting => log + [SendError(i, |t.pkt|)] == full
    case Finished => log == full + [if t.res < 0 then CaptureError(i) else End(i, t.nFwd)]
    case Done => log == full + [if t.res < 0 then CaptureError(i) else End(i, t.nFwd)]
    case _ => log == full
  }

  ghost predicate LocalInv(i: Tid, t: Thread, log: seq<Msg>, rx: seq<Packet>, tx: seq<Packet>) {
    && |rx| == |t.outcomes| + (if InHand(t.pc) then 1 else 0)
    && (InHand(t.pc) || t.pc == WantError || t.pc == Reporting ==> rx != [] && t.pkt == rx[|rx| - 1])
    && tx == Delivered(rx, t.outcomes)
    && t.nFwd == U32(|tx| - if t.pc == Counting then 1 else 0)
    && (t.pc == Counting ==> tx != [])
    && Said(i, t, log, rx)
  }

  lemma {:induction false} MoreReads(i: Tid, got: seq<Packet>, outcomes: seq<bool>, p: Packet)
    requires |outcomes| <= |got|
    ensures Delivered(got + [p], outcomes) == Delivered(got, outcomes)
    ensures Script(i, got + [p], outcomes) == Script(i, got, outcomes)
    decreases |outcomes|
  {
    if outcomes != [] {
      MoreReads(i, got, outcomes[..|outcomes| - 1], p);
    }
  }

  lemma OneMoreOutcome(i: Tid, got: seq<Packet>, outcomes: seq<bool>, ok: bool)
    requires |outcomes| < |got|
    ensures Delivered(got, outcomes + [ok]) == Delivered(got, outcomes) + if ok then [got[|outcomes|]] else []
    ensures Script(i, got, outcomes + [ok]) == Script(i, got, outcomes)
              + [Len(i, |got[|outcomes|]|)] + if ok then [] else [SendError(i, |got[|outcomes|]|)]
  {
    assert (outcomes + [ok])[..|outcomes|] == outcomes;
  }

  lemma CountWraps(n: nat)
    ensures U32(U32(n) + 1) == U32(n + 1)
  {
    var q := n / TWO32;
    assert U32(n) == n - q * TWO32;
    assert (n + 1) % TWO32 == (n + 1 - q * TWO32) % TWO32;
  }

  // One step keeps the thread's invariant.
  ghost predicate Keeps(i: Tid, t: Thread, e: Option<Effect>, log: seq<Msg>, rx: seq<Packet>, tx: seq<Packet>) {
    LocalInv(i, t, log, rx, tx) && e.Some? ==>
      LocalInv(i, e.value.t, log + e.value.says, rx + e.value.gets, tx + e.value.sends)
  }

  lemma NothingSaid<T>(log: seq<T>)
    ensures log + [] == log
  {
  }

  lemma ReadKeeps(i: Tid, t: Thread, kill: bool, lock: Option<Tid>, ev: Event,
                  log: seq<Msg>, rx: seq<Packet>, tx: seq<Packet>)
    requires t.pc == Read
    ensures Keeps(i, t, Local(i, t, kill, lock, ev), log, rx, tx)
  {
    NothingSaid(log);
    NothingSaid(rx);
    NothingSaid(tx);
    if LocalInv(i, t, log, rx, tx) && ev.ReadReturns? && ev.res > 0 {
      MoreReads(i, rx, t.outcomes, ev.pkt);
    }
  }

  // What a send that succeeds, a send that fails and the count change.
  lemma SentKeeps(i: Tid, t: Thread, log: seq<Msg>, rx: seq<Packet>, tx: seq<Packet>)
    requires t.pc == Sending && LocalInv(i, t, log, rx, tx)
    ensures LocalInv(i, t.(pc := Counting, outcomes := t.outcomes + [true]), log, rx, tx + [t.pkt])
  {
    OneMoreOutcome(i, rx, t.outcomes, true);
    NothingSaid(log);
  }

  lemma FailedKeeps(i: Tid, t: Thread, log: seq<Msg>, rx: seq<Packet>, tx: seq<Packet>)
    requires t.pc == Sending && LocalInv(i, t, log, rx, tx)
    ensures LocalInv(i, t.(pc := WantError, outcomes := t.outcomes + [false]), log, rx, tx)
  {
    OneMoreOutcome(i, rx, t.outcomes, false);
    NothingSaid(tx);
  }

  lemma CountedKeeps(i: Tid, t: Thread, log: seq<Msg>, rx: seq<Packet>, tx: seq<Packet>)
    requires t.pc == Counting && LocalInv(i, t, log, rx, tx)
    ensures LocalInv(i, t.(pc := Test, nFwd := U32(t.nFwd + 1)), log, rx, tx)
  {
    CountWraps(|tx| - 1);
  }

  lemma SendKeeps(i: Tid, t: Thread, kill: bool, lock: Option<Tid>, ev: Event,
                  log: seq<Msg>, rx: seq<Packet>, tx: seq<Packet>)
    requires t.pc == Sending
    ensures Keeps(i, t, Local(i, t, kill, lock, ev), log, rx, tx)
  {
    NothingSaid(log);
    NothingSaid(rx);
    NothingSaid(tx);
    if LocalInv(i, t, log, rx, tx) {
      SentKeeps(i, t, log, rx, tx);
      FailedKeeps(i, t, log, rx, tx);
    }
  }

  lemma CountKeeps(i: Tid, t: Thread, kill: bool, lock: Option<Tid>, ev: Event,
                   log: seq<Msg>, rx: seq<Packet>, tx: seq<Packet>)
    requires t.pc == Counting
    ensures Keeps(i, t, Local(i, t, kill, lock, ev), log, rx, tx)
  {
    NothingSaid(log);
    NothingSaid(rx);
    NothingSaid(tx);
    if LocalInv(i, t, log, rx, tx) {
      CountedKeeps(i, t, log, rx, tx);
    }
  }

  lemma PrintKeeps(i: Tid, t: Thread, kill: bool, lock: Option<Tid>, ev: Event,
                  log: seq<Msg>, rx: seq<Packet>, tx: seq<Packet>)
    requires t.pc == Printing || t.pc == Reporting || t.pc == Finishing
    ensures Keeps(i, t, Local(i, t, kill, lock, ev), log, rx, tx)
  {
    NothingSaid(rx);
    NothingSaid(tx);
  }

  lemma QuietKeeps(i: Tid, t: Thread, kill: bool, lock: Option<Tid>, ev: Event,
                  log: seq<Msg>, rx: seq<Packet>, tx: seq<Packet>)
    requires t.pc != Read && t.pc != Sending && t.pc != Counting
    requires t.pc != Printing && t.pc != Reporting && t.pc != Finishing
    ensures Keeps(i, t, Local(i, t, kill, lock, ev), log, rx, tx)
  {
    NothingSaid(log);
    NothingSaid(rx);
    NothingSaid(tx);
  }

  lemma LocalStep(i: Tid, t: Thread, kill: bool, lock: Option<Tid>, ev: Event,
                  log: seq<Msg>, rx: seq<Packet>, tx: seq<Packet>)
    ensures Keeps(i, t, Local(i, t, kill, lock, ev), log, rx, tx)
  {
    match t.pc
    case Read => ReadKeeps(i, t, kill, lock, ev, log, rx, tx);
    case Sending => SendKeeps(i, t, kill, lock, ev, log, rx, tx);
    case Counting => CountKeeps(i, t, kill, lock, ev, log, rx, tx);
    case Printing => PrintKeeps(i, t, kill, lock, ev, log, rx, tx);
    case Reporting => PrintKeeps(i, t, kill, lock, ev, log, rx, tx);
    case Finishing => PrintKeeps(i, t, kill, lock, ev, log, rx, tx);
    case _ => QuietKeeps(i, t, kill, lock, ev, log, rx, tx);
  }

  // ---- The whole bridge ----

  // The messages of one thread, in the order in which they appear on the console.
  function Own(console: seq<Msg>, i: Tid): seq<Msg> {
    if console == [] then [] else
      var n := |console| - 1;
      Own(console[..n], i) + if console[n].who == i then [console[n]] else []
  }

  // What each thread knows holds, and the lock is held by exactly the thread that stands
  // between its Enter and its Leave.
  ghost predicate Inv(s: State) {
    && Shape(s)
    && (forall i: Tid :: LocalInv(i, s.threads[i], Own(s.console, i), s.rx[Input(i)], s.tx[Output(i)]))
    && (forall i: Tid :: s.lock == Some(i) <==> Holding(s.threads[i].pc))
  }

  lemma {:induction false} OwnAppend(console: seq<Msg>, says: seq<Msg>, i: Tid)
    ensures Own(console + says, i) == Own(console, i) + Own(says, i)
    decreases |says|
  {
    if says == [] {
      assert console + says == console;
    } else {
      var n := |says| - 1;
      assert (console + says)[..|console| + n] == console + says[..n];
      OwnAppend(console, says[..n], i);
    }
  }

  lemma OwnSaid(i: Tid, j: Tid, t: Thread, kill: bool, lock: Option<Tid>, ev: Event)
    requires Local(i, t, kill, lock, ev).Some?
    ensures var says := Local(i, t, kill, lock, ev).value.says; Own(says, j) == if i == j then says else []
  {
    var says := Local(i, t, kill, lock, ev).value.says;
    if says != [] {
      assert says[..0] == [] && says == [says[0]] && says[0].who == i;
    }
  }

  lemma LockStep(i: Tid, t: Thread, kill: bool, lock: Option<Tid>, ev: Event)
    requires Local(i, t, kill, lock, ev).Some? && (lock == Some(i) <==> Holding(t.pc))
    ensures var e := Local(i, t, kill, lock, ev).value;
            && (e.lock == Some(i) <==> Holding(e.t.pc))
            && (lock.Some? && lock.value != i ==> e.lock == lock)
            && (lock == None || lock == Some(i) ==> e.lock == None || e.lock == Some(i))
  {
  }

  lemma StepKeepsInv(s: State, i: Tid, ev: Event)
    requires Inv(s) && Step(s, i, ev).Some?
    ensures Inv(Step(s, i, ev).value)
  {
    var t, s' := s.threads[i], Step(s, i, ev).value;
    var e := Local(i, t, s.kill, s.lock, ev).value;
    LockStep(i, t, s.kill, s.lock, ev);
    LocalStep(i, t, s.kill, s.lock, ev, Own(s.console, i), s.rx[Input(i)], s.tx[Output(i)]);
    forall j: Tid
      ensures LocalInv(j, s'.threads[j], Own(s'.console, j), s'.rx[Input(j)], s'.tx[Output(j)])
    {
      OwnAppend(s.console, e.says, j);
      OwnSaid(i, j, t, s.kill, s.lock, ev);
      NothingSaid(Own(s.console, j));
    }
  }

  lemma {:induction false} RunKeepsInv(s: State, actions: seq<Action>)
    requires Inv(s) && Exec(s, actions).Some?
    ensures Inv(Exec(s, actions).value)
    decreases |actions|
  {
    if actions != [] {
      var a := actions[|actions| - 1];
      RunKeepsInv(s, actions[..|actions| - 1]);
      if a.Act? {
        StepKeepsInv(Exec(s, actions[..|actions| - 1]).value, a.i, a.ev);
      }
    }
  }

  lemma StartHolds()
    ensures Inv(Start())
  {
    assert forall i: Tid :: Start().threads[i].pc == Test;
  }

  // ---- What the schedule says ----

  // The packets that thread i's reads return, and the results of its sends, in order.
  function PacketsRead(actions: seq<Action>, i: Tid): seq<Packet> {
    if actions == [] then [] else
      var a := actions[|actions| - 1];
      PacketsRead(actions[..|actions| - 1], i) +
      if a.Act? && a.i == i && a.ev.ReadReturns? && a.ev.res > 0 then [a.ev.pkt] else []
  }

  function SendResults(actions: seq<Action>, i: Tid): seq<bool> {
    if actions == [] then [] else
      var a := actions[|actions| - 1];
      SendResults(actions[..|actions| - 1], i) + if a.Act? && a.i == i && a.ev.SendReturns? then [a.ev.ok] else []
  }

  // The result of thread i's last read, 0 before the first.
  function LastRead(actions: seq<Action>, i: Tid): int {
    if actions == [] then 0 else
      var a := actions[|actions| - 1];
      if a.Act? && a.i == i && a.ev.ReadReturns? then a.ev.res else LastRead(actions[..|actions| - 1], i)
  }

  // One step records what its event says and nothing else.
  lemma LocalRecords(i: Tid, t: Thread, kill: bool, lock: Option<Tid>, ev: Event)
    requires Local(i, t, kill, lock, ev).Some?
    ensures var e := Local(i, t, kill, lock, ev).value;
            && e.gets == (if ev.ReadReturns? && ev.res > 0 then [ev.pkt] else [])
            && e.t.outcomes == t.outcomes + (if ev.SendReturns? then [ev.ok] else [])
            && e.t.res == if ev.ReadReturns? then ev.res else t.res
  {
    NothingSaid(t.outcomes);
  }

  // The state's records are what the schedule says.
  ghost predicate Recorded(s: State, actions: seq<Action>, i: Tid)
    requires Shape(s)
  {
    && s.rx[i] == PacketsRead(actions, i) && s.threads[i].outcomes == SendResults(actions, i)
    && s.threads[i].res == LastRead(actions, i) && (s.kill <==> CtrlC in actions)
  }

  lemma ActRecords(s: State, actions: seq<Action>, a: Action, i: Tid)
    requires Shape(s) && Recorded(s, actions, i) && Next(s, a).Some?
    ensures Recorded(Next(s, a).value, actions + [a], i)
  {
    assert (actions + [a])[..|actions|] == actions;
    if a.Act? {
      LocalRecords(a.i, s.threads[a.i], s.kill, s.lock, a.ev);
      NothingSaid(s.rx[i]);
    }
  }

  lemma OneMoreRecord(s: State, actions: seq<Action>, n: nat, i: Tid)
    requires Shape(s) && |actions| == n + 1
    requires Exec(s, actions[..n]).Some? && Recorded(Exec(s, actions[..n]).value, actions[..n], i)
    requires Exec(s, actions).Some?
    ensures Recorded(Exec(s, actions).value, actions, i)
  {
    ActRecords(Exec(s, actions[..n]).value, actions[..n], actions[n], i);
    assert actions[..n] + [actions[n]] == actions;
  }

  lemma {:induction false} RecordsFrom(s: State, actions: seq<Action>, i: Tid)
    requires Shape(s) && Recorded(s, [], i) && Exec(s, actions).Some?
    ensures Recorded(Exec(s, actions).value, actions, i)
    decreases |actions|
  {
    if actions != [] {
      RecordsFrom(s, actions[..|actions| - 1], i);
      OneMoreRecord(s, actions, |actions| - 1, i);
    }
  }

  /** In every run the packets a thread has taken, the results of its sends, the result of its last
      read and the flag are exactly those of the schedule. */
  lemma RunRecords(actions: seq<Action>, i: Tid)
    requires Exec(Start(), actions).Some?
    ensures Recorded(Exec(Start(), actions).value, actions, i)
  {
    RecordsFrom(Start(), actions, i);
  }

  /** A thread that is not done takes every answer it waits for: any result of a read, any result of
      a send; and otherwise it goes on by itself, at an Enter exactly when the lock is free. */
  lemma TakesEveryAnswer(s: State, i: Tid, ev: Event)
    requires Inv(s)
    ensures var pc := s.threads[i].pc;
            Step(s, i, ev).Some? <==>
              if pc == Read then ev.ReadReturns?
              else if pc == Sending then ev.SendReturns?
              else
                && ev.Silent? && pc != Done
                && (pc == WantPrint || pc == WantError || pc == WantFinal ==> s.lock == None)
  {
  }

  // Which of the packets were sent, and where in the order.
  function Count(outcomes: seq<bool>): nat {
    if outcomes == [] then 0 else Count(outcomes[..|outcomes| - 1]) + if outcomes[|outcomes| - 1] then 1 else 0
  }

  lemma {:induction false} CountGrows(outcomes: seq<bool>, k: nat)
    requires k < |outcomes| && outcomes[k]
    ensures Count(outcomes[..k]) < Count(outcomes)
    decreases |outcomes|
  {
    var n := |outcomes| - 1;
    if k < n {
      assert outcomes[..n][..k] == outcomes[..k];
      CountGrows(outcomes[..n], k);
    }
  }

  /** Exactly the packets whose sending succeeded are delivered, each once, in order. */
  lemma {:induction false} DeliveredAt(got: seq<Packet>, outcomes: seq<bool>, k: nat)
    requires k < |outcomes| <= |got|
    ensures |Delivered(got, outcomes)| == Count(outcomes)
    ensures outcomes[k] ==>
              Count(outcomes[..k]) < Count(outcomes) && Delivered(got, outcomes)[Count(outcomes[..k])] == got[k]
    decreases |outcomes|
  {
    var n := |outcomes| - 1;
    if n > 0 {
      DeliveredAt(got, outcomes[..n], if k < n then k else 0);
    }
    if outcomes[k] {
      CountGrows(outcomes, k);
    }
    if k < n {
      assert outcomes[..n][..k] == outcomes[..k];
      if outcomes[k] {
        CountGrows(outcomes[..n], k);
      }
    }
  }

  // What is true of thread i, and of the adapter it sends to, after a run in which its reads
  // returned the packets got, the last of them with the result res, and its sends the results oks.
  ghost predicate Forwarded(s: State, i: Tid, got: seq<Packet>, oks: seq<bool>, res: int)
    requires Shape(s)
  {
    var t, tx, said := s.threads[i], s.tx[1 - i], Own(s.console, i);
    && |oks| <= |got| <= |oks| + 1
    && (|got| == |oks| + 1 <==> InHand(t.pc))
    && tx == Delivered(got, oks)
    && (t.pc != Counting ==> t.nFwd == U32(|tx|))
    && (t.pc == Test || t.pc == Read || t.pc == WantFinal ==> said == Script(i, got, oks))
    && (t.pc == Sending ==> said == Script(i, got, oks) + [Len(i, |got[|oks|]|)])
    && (t.pc == Done ==> said == Script(i, got, oks) + [if res < 0 then CaptureError(i) else End(i, U32(|tx|))])
  }

  /** In every reachable state the adapter a thread sends to has been sent, in order, exactly those
      packets that the thread's reads returned and whose sending succeeded, as the schedule has them;
      at most one packet is in hand; n_fwd counts them modulo 2^32; and the thread has printed one
      line per packet before sending it, one more per failure, and the closing line when it is done. */
  lemma BridgeForwards(actions: seq<Action>, i: Tid)
    requires Exec(Start(), actions).Some?
    ensures Forwarded(Exec(Start(), actions).value, i,
                      PacketsRead(actions, i), SendResults(actions, i), LastRead(actions, i))
  {
    StartHolds();
    RunKeepsInv(Start(), actions);
    RunRecords(actions, i);
    InvForwards(Exec(Start(), actions).value, i);
  }

  lemma InvForwards(s: State, i: Tid)
    requires Inv(s)
    ensures Forwarded(s, i, s.rx[i], s.threads[i].outcomes, s.threads[i].res)
  {
    assert Input(i) == i && Output(i) == 1 - i;
    assert LocalInv(i, s.threads[i], Own(s.console, i), s.rx[Input(i)], s.tx[Output(i)]);
  }

  /** At most one thread is inside the console section, and never while it reads or sends;
      a thread that is done does not hold the lock. */
  lemma ConsoleIsExclusive(actions: seq<Action>)
    requires Exec(Start(), actions).Some?
    ensures var s := Exec(Start(), actions).value;
            && !(Holding(s.threads[0].pc) && Holding(s.threads[1].pc))
            && forall i: Tid :: s.threads[i].pc == Read || s.threads[i].pc == Sending || s.threads[i].pc == Done
                 ==> s.lock != Some(i)
  {
    StartHolds();
    RunKeepsInv(Start(), actions);
  }

  ghost predicate CanStep(s: State, i: Tid)
    requires Shape(s)
  {
    exists ev :: Step(s, i, ev).Some?
  }

  lemma EventFor(s: State, i: Tid) returns (ev: Event)
    requires Inv(s)
    ensures s.threads[i].pc != Done && (s.lock == None || s.lock == Some(i)) ==> Step(s, i, ev).Some?
  {
    ev := if s.threads[i].pc == Read then ReadReturns(0, [])
          else if s.threads[i].pc == Sending then SendReturns(true) else Silent;
  }

  /** No reachable state is stuck: some thread can step unless both are done. */
  lemma NeverStuck(s: State)
    requires Inv(s)
    ensures (CanStep(s, 0) || CanStep(s, 1)) <==> !(s.threads[0].pc == Done && s.threads[1].pc == Done)
  {
    var i: Tid := if s.lock.Some? then s.lock.value else if s.threads[0].pc != Done then 0 else 1;
    assert s.lock == Some(i) ==> Holding(s.threads[i].pc);
    var ev := EventFor(s, i);
    if !(s.threads[0].pc == Done && s.threads[1].pc == Done) {
      assert Step(s, i, ev).Some?;
      assert CanStep(s, i);
    }
  }

  // ---- After CTRL+C ----

  function ReadsBy(actions: seq<Action>, i: Tid): nat {
    if actions == [] then 0 else
      var a := actions[|actions| - 1];
      ReadsBy(actions[..|actions| - 1], i) + if a.Act? && a.i == i && a.ev.ReadReturns? then 1 else 0
  }

  function SendsBy(actions: seq<Action>, i: Tid): nat {
    if actions == [] then 0 else
      var a := actions[|actions| - 1];
      SendsBy(actions[..|actions| - 1], i) + if a.Act? && a.i == i && a.ev.SendReturns? then 1 else 0
  }

  function StepsOf(actions: seq<Action>, i: Tid): nat {
    if actions == [] then 0 else
      var a := actions[|actions| - 1];
      StepsOf(actions[..|actions| - 1], i) + if a.Act? && a.i == i then 1 else 0
  }

  function MayRead(pc: Pc): nat {
    if pc == Read then 1 else 0
  }

  function MaySend(pc: Pc): nat {
    if pc == Read || InHand(pc) then 1 else 0
  }

  // The steps a thread has left at most once the flag is set.
  function StepsLeft(pc: Pc): nat {
    match pc
    case Read => 12
    case WantPrint => 11
    case Printing => 10
    case Printed => 9
    case Sending => 8
    case WantError => 7
    case Reporting => 6
    case Reported => 5
    case Counting => 5
    case Test => 4
    case WantFinal => 3
    case Finishing => 2
    case Finished => 1
    case Done => 0
  }

  lemma KilledStep(i: Tid, t: Thread, lock: Option<Tid>, ev: Event)
    requires Local(i, t, true, lock, ev).Some?
    ensures var pc := Local(i, t, true, lock, ev).value.t.pc;
            && StepsLeft(pc) < StepsLeft(t.pc)
            && MayRead(pc) + (if ev.ReadReturns? then 1 else 0) <= MayRead(t.pc)
            && MaySend(pc) + (if ev.SendReturns? then 1 else 0) <= MaySend(t.pc)
  {
  }

  lemma {:induction false} KilledRun(s: State, actions: seq<Action>, i: Tid)
    requires Shape(s) && s.kill && Exec(s, actions).Some?
    ensures var s' := Exec(s, actions).value;
            && s'.kill
            && StepsOf(actions, i) + StepsLeft(s'.threads[i].pc) <= StepsLeft(s.threads[i].pc)
            && ReadsBy(actions, i) + MayRead(s'.threads[i].pc) <= MayRead(s.threads[i].pc)
            && SendsBy(actions, i) + MaySend(s'.threads[i].pc) <= MaySend(s.threads[i].pc)
    decreases |actions|
  {
    if actions != [] {
      var before, a := Exec(s, actions[..|actions| - 1]).value, actions[|actions| - 1];
      KilledRun(s, actions[..|actions| - 1], i);
      if a.Act? {
        KilledStep(a.i, before.threads[a.i], before.lock, a.ev);
      }
    }
  }

  /** After CTRL+C, whatever the interleaving: each thread returns from at most one
      more read and at most one more send and takes at most 12 more steps; and when no thread
      can step any more, both are done. */
  lemma BridgeStops(before: seq<Action>, after: seq<Action>, i: Tid)
    requires Exec(Start(), before).Some? && CtrlC in before
    requires Exec(Exec(Start(), before).value, after).Some?
    ensures ReadsBy(after, i) <= 1 && SendsBy(after, i) <= 1 && StepsOf(after, i) <= 12
    ensures var s := Exec(Exec(Start(), before).value, after).value;
            !CanStep(s, 0) && !CanStep(s, 1) ==> s.threads[i].pc == Done
  {
    var s := Exec(Start(), before).value;
    StartHolds();
    RunKeepsInv(Start(), before);
    RunKeepsInv(s, after);
    RunRecords(before, i);
    KilledRun(s, after, i);
    NeverStuck(Exec(s, after).value);
  }

  // ---- Why a thread leaves its loop ----

  predicate LeftLoop(pc: Pc) {
    pc == WantFinal || pc == Finishing || pc == Finished || pc == Done
  }

  predicate Reason(t: Thread, kill: bool) {
    if LeftLoop(t.pc) then t.res < 0 || kill else t.res >= 0
  }

  ghost predicate Reasons(s: State) {
    Shape(s) && forall i: Tid :: Reason(s.threads[i], s.kill)
  }

  lemma ReasonStep(i: Tid, t: Thread, kill: bool, lock: Option<Tid>, ev: Event)
    requires Reason(t, kill) && Local(i, t, kill, lock, ev).Some?
    ensures Reason(Local(i, t, kill, lock, ev).value.t, kill)
  {
  }

  lemma {:induction false} RunKeepsReasons(s: State, actions: seq<Action>)
    requires Reasons(s) && Exec(s, actions).Some?
    ensures Reasons(Exec(s, actions).value)
    decreases |actions|
  {
    if actions != [] {
      RunKeepsReasons(s, actions[..|actions| - 1]);
      var before, a := Exec(s, actions[..|actions| - 1]).value, actions[|actions| - 1];
      if a.Act? {
        ReasonStep(a.i, before.threads[a.i], before.kill, before.lock, a.ev);
      }
    }
  }

  /** A thread leaves its loop only because its last read failed or CTRL+C came; and after a read
      that failed it is out of it. */
  lemma LeavesForAReason(actions: seq<Action>, i: Tid)
    requires Exec(Start(), actions).Some?
    ensures var pc := Exec(Start(), actions).value.threads[i].pc;
            && (LeftLoop(pc) ==> LastRead(actions, i) < 0 || CtrlC in actions)
            && (LastRead(actions, i) < 0 ==> LeftLoop(pc))
  {
    RunRecords(actions, i);
    assert forall j: Tid :: Start().threads[j].res == 0 && Start().threads[j].pc == Test;
    RunKeepsReasons(Start(), actions);
  }

  // ---- The thread as a loop ----

  datatype ReadResult = ReadResult(res: int, pkt: Packet)

  // The packets among the first n reads; a read of 0 is a timeout.
  function Received(reading: nat -> ReadResult, n: nat): seq<Packet> {
    if n == 0 then [] else
      Received(reading, n - 1) + if reading(n - 1).res > 0 then [reading(n - 1).pkt] else []
  }

  // The outcomes of the first k sends.
  function Outcomes(oks: nat -> bool, k: nat): (r: seq<bool>)
    ensures |r| == k
  {
    if k == 0 then [] else Outcomes(oks, k - 1) + [oks(k - 1)]
  }

  // What the thread has sent and printed after n reads.
  function SentAfter(reading: nat -> ReadResult, oks: nat -> bool, n: nat): seq<Packet> {
    var got := Received(reading, n);
    Delivered(got, Outcomes(oks, |got|))
  }

  function PrintedAfter(i: Tid, reading: nat -> ReadResult, oks: nat -> bool, n: nat): seq<Msg> {
    var got := Received(reading, n);
    Script(i, got, Outcomes(oks, |got|))
  }

  lemma OneMoreRead(i: Tid, reading: nat -> ReadResult, oks: nat -> bool, n: nat, ok: bool)
    requires reading(n).res > 0 && ok == oks(|Received(reading, n)|)
    ensures var p := reading(n).pkt;
            && |Received(reading, n + 1)| == |Received(reading, n)| + 1
            && SentAfter(reading, oks, n + 1) == SentAfter(reading, oks, n) + (if ok then [p] else [])
            && PrintedAfter(i, reading, oks, n + 1)
                 == PrintedAfter(i, reading, oks, n) + [Len(i, |p|)] + if ok then [] else [SendError(i, |p|)]
  {
    var got, p := Received(reading, n), reading(n).pkt;
    var outcomes := Outcomes(oks, |got|);
    assert Received(reading, n + 1) == got + [p];
    assert Outcomes(oks, |got| + 1) == outcomes + [ok];
    MoreReads(i, got, outcomes, p);
    OneMoreOutcome(i, got + [p], outcomes, ok);
  }

  lemma NoMoreRead(i: Tid, reading: nat -> ReadResult, oks: nat -> bool, n: nat)
    requires reading(n).res <= 0
    ensures Received(reading, n + 1) == Received(reading, n)
  {
  }

  // What the loop does with one packet.
  method Forward(i: Tid, pkt: Packet, ok: bool, console: seq<Msg>, tx: seq<Packet>, nFwd: nat)
    returns (said: seq<Msg>, sent: seq<Packet>, count: nat)
    requires nFwd == U32(|tx|)
    ensures said == console + [Len(i, |pkt|)] + if ok then [] else [SendError(i, |pkt|)]
    ensures sent == tx + (if ok then [pkt] else []) && count == U32(|sent|)
  {
    NothingSaid(tx);
    said, sent, count := console + [Len(i, |pkt|)], tx, nFwd;
    NothingSaid(said);
    if !ok {
      said := said + [SendError(i, |pkt|)];
    } else {
      CountWraps(|tx|);
      sent := sent + [pkt];
      count := U32(count + 1);
    }
  }

  // What the thread has done after n reads.
  ghost predicate After(i: Tid, reading: nat -> ReadResult, oks: nat -> bool, n: nat,
                        console: seq<Msg>, tx: seq<Packet>, nFwd: nat, sends: nat) {
    && sends == |Received(reading, n)| && nFwd == U32(|tx|)
    && tx == SentAfter(reading, oks, n) && console == PrintedAfter(i, reading, oks, n)
  }

  // One round of the loop.
  method Round(i: Tid, reading: nat -> ReadResult, oks: nat -> bool, n: nat,
               console: seq<Msg>, tx: seq<Packet>, nFwd: nat, sends: nat)
    returns (said: seq<Msg>, sent: seq<Packet>, count: nat, tried: nat)
    requires After(i, reading, oks, n, console, tx, nFwd, sends)
    ensures After(i, reading, oks, n + 1, said, sent, count, tried)
  {
    said, sent, count, tried := console, tx, nFwd, sends;
    if reading(n).res > 0 {
      OneMoreRead(i, reading, oks, n, oks(sends));
      said, sent, count := Forward(i, reading(n).pkt, oks(sends), console, tx, nFwd);
      tried := sends + 1;
    } else {
      NoMoreRead(i, reading, oks, n);
    }
  }

  /** One thread by itself, as the loop it is: the flag is found set at test killAt, the reads
      and the sends come out as given. It sends what the steps above send, and prints what they
      print; and it stops at the flag or at the first failing read. */
  method CaptureAndForwardThread(i: Tid, killAt: nat, reading: nat -> ReadResult, oks: nat -> bool)
    returns (console: seq<Msg>, tx: seq<Packet>, n: nat)
    ensures n <= killAt && forall k :: 0 <= k < n - 1 ==> reading(k).res >= 0
    ensures n == killAt || (n > 0 && reading(n - 1).res < 0)
    ensures tx == SentAfter(reading, oks, n)
    ensures console == PrintedAfter(i, reading, oks, n) +
              [if n > 0 && reading(n - 1).res < 0 then CaptureError(i) else End(i, U32(|tx|))]
  {
    var res, nFwd, sends := 0, 0, 0;
    console, tx, n := [], [], 0;
    while n < killAt && res >= 0
      invariant n <= killAt && After(i, reading, oks, n, console, tx, nFwd, sends)
      invariant res == if n == 0 then 0 else reading(n - 1).res
      invariant forall k :: 0 <= k < n - 1 ==> reading(k).res >= 0
    {
      res := reading(n).res;
      console, tx, nFwd, sends := Round(i, reading, oks, n, console, tx, nFwd, sends);
      n := n + 1;
    }
    console := console + [if res < 0 then CaptureError(i) else End(i, nFwd)];
  }
}
