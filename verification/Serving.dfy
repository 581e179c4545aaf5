/** Whether what is queued gets answered, and whether kernel_communication comes to its end: the exact
    conditions on the state of the threads. */
module Serving {
  import opened CString
  import opened Wire
  import opened Kernel
  import opened StoreFile
  import opened Durable
  import opened Pipeline

  // ---- Requests that store_data gets through ----

  /** Not a DELETE of a key in the table on a file with a line that strtok cannot deal with. */
  predicate Safe(s: LiveStore, m: Bytes)
    requires Acceptable(m)
  {
    m[0] == DELETE && Pad(KeyIn(m), KEY_SIZE) in s.kernel.table ==> AllKeyed(Lines(s.file))
  }

  lemma SafeIff(s: LiveStore, r: Req)
    ensures Safe(s, r.pdu) <==> Tokenisable(s.file, r.pdu, Process(s, r.pdu, r.fault).reply)
  {
    if r.pdu[0] == DELETE {
      DeleteOutcome(s.kernel, Pad(KeyIn(r.pdu), KEY_SIZE), r.fault);
    }
  }

  predicate SafeAt(s: LiveStore, rs: seq<Req>, k: nat)
    requires k < |rs|
  {
    Safe(Sequential(s, rs[..k]).store, rs[k].pdu)
  }

  /** Each request is safe when the ones before it have been processed. */
  predicate AllSafe(s: LiveStore, rs: seq<Req>) {
    forall k | 0 <= k < |rs| :: SafeAt(s, rs, k)
  }

  lemma AllSafePrefix(s: LiveStore, rs: seq<Req>, n: nat)
    requires AllSafe(s, rs) && n <= |rs|
    ensures AllSafe(s, rs[..n])
  {
    forall k | 0 <= k < n ensures SafeAt(s, rs[..n], k) {
      SafeInPrefix(s, rs, n, k);
    }
  }

  lemma SafeInPrefix(s: LiveStore, rs: seq<Req>, n: nat, k: nat)
    requires k < n <= |rs|
    ensures SafeAt(s, rs[..n], k) <==> SafeAt(s, rs, k)
  {
    PrefixOfPrefix(rs, n, k);
  }

  lemma AllSafeSnoc(s: LiveStore, rs: seq<Req>, r: Req)
    ensures AllSafe(s, rs + [r]) <==> AllSafe(s, rs) && Safe(Sequential(s, rs).store, r.pdu)
  {
    var all, n := rs + [r], |rs|;
    assert all[..n] == rs;
    assert SafeAt(s, all, n) <==> Safe(Sequential(s, rs).store, r.pdu);
    forall k | 0 <= k < n ensures SafeAt(s, all, k) <==> SafeAt(s, rs, k) {
      SafeInPrefix(s, all, n, k);
    }
  }

  // ---- What is known in every reachable state ----

  /** The store as the finished requests left it. */
  function Behind(w: World, s0: LiveStore): (s: LiveStore)
    requires InFlight(w.pc) ==> w.handed != []
  {
    Sequential(s0, Done(w)).store
  }

  /** The requests dealt with completely. */
  function Done(w: World): (rs: seq<Req>)
    requires InFlight(w.pc) ==> w.handed != []
  {
    if InFlight(w.pc) then w.handed[..|w.handed| - 1] else w.handed
  }

  ghost predicate Consistent(w: World, s0: LiveStore) {
    && Inv(w, s0) && AllSafe(s0, Done(w))
    && (w.pc.Finished? ==> w.exitServer) && (w.told ==> w.exitServer)
  }

  lemma StartConsistent(s0: LiveStore, wires: seq<Bytes>)
    ensures Consistent(Pipeline.Init(s0, wires), s0)
  {
  }

  lemma StepConsistent(w: World, a: Action, s0: LiveStore)
    requires Consistent(w, s0) && Enabled(w, a)
    ensures Consistent(Step(w, a), s0)
  {
    StepInv(w, a, s0);
    DoneStays(w, a, s0);
    OnlyToldFinish(w, a);
  }

  /** kernel_communication ends, and the exit broadcast comes, only after exitServer is set. */
  lemma OnlyToldFinish(w: World, a: Action)
    requires Enabled(w, a) && (w.pc.Finished? ==> w.exitServer) && (w.told ==> w.exitServer)
    ensures var w' := Step(w, a); (w'.pc.Finished? ==> w'.exitServer) && (w'.told ==> w'.exitServer)
  {
  }

  lemma DoneStep(w: World, a: Action)
    requires Enabled(w, a) && (InFlight(w.pc) ==> w.handed != [])
    ensures var w' := Step(w, a);
            && (InFlight(w'.pc) ==> w'.handed != [])
            && Done(w') == if a == StoreData && w'.pc.LoopTest? then w.handed else Done(w)
  {
    if a == Send {
      assert (w.handed + [w.pc.r])[..|w.handed|] == w.handed;
    } else {
      HandedStays(w, a);
    }
  }

  lemma HandedStays(w: World, a: Action)
    requires Enabled(w, a) && a != Send
    ensures var w' := Step(w, a);
            w'.handed == w.handed && (InFlight(w'.pc) == InFlight(w.pc) || (a == StoreData && w'.pc.LoopTest?))
  {
  }

  lemma DoneStays(w: World, a: Action, s0: LiveStore)
    requires Consistent(w, s0) && Enabled(w, a)
    ensures var w' := Step(w, a); (InFlight(w'.pc) ==> w'.handed != []) && AllSafe(s0, Done(w'))
  {
    DoneStep(w, a);
    if a == StoreData && Step(w, a).pc.LoopTest? {
      StoredSafely(w, s0);
    }
  }

  lemma StoredSafely(w: World, s0: LiveStore)
    requires w.pc.Storing? && FlightInv(w, s0) && AllSafe(s0, Done(w)) && Tokenisable(w.store.file, w.pc.r.pdu, w.pc.reply)
    ensures AllSafe(s0, w.handed)
  {
    var n := |w.handed| - 1;
    TurnFacts(w, s0);
    SafeIff(Sequential(s0, w.handed[..n]).store, w.pc.r);
    AllSafeSnoc(s0, w.handed[..n], w.handed[n]);
    assert w.handed == w.handed[..n] + [w.handed[n]];
  }

  lemma {:induction false} RunConsistent(w: World, acts: seq<Action>, s0: LiveStore)
    requires Consistent(w, s0) && CanRun(w, acts)
    ensures Consistent(RunTo(w, acts), s0)
    decreases |acts|
  {
    if acts != [] {
      StepConsistent(w, acts[0], s0);
      RunConsistent(Step(w, acts[0]), acts[1..], s0);
    }
  }

  /** Everything queued has been answered, and the answers passed on. */
  predicate CaughtUp(w: World) {
    |w.forwarded| == |w.inserted|
  }

  lemma CaughtUpIff(w: World, s0: LiveStore)
    requires Consistent(w, s0)
    ensures |w.forwarded| == |Done(w)| && Done(w) <= w.inserted
    ensures CaughtUp(w) <==> Done(w) == w.inserted
    ensures CaughtUp(w) ==> w.queue == [] && !InFlight(w.pc) && !w.pc.Sending?
    ensures w.queue == [] && !InFlight(w.pc) && !w.pc.Sending? ==> CaughtUp(w)
  {
    assert w.inserted == w.handed + Pipeline.Pending(w.pc) + w.queue;
    assert w.handed[..|w.handed|] == w.handed;
  }

  // ---- Waking ----

  /** The next request a listener can queue from this connection. */
  function NextRequest(s: Bytes): (m: Option<Bytes>)
    ensures m.Some? ==> Acceptable(m.value)
  {
    var q := Hears(s).queue;
    if q != [] && Acceptable(q[0]) then Some(q[0]) else None
  }

  lemma ListenHears(s: Bytes)
    requires Hearable(s)
    ensures var got := Wire.Receive(s);
            if Kept(got.pdu) == [] then NextRequest(s) == NextRequest(got.rest) else NextRequest(s) == Some(got.pdu.data)
  {
    var got := Wire.Receive(s);
    HearsStep(s, got.pdu, got.rest);
    assert [] + Hears(got.rest).queue == Hears(got.rest).queue;
  }

  lemma NextIsHearable(s: Bytes)
    requires NextRequest(s).Some?
    ensures Hearable(s)
  {
    var r := Wire.Receive(s);
    if r.Got? && |r.rest| < |s| {
      HearsStep(s, r.pdu, r.rest);
    }
  }

  predicate HasNext(w: World, c: nat) {
    c < |w.wires| && NextRequest(w.wires[c]).Some?
  }

  predicate Dozing(pc: Pc) {
    pc.GoingToWait? || pc.Waiting?
  }

  lemma RunCons(w: World, a: Action, acts: seq<Action>)
    requires Enabled(w, a) && CanRun(Step(w, a), acts)
    ensures CanRun(w, [a] + acts) && RunTo(w, [a] + acts) == RunTo(Step(w, a), acts)
  {
    assert ([a] + acts)[1..] == acts;
  }

  lemma {:induction false} RunConcat(w: World, xs: seq<Action>, ys: seq<Action>)
    requires CanRun(w, xs) && CanRun(RunTo(w, xs), ys)
    ensures CanRun(w, xs + ys) && RunTo(w, xs + ys) == RunTo(RunTo(w, xs), ys)
    decreases |xs|
  {
    if xs == [] {
      assert xs + ys == ys;
    } else {
      RunConcat(Step(w, xs[0]), xs[1..], ys);
      RunCons(w, xs[0], xs[1..] + ys);
      HeadOfConcat(xs, ys);
    }
  }

  lemma HeadOfConcat(xs: seq<Action>, ys: seq<Action>)
    requires xs != []
    ensures [xs[0]] + (xs[1..] + ys) == xs + ys
  {
  }

  /** A client with a request to come wakes a sleeping consumer: its listener reads up to that request and
      queues it. */
  lemma {:induction false} WakeUp(w: World, c: nat) returns (acts: seq<Action>)
    requires w.pc.Waiting? && HasNext(w, c)
    ensures CanRun(w, acts)
    ensures var r := AnyReq.Req(c, NextRequest(w.wires[c]).value, NoFault);
            var w' := RunTo(w, acts);
            w' == Enqueued(w, r).(wires := w'.wires)
    decreases |w.wires[c]|
  {
    var s := w.wires[c];
    NextIsHearable(s);
    ListenHears(s);
    var a := Listen(c, NoFault);
    if Kept(Wire.Receive(s).pdu) != [] {
      acts := [];
    } else {
      acts := WakeUp(Step(w, a), c);
    }
    RunCons(w, a, acts);
    acts := [a] + acts;
  }

  // ---- Catching up ----

  /** A request to come that can wake the consumer and does not lead it astray. */
  predicate WakesSafely(w: World, s0: LiveStore, c: nat) {
    HasNext(w, c) && Safe(Sequential(s0, w.inserted).store, NextRequest(w.wires[c]).value)
  }

  /** Nothing queued leads store_data astray, and the consumer does not doze over a queue that no client will
      add to. */
  ghost predicate CanServe(w: World, s0: LiveStore) {
    && AllSafe(s0, w.inserted)
    && (Dozing(w.pc) && w.queue != [] ==> exists c :: WakesSafely(w, s0, c))
  }

  ghost predicate CanCatchUp(w: World) {
    exists more :: CanRun(w, more) && CaughtUp(RunTo(w, more))
  }

  function PcWork(w: World): (k: nat) {
    match w.pc
    case Sending(_) => 7
    case Awaiting(_) => if w.inbox != [] then 6 else 5
    case Storing(_, _) => 4
    case LoopTest => 3
    case EmptyTest => 2
    case Woken => 2
    case Removing => 1
    case _ => 0
  }

  function Work(w: World): (k: nat) {
    8 * |w.queue| + PcWork(w)
  }

  /** Awake, on the way to the exit only if told, and nothing ahead leads astray. */
  ghost predicate Serving(w: World, s0: LiveStore) {
    Consistent(w, s0) && !w.exitServer && AllSafe(s0, w.inserted) && (Dozing(w.pc) ==> w.queue == [])
  }

  lemma CurrentIsSafe(w: World, s0: LiveStore)
    requires Consistent(w, s0) && InFlight(w.pc) && AllSafe(s0, w.inserted)
    ensures Safe(Sequential(s0, Done(w)).store, w.pc.r.pdu)
  {
    HandedIsPrefix(w, 0);
    var n := |w.handed| - 1;
    assert w.inserted[n] == w.handed[n] && w.inserted[..n] == w.handed[..n];
    assert SafeAt(s0, w.inserted, n);
  }

  /** What the consumer does next when it is awake. */
  function Ahead(w: World): (a: Action) {
    match w.pc
    case LoopTest => TestExit
    case EmptyTest => TestEmpty
    case GoingToWait => Sleep
    case Woken => Wake
    case Removing => Remove
    case Sending(_) => Send
    case Awaiting(_) => if w.inbox != [] then Action.Serve else Receive
    case Waiting => BroadcastExit
    case _ => StoreData
  }

  lemma NextStep(w: World, s0: LiveStore) returns (a: Action)
    requires Serving(w, s0) && !CaughtUp(w)
    ensures Enabled(w, a) && Work(Step(w, a)) < Work(w) && Serving(Step(w, a), s0)
    ensures Step(w, a).inserted == w.inserted && Step(w, a).wires == w.wires
  {
    CaughtUpIff(w, s0);
    a := Ahead(w);
    if InFlight(w.pc) {
      FlightStep(w, s0);
    } else {
      IdleStep(w);
    }
    StepConsistent(w, a, s0);
  }

  lemma IdleStep(w: World)
    requires QueueInv(w) && !InFlight(w.pc) && !w.exitServer && !w.pc.Finished?
    requires (w.pc.Sending? || w.queue != []) && !Dozing(w.pc) && w.inbox == []
    ensures Enabled(w, Ahead(w)) && Work(Step(w, Ahead(w))) < Work(w)
    ensures Onward(w, Step(w, Ahead(w)))
  {
  }

  /** Awake afterwards, and nothing new queued. */
  predicate Onward(w: World, w': World) {
    !Dozing(w'.pc) && w'.inserted == w.inserted && w'.wires == w.wires && w'.exitServer == w.exitServer
  }

  lemma FlightStep(w: World, s0: LiveStore)
    requires Serving(w, s0) && InFlight(w.pc)
    ensures Enabled(w, Ahead(w)) && Work(Step(w, Ahead(w))) < Work(w)
    ensures Onward(w, Step(w, Ahead(w)))
  {
    CurrentIsSafe(w, s0);
    if w.pc.Awaiting? {
      AwaitingReady(w, s0);
      AwaitingMoves(w);
    } else {
      StoringIsSafe(w, s0);
      StoringMoves(w);
    }
  }

  lemma AwaitingMoves(w: World)
    requires w.pc.Awaiting? && |w.inbox| <= 1 && (w.inbox == [] ==> w.outbox != [])
    ensures Enabled(w, Ahead(w)) && Work(Step(w, Ahead(w))) < Work(w)
    ensures Onward(w, Step(w, Ahead(w)))
  {
  }

  lemma StoringMoves(w: World)
    requires w.pc.Storing? && Tokenisable(w.store.file, w.pc.r.pdu, w.pc.reply)
    ensures Enabled(w, Ahead(w)) && Work(Step(w, Ahead(w))) < Work(w)
    ensures Onward(w, Step(w, Ahead(w))) && Step(w, Ahead(w)).pc == LoopTest
  {
  }

  lemma AwaitingReady(w: World, s0: LiveStore)
    requires w.pc.Awaiting? && FlightInv(w, s0)
    ensures Enabled(w, Ahead(w)) && (w.inbox != [] ==> |w.inbox| == 1) && (w.inbox == [] ==> |w.outbox| == 1)
  {
  }

  ghost predicate FlightInvOf(w: World, s0: LiveStore) {
    InFlight(w.pc) && FlightInv(w, s0)
  }

  lemma StoringIsSafe(w: World, s0: LiveStore)
    requires FlightInvOf(w, s0) && (w.pc.Storing? || w.pc.Lost?)
    ensures Safe(Sequential(s0, Done(w)).store, w.pc.r.pdu) <==> Tokenisable(w.store.file, w.pc.r.pdu, w.pc.reply)
  {
    SequentialLast(s0, w.handed);
    SafeIff(Sequential(s0, Done(w)).store, w.pc.r);
  }

  lemma {:induction false} Drain(w: World, s0: LiveStore) returns (acts: seq<Action>)
    requires Serving(w, s0)
    ensures CanRun(w, acts) && CaughtUp(RunTo(w, acts))
    ensures RunTo(w, acts).inserted == w.inserted && RunTo(w, acts).wires == w.wires
    decreases Work(w)
  {
    acts := [];
    if !CaughtUp(w) {
      var a := NextStep(w, s0);
      var rest := Drain(Step(w, a), s0);
      RunCons(w, a, rest);
      acts := [a] + rest;
    }
  }

  /** A dozing consumer is brought to Woken by a safe request. */
  lemma Roused(w: World, s0: LiveStore, c: nat) returns (acts: seq<Action>)
    requires Consistent(w, s0) && !w.exitServer && AllSafe(s0, w.inserted) && Dozing(w.pc) && WakesSafely(w, s0, c)
    ensures CanRun(w, acts) && Serving(RunTo(w, acts), s0)
  {
    var pre := if w.pc.GoingToWait? then [Sleep] else [];
    var v := w.(pc := Waiting);
    assert [Sleep][1..] == [];
    assert CanRun(v, []) && CanRun(w, pre) && RunTo(w, pre) == v;
    var wake := WakeUp(v, c);
    RunConcat(w, pre, wake);
    acts := pre + wake;
    RunConsistent(w, acts, s0);
    AllSafeSnoc(s0, w.inserted, AnyReq.Req(c, NextRequest(w.wires[c]).value, NoFault));
  }

  /** States from which the queue is never worked off. */
  ghost predicate Stranded(w: World, s0: LiveStore) {
    || !AllSafe(s0, w.inserted)
    || (w.queue != [] &&
        (w.pc.Finished? || (w.pc.Woken? && w.exitServer)
         || (Dozing(w.pc) && (w.exitServer || forall c :: !WakesSafely(w, s0, c)))))
  }

  lemma StrandedListen(w: World, s0: LiveStore, c: nat, fault: Fault)
    requires Stranded(w, s0) && Enabled(w, Listen(c, fault))
    ensures Stranded(Step(w, Listen(c, fault)), s0)
  {
    ListenHears(w.wires[c]);
    if Kept(Wire.Receive(w.wires[c]).pdu) == [] {
      SkippedPdu(w, s0, c, fault);
    } else {
      QueuedPdu(w, s0, c, fault);
    }
  }

  lemma SkippedPdu(w: World, s0: LiveStore, c: nat, fault: Fault)
    requires Stranded(w, s0) && Enabled(w, Listen(c, fault)) && Kept(Wire.Receive(w.wires[c]).pdu) == []
    ensures Stranded(Step(w, Listen(c, fault)), s0)
  {
    var w' := Step(w, Listen(c, fault));
    ListenHears(w.wires[c]);
    assert w' == w.(wires := w'.wires);
    assert forall d :: HasNext(w', d) <==> HasNext(w, d);
    assert forall d :: WakesSafely(w', s0, d) ==> WakesSafely(w, s0, d);
  }

  lemma QueuedPdu(w: World, s0: LiveStore, c: nat, fault: Fault)
    requires Stranded(w, s0) && Enabled(w, Listen(c, fault)) && Kept(Wire.Receive(w.wires[c]).pdu) != []
    ensures Stranded(Step(w, Listen(c, fault)), s0)
  {
    ListenHears(w.wires[c]);
    var r := AnyReq.Req(c, NextRequest(w.wires[c]).value, fault);
    var w' := Step(w, Listen(c, fault));
    assert w' == Enqueued(w, r).(wires := w'.wires);
    AllSafeSnoc(s0, w.inserted, r);
    assert WakesSafely(w, s0, c) <==> Safe(Sequential(s0, w.inserted).store, r.pdu);
  }

  lemma StrandedStays(w: World, s0: LiveStore, a: Action)
    requires Stranded(w, s0) && Enabled(w, a)
    ensures Stranded(Step(w, a), s0)
  {
    if a.Listen? {
      StrandedListen(w, s0, a.c, a.fault);
    } else {
      SameWires(w, a, s0);
    }
  }

  lemma SameWires(w: World, a: Action, s0: LiveStore)
    requires Enabled(w, a) && !a.Listen?
    ensures var w' := Step(w, a); w'.wires == w.wires && w'.inserted == w.inserted
    ensures forall d :: HasNext(Step(w, a), d) <==> HasNext(w, d)
    ensures forall d :: WakesSafely(Step(w, a), s0, d) <==> WakesSafely(w, s0, d)
  {
  }

  lemma {:induction false} StrandedForever(w: World, s0: LiveStore, acts: seq<Action>)
    requires Consistent(w, s0) && Stranded(w, s0) && CanRun(w, acts)
    ensures !CaughtUp(RunTo(w, acts))
    decreases |acts|
  {
    if acts == [] {
      CaughtUpIff(w, s0);
    } else {
      StrandedStays(w, s0, acts[0]);
      StepConsistent(w, acts[0], s0);
      StrandedForever(Step(w, acts[0]), s0, acts[1..]);
    }
  }

  /** At every moment of every run before the server is told to exit: some continuation answers everything
      queued, and passes the answers on, if and only if no queued DELETE meets a file it cannot tokenise and
      the consumer does not doze over a queue that no client will add to. */
  lemma CatchesUpIff(s0: LiveStore, wires: seq<Bytes>, acts: seq<Action>)
    requires CanRun(Pipeline.Init(s0, wires), acts)
    requires !RunTo(Pipeline.Init(s0, wires), acts).exitServer
    ensures var w := RunTo(Pipeline.Init(s0, wires), acts); CanCatchUp(w) <==> CanServe(w, s0)
  {
    StartConsistent(s0, wires);
    RunConsistent(Pipeline.Init(s0, wires), acts, s0);
    var w := RunTo(Pipeline.Init(s0, wires), acts);
    if CanServe(w, s0) {
      ServableCatchesUp(w, s0);
    } else {
      forall more | CanRun(w, more) ensures !CaughtUp(RunTo(w, more)) {
        StrandedForever(w, s0, more);
      }
    }
  }

  lemma ServableCatchesUp(w: World, s0: LiveStore)
    requires Consistent(w, s0) && !w.exitServer && CanServe(w, s0)
    ensures CanCatchUp(w)
  {
    if Dozing(w.pc) && w.queue != [] {
      var c :| WakesSafely(w, s0, c);
      var up := Roused(w, s0, c);
      var rest := Drain(RunTo(w, up), s0);
      RunConcat(w, up, rest);
      assert CanRun(w, up + rest) && CaughtUp(RunTo(w, up + rest));
    } else {
      var rest := Drain(w, s0);
    }
  }

  // ---- After exitServer ----

  /** Requests that may still be handed over once the server is told to exit: the one the consumer has
      already decided to take. */
  function Credit(pc: Pc): (k: nat) {
    if pc.EmptyTest? || pc.Removing? || pc.Sending? then 1 else 0
  }

  /** After exitServer is set, at most one more request is handed to the kernel, and only if the consumer was
      past its exit test already. */
  lemma {:induction false} OneMoreAtMost(w: World, acts: seq<Action>)
    requires w.exitServer && CanRun(w, acts)
    ensures |RunTo(w, acts).handed| + Credit(RunTo(w, acts).pc) <= |w.handed| + Credit(w.pc)
    ensures |RunTo(w, acts).handed| <= |w.handed| + 1
    decreases |acts|
  {
    if acts != [] {
      OneMoreAtMost(Step(w, acts[0]), acts[1..]);
    }
  }

  /** The request the consumer is bound to deal with before its next exit test. */
  function Committed(w: World): (m: Option<Req>) {
    match w.pc
    case Sending(r) => Some(r)
    case Awaiting(r) => Some(r)
    case Storing(r, _) => Some(r)
    case Lost(r, _) => Some(r)
    case Removing => if w.queue != [] then Some(w.queue[0]) else None
    case EmptyTest => if w.queue != [] then Some(w.queue[0]) else None
    case _ => None
  }

  /** Asleep or about to find the queue empty. */
  predicate Resting(w: World) {
    Dozing(w.pc) || (w.pc.EmptyTest? && w.queue == [])
  }

  /** `s` is the store as the finished requests left it. */
  ghost predicate CanFinish(w: World, s: LiveStore) {
    || w.pc.Finished? || w.pc.Woken? || w.pc.LoopTest?
    || (Committed(w).Some? && Safe(s, Committed(w).value.pdu))
    || (Resting(w) && (!w.told || exists c :: HasNext(w, c)))
  }

  ghost predicate CanEnd(w: World) {
    exists more :: CanRun(w, more) && RunTo(w, more).pc.Finished?
  }

  function EndWork(w: World): (k: nat) {
    match w.pc
    case EmptyTest => 9
    case Removing => 8
    case Sending(_) => 7
    case Awaiting(_) => if w.inbox != [] then 6 else 5
    case Storing(_, _) => 4
    case GoingToWait => 4
    case Waiting => 3
    case LoopTest => 2
    case Woken => 1
    case _ => 0
  }

  lemma {:induction false} EndsSafely(w: World, s0: LiveStore) returns (acts: seq<Action>)
    requires Consistent(w, s0) && w.exitServer && CanFinish(w, Behind(w, s0))
    ensures CanRun(w, acts) && RunTo(w, acts).pc.Finished?
    decreases EndWork(w)
  {
    acts := [];
    if w.pc.Waiting? && w.told {
      var c :| HasNext(w, c);
      acts := WakeUp(w, c);
      var w' := RunTo(w, acts);
      assert [Wake][1..] == [] && CanRun(Step(w', Wake), []);
      RunConcat(w, acts, [Wake]);
      acts := acts + [Wake];
    } else if !w.pc.Finished? {
      var a := Ahead(w);
      EndStep(w, s0);
      StepConsistent(w, a, s0);
      var rest := EndsSafely(Step(w, a), s0);
      RunCons(w, a, rest);
      acts := [a] + rest;
    }
  }

  lemma EndStep(w: World, s0: LiveStore)
    requires Consistent(w, s0) && w.exitServer && CanFinish(w, Behind(w, s0)) && !w.pc.Finished? && (w.pc.Waiting? ==> !w.told)
    ensures Enabled(w, Ahead(w)) && EndWork(Step(w, Ahead(w))) < EndWork(w)
    ensures var w' := Step(w, Ahead(w));
            w'.exitServer && (InFlight(w'.pc) ==> w'.handed != []) && CanFinish(w', Behind(w', s0))
  {
    if Committed(w).Some? {
      CommittedEnds(w, s0);
    } else if Resting(w) {
      RestingEnds(w, s0);
    }
  }

  /** A request in hand moves on, unless it leads astray. */
  lemma CommittedEnds(w: World, s0: LiveStore)
    requires Consistent(w, s0) && w.exitServer && Committed(w).Some? && !w.pc.Finished?
    requires Safe(Behind(w, s0), Committed(w).value.pdu)
    ensures Enabled(w, Ahead(w)) && EndWork(Step(w, Ahead(w))) < EndWork(w)
    ensures var w' := Step(w, Ahead(w));
            w'.exitServer && (InFlight(w'.pc) ==> w'.handed != []) && CanFinish(w', Behind(w', s0))
  {
    if w.pc.Storing? || w.pc.Lost? {
      StoringIsSafe(w, s0);
      StoringMoves(w);
    } else {
      if w.pc.Awaiting? {
        AwaitingReady(w, s0);
      }
      CommittedMoves(w);
      CommittedStays(w, Ahead(w));
    }
  }

  lemma CommittedMoves(w: World)
    requires Committed(w).Some? && !w.pc.Storing? && !w.pc.Lost?
    requires w.pc.Awaiting? ==> |w.inbox| <= 1 && (w.inbox == [] ==> w.outbox != [])
    ensures Enabled(w, Ahead(w)) && Ahead(w) != StoreData && EndWork(Step(w, Ahead(w))) < EndWork(w)
    ensures Step(w, Ahead(w)).exitServer == w.exitServer
  {
  }

  lemma CommittedStays(w: World, a: Action)
    requires Enabled(w, a) && a != StoreData && Committed(w).Some? && (InFlight(w.pc) ==> w.handed != [])
    ensures var w' := Step(w, a);
            && Committed(w') == Committed(w) && (InFlight(w'.pc) ==> w'.handed != []) && Done(w') == Done(w)
            && !w'.pc.Finished? && !w'.pc.Woken? && !w'.pc.LoopTest? && !Resting(w')
  {
    DoneStep(w, a);
    if a.Listen? {
      CommittedListens(w, a.c, a.fault);
    } else {
      CommittedSteps(w, a);
    }
  }

  lemma CommittedListens(w: World, c: nat, fault: Fault)
    requires Enabled(w, Listen(c, fault)) && Committed(w).Some?
    ensures var w' := Step(w, Listen(c, fault)); w'.pc == w.pc && Committed(w') == Committed(w) && !Resting(w')
  {
  }

  lemma CommittedSteps(w: World, a: Action)
    requires Enabled(w, a) && a != StoreData && !a.Listen? && Committed(w).Some?
    ensures var w' := Step(w, a);
            && Committed(w') == Committed(w)
            && !w'.pc.Finished? && !w'.pc.Woken? && !w'.pc.LoopTest? && !Resting(w')
  {
  }

  lemma RestingEnds(w: World, s0: LiveStore)
    requires w.exitServer && Resting(w) && (!w.told || exists c :: HasNext(w, c)) && (w.pc.Waiting? ==> !w.told)
    ensures Enabled(w, Ahead(w)) && EndWork(Step(w, Ahead(w))) < EndWork(w)
    ensures var w' := Step(w, Ahead(w)); w'.exitServer && !InFlight(w'.pc) && CanFinish(w', Behind(w', s0))
  {
    SameWires(w, Ahead(w), s0);
  }

  lemma {:induction false} NeverEnds(w: World, s0: LiveStore, acts: seq<Action>)
    requires Consistent(w, s0) && w.exitServer && !CanFinish(w, Behind(w, s0)) && CanRun(w, acts)
    ensures !RunTo(w, acts).pc.Finished?
    decreases |acts|
  {
    if acts != [] {
      StepConsistent(w, acts[0], s0);
      NoEndStays(w, s0, acts[0]);
      NeverEnds(Step(w, acts[0]), s0, acts[1..]);
    }
  }

  lemma NoEndStays(w: World, s0: LiveStore, a: Action)
    requires Consistent(w, s0) && w.exitServer && !CanFinish(w, Behind(w, s0)) && Enabled(w, a)
    ensures var w' := Step(w, a); w'.exitServer && (InFlight(w'.pc) ==> w'.handed != []) && !CanFinish(w', Behind(w', s0))
  {
    if Committed(w).Some? {
      if a == StoreData {
        StoringIsSafe(w, s0);
        GoneAstray(w);
        LostStays(w, Behind(w, s0));
        assert Done(w.(pc := Lost(w.pc.r, w.pc.reply))) == Done(w);
      } else {
        CommittedStays(w, a);
      }
    } else {
      RestStays(w, s0, a);
    }
  }

  lemma LostStays(w: World, s: LiveStore)
    requires w.pc.Storing? && !Safe(s, w.pc.r.pdu)
    ensures !CanFinish(w.(pc := Lost(w.pc.r, w.pc.reply)), s)
  {
  }

  lemma RestStays(w: World, s0: LiveStore, a: Action)
    requires Resting(w) && w.exitServer && w.told && (forall c :: !HasNext(w, c)) && Enabled(w, a)
    ensures var w' := Step(w, a); w'.exitServer && !InFlight(w'.pc) && !CanFinish(w', Behind(w', s0))
  {
    if a.Listen? {
      UnheardStays(w, a.c, a.fault);
    } else {
      SameWires(w, a, s0);
    }
  }

  lemma UnheardStays(w: World, c: nat, fault: Fault)
    requires Enabled(w, Listen(c, fault)) && forall d :: !HasNext(w, d)
    ensures var w' := Step(w, Listen(c, fault)); w' == w.(wires := w'.wires) && forall d :: !HasNext(w', d)
  {
    ListenHears(w.wires[c]);
    assert !HasNext(w, c);
    assert forall d :: HasNext(Step(w, Listen(c, fault)), d) ==> HasNext(w, d);
  }

  /** Once exitServer is set, at every moment: kernel_communication can still return if and only if it is
      awake at its loop, or bound to a request that does not lead it astray, or it rests and the exit
      broadcast or a client's request is still to come. */
  lemma EndsIff(s0: LiveStore, wires: seq<Bytes>, acts: seq<Action>)
    requires CanRun(Pipeline.Init(s0, wires), acts)
    requires RunTo(Pipeline.Init(s0, wires), acts).exitServer
    ensures var w := RunTo(Pipeline.Init(s0, wires), acts);
            (InFlight(w.pc) ==> w.handed != []) && (CanEnd(w) <==> CanFinish(w, Behind(w, s0)))
  {
    StartConsistent(s0, wires);
    RunConsistent(Pipeline.Init(s0, wires), acts, s0);
    var w := RunTo(Pipeline.Init(s0, wires), acts);
    if CanFinish(w, Behind(w, s0)) {
      var more := EndsSafely(w, s0);
    } else {
      forall more | CanRun(w, more) ensures !RunTo(w, more).pc.Finished? {
        NeverEnds(w, s0, more);
      }
    }
  }
}
