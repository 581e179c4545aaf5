/** The path of a request through the threaded server: client threads append to sender_list,
    kernel_communication takes from it, the kernel works, the reply comes back and the file is written.
    One interleaved step system; condition waits have no spurious wake-ups. */
module Pipeline {
  import opened CString
  import opened Wire
  import opened Kernel
  import opened StoreFile
  import opened Durable
  import opened Mirroring

  /** A queued PDU: who sent it, its bytes, and the kernel failure it will meet, if any. */
  datatype AnyReq = Req(client: nat, pdu: Bytes, fault: Fault)
  type Req = r: AnyReq | Acceptable(r.pdu) witness AnyReq.Req(0, [INIT, 0, 0, 0], NoFault)

  type LiveStore = s: Store | s.kernel.initialized witness Store(State(true, map[]), [])

  /** Where kernel_communication is: before the exitServer test of its loop, before the emptiness test,
      past a test that saw an empty list, asleep, signalled, about to remove, about to send, waiting for
      the kernel, about to run store_data and pass the reply on, and gone astray in store_data on a file it
      cannot tokenise. */
  datatype Pc =
    | LoopTest | EmptyTest | GoingToWait | Waiting | Woken | Removing
    | Sending(r: Req) | Awaiting(r: Req) | Storing(r: Req, reply: Bytes)
    | Lost(r: Req, reply: Bytes) | Finished | Crashed

  datatype World = World(
    wires: seq<Bytes>,     // per client, what its listener has still to read
    queue: seq<Req>,
    pc: Pc,
    inbox: seq<Req>,       // netlink messages the kernel has not served
    outbox: seq<Bytes>,    // replies the server has not received
    store: LiveStore,
    exitServer: bool,
    told: bool,            // close_server has broadcast on the queue's condition
    inserted: seq<Req>,    // history: everything ever appended to the queue
    handed: seq<Req>,      // history: everything given to the kernel
    answered: seq<Bytes>,  // history: replies received
    forwarded: seq<Bytes>  // history: replies passed on to the clients
  )

  function Init(s: LiveStore, wires: seq<Bytes>): (w: World) {
    World(wires, [], LoopTest, [], [], s, false, false, [], [], [], [])
  }

  datatype Action =
    | Listen(c: nat, fault: Fault) | TestExit | TestEmpty | Sleep | Wake | Remove | Send | Serve | Receive | StoreData
    | SetExit | BroadcastExit

  /** The next receive_pdu on this connection yields a PDU that the listener can deal with. */
  predicate Hearable(s: Bytes) {
    var r := Wire.Receive(s);
    r.Got? && |r.rest| < |s| && (Kept(r.pdu) != [] ==> Acceptable(r.pdu.data))
  }

  predicate Enabled(w: World, a: Action) {
    match a
    case Listen(c, _) => c < |w.wires| && Hearable(w.wires[c])
    case TestExit => w.pc.LoopTest?
    case TestEmpty => w.pc.EmptyTest?
    case Sleep => w.pc.GoingToWait?
    case Wake => w.pc.Woken?
    case Remove => w.pc.Removing?
    case Send => w.pc.Sending?
    case Serve => w.inbox != []
    case Receive => w.pc.Awaiting? && w.outbox != []
    case StoreData => w.pc.Storing?
    case SetExit => true
    case BroadcastExit => w.exitServer && !w.told
  }

  function Signalled(pc: Pc): (pc': Pc) {
    if pc.Waiting? then Woken else pc
  }

  function Enqueued(w: World, r: Req): (w': World) {
    w.(queue := w.queue + [r], inserted := w.inserted + [r], pc := Signalled(w.pc))
  }

  function Step(w: World, a: Action): (w': World)
    requires Enabled(w, a)
  {
    match a
    case Listen(c, fault) =>
      var got := Wire.Receive(w.wires[c]);
      var left := w.(wires := w.wires[c := got.rest]);
      if Kept(got.pdu) == [] then left else Enqueued(left, AnyReq.Req(c, got.pdu.data, fault))
    case TestExit => w.(pc := if w.exitServer then Finished else EmptyTest)
    case TestEmpty => w.(pc := if w.queue == [] then GoingToWait else Removing)
    case Sleep => w.(pc := Waiting)
    case Wake => w.(pc := if w.exitServer then Finished else Removing)
    case Remove => if w.queue == [] then w.(pc := Crashed) else w.(pc := Sending(w.queue[0]), queue := w.queue[1..])
    case Send => w.(inbox := w.inbox + [w.pc.r], handed := w.handed + [w.pc.r], pc := Awaiting(w.pc.r))
    case Serve =>
      var o := Kernel.Serve(w.store.kernel, RequestOf(w.inbox[0].pdu), w.inbox[0].fault);
      w.(inbox := w.inbox[1..], outbox := w.outbox + [o.reply], store := Store(o.state, w.store.file))
    case Receive =>
      w.(outbox := w.outbox[1..], answered := w.answered + [w.outbox[0]], pc := Storing(w.pc.r, w.outbox[0]))
    case StoreData =>
      if !Tokenisable(w.store.file, w.pc.r.pdu, w.pc.reply) then w.(pc := Lost(w.pc.r, w.pc.reply))
      else
        w.(store := Store(w.store.kernel, Stored(w.store.file, w.pc.r.pdu, w.pc.reply)),
           forwarded := w.forwarded + [w.pc.reply], pc := LoopTest)
    case SetExit => w.(exitServer := true)
    case BroadcastExit => w.(told := true, pc := Signalled(w.pc))
  }

  predicate CanRun(w: World, acts: seq<Action>)
    decreases |acts|
  {
    acts == [] || (Enabled(w, acts[0]) && CanRun(Step(w, acts[0]), acts[1..]))
  }

  function RunTo(w: World, acts: seq<Action>): (w': World)
    requires CanRun(w, acts)
    decreases |acts|
  {
    if acts == [] then w else RunTo(Step(w, acts[0]), acts[1..])
  }

  // ---- The sequential reference ----

  /** The same requests processed one after the other by a single thread. */
  datatype Progress = Progress(store: LiveStore, replies: seq<Bytes>)

  function Sequential(s: LiveStore, rs: seq<Req>): (o: Progress)
    ensures |o.replies| == |rs|
  {
    if rs == [] then Progress(s, [])
    else
      var n := |rs| - 1;
      var before := Sequential(s, rs[..n]);
      var p := Process(before.store, rs[n].pdu, rs[n].fault);
      Progress(p.store, before.replies + [p.reply])
  }

  lemma SequentialLast(s: LiveStore, rs: seq<Req>)
    requires rs != []
    ensures var n := |rs| - 1;
            var before := Sequential(s, rs[..n]);
            var p := Process(before.store, rs[n].pdu, rs[n].fault);
            Sequential(s, rs) == Progress(p.store, before.replies + [p.reply])
  {}

  function Pending(pc: Pc): (rs: seq<Req>) {
    if pc.Sending? then [pc.r] else []
  }

  predicate InFlight(pc: Pc) {
    pc.Awaiting? || pc.Storing? || pc.Lost?
  }

  ghost predicate QueueInv(w: World) {
    && w.inserted == w.handed + Pending(w.pc) + w.queue
    && !w.pc.Crashed?
    && (w.pc.Removing? ==> w.queue != [])
    && (w.pc.Woken? ==> w.queue != [] || w.exitServer)
  }

  /** Between turns everything handed over has been processed completely. */
  ghost predicate IdleInv(w: World, s0: LiveStore) {
    && w.inbox == [] && w.outbox == [] && Progress(w.store, w.answered) == Sequential(s0, w.handed)
    && w.forwarded == w.answered
  }

  /** During a turn exactly the last request handed over is in some stage of processing. */
  ghost predicate FlightInv(w: World, s0: LiveStore)
    requires InFlight(w.pc)
  {
    && w.handed != [] && w.handed[|w.handed| - 1] == w.pc.r
    && var before := Sequential(s0, w.handed[..|w.handed| - 1]);
       var after := Sequential(s0, w.handed);
       && w.store.file == before.store.file
       && (Unserved(w) ==> w.store == before.store && w.answered == before.replies)
       && (!Unserved(w) ==>
             w.inbox == [] && w.store.kernel == after.store.kernel && w.answered + w.outbox == after.replies)
       && (w.pc.Awaiting? && !Unserved(w) ==> |w.outbox| == 1)
       && w.forwarded == before.replies
       && (!w.pc.Awaiting? ==> w.outbox == [] && after.replies[|after.replies| - 1] == w.pc.reply)
       && (w.pc.Lost? ==> !Tokenisable(w.store.file, w.pc.r.pdu, w.pc.reply))
  }

  predicate Unserved(w: World) {
    w.pc.Awaiting? && w.inbox == [w.pc.r] && w.outbox == []
  }

  ghost predicate Inv(w: World, s0: LiveStore) {
    QueueInv(w) && (if InFlight(w.pc) then FlightInv(w, s0) else IdleInv(w, s0))
  }

  /** Steps that touch only the queue and the consumer's position outside a turn. */
  lemma TurnKept(w: World, w': World, s0: LiveStore)
    requires if InFlight(w.pc) then FlightInv(w, s0) else IdleInv(w, s0)
    requires w' == w.(pc := w'.pc, queue := w'.queue, inserted := w'.inserted, exitServer := w'.exitServer, told := w'.told, wires := w'.wires)
    requires w'.pc == w.pc || (!InFlight(w.pc) && !InFlight(w'.pc))
    ensures if InFlight(w'.pc) then FlightInv(w', s0) else IdleInv(w', s0)
  {}

  lemma QueueSteps(w: World, a: Action)
    requires QueueInv(w) && Enabled(w, a)
    requires a.Listen? || a in {TestExit, TestEmpty, Sleep, Wake, Remove, SetExit, BroadcastExit}
    ensures QueueInv(Step(w, a))
  {
    if a == Remove {
      RemoveQueue(w);
    }
  }

  lemma RemoveQueue(w: World)
    requires QueueInv(w) && Enabled(w, Remove)
    ensures QueueInv(Step(w, Remove))
  {
    assert w.queue == [w.queue[0]] + w.queue[1..];
    assert w.handed + [] == w.handed;
  }

  lemma SendQueue(w: World)
    requires QueueInv(w) && Enabled(w, Send)
    ensures QueueInv(Step(w, Send))
  {
    var handed := w.handed + [w.pc.r];
    assert handed + [] == handed;
  }

  lemma SendStep(w: World, s0: LiveStore)
    requires Inv(w, s0) && Enabled(w, Send)
    ensures Inv(Step(w, Send), s0)
  {
    var w' := Step(w, Send);
    SendQueue(w);
    assert w'.handed[..|w'.handed| - 1] == w.handed;
    TurnBegins(w', s0);
  }

  lemma TurnBegins(w: World, s0: LiveStore)
    requires w.handed != [] && w.pc == Awaiting(w.handed[|w.handed| - 1]) && w.inbox == [w.pc.r] && w.outbox == []
    requires Progress(w.store, w.answered) == Sequential(s0, w.handed[..|w.handed| - 1]) && w.forwarded == w.answered
    ensures FlightInv(w, s0)
  {}

  lemma ServeStep(w: World, s0: LiveStore)
    requires Inv(w, s0) && Enabled(w, Action.Serve)
    ensures Inv(Step(w, Action.Serve), s0)
  {
    InboxUnserved(w, s0);
    ServeQueue(w);
    OnlyServed(w);
    TurnServed(Step(w, Action.Serve), s0);
  }

  lemma ServeQueue(w: World)
    requires QueueInv(w) && Unserved(w)
    ensures QueueInv(Step(w, Action.Serve))
  {
  }

  lemma InboxUnserved(w: World, s0: LiveStore)
    requires Inv(w, s0) && w.inbox != []
    ensures Unserved(w) && FlightInv(w, s0)
  {
  }

  lemma OnlyServed(w: World)
    requires Unserved(w)
    ensures var w' := Step(w, Action.Serve);
            var o := Kernel.Serve(w.store.kernel, RequestOf(w.pc.r.pdu), w.pc.r.fault);
            && w' == w.(inbox := [], outbox := w'.outbox, store := w'.store)
            && w'.outbox == [o.reply] && w'.store == Store(o.state, w.store.file)
  {
  }

  lemma TurnServed(w: World, s0: LiveStore)
    requires w.handed != [] && w.pc == Awaiting(w.handed[|w.handed| - 1]) && w.inbox == []
    requires var before := Sequential(s0, w.handed[..|w.handed| - 1]);
             var p := Process(before.store, w.pc.r.pdu, w.pc.r.fault);
             && w.store == Store(p.store.kernel, before.store.file)
             && w.answered == w.forwarded == before.replies && w.outbox == [p.reply]
    ensures FlightInv(w, s0)
  {
    SequentialLast(s0, w.handed);
  }

  lemma ReceiveStep(w: World, s0: LiveStore)
    requires Inv(w, s0) && Enabled(w, Receive)
    ensures Inv(Step(w, Receive), s0)
  {
    assert w.outbox == [w.outbox[0]];
  }

  lemma StoreStep(w: World, s0: LiveStore)
    requires Inv(w, s0) && Enabled(w, StoreData)
    ensures Inv(Step(w, StoreData), s0)
  {
    var w' := Step(w, StoreData);
    TurnFacts(w, s0);
    StoreQueue(w);
    if Tokenisable(w.store.file, w.pc.r.pdu, w.pc.reply) {
      AllStored(w);
      TurnEnds(w', s0);
    } else {
      GoneAstray(w);
      TurnLost(w, w', s0);
    }
  }

  lemma AllStored(w: World)
    requires w.pc.Storing? && Tokenisable(w.store.file, w.pc.r.pdu, w.pc.reply)
    ensures var w' := Step(w, StoreData);
            && w' == w.(store := w'.store, forwarded := w.forwarded + [w.pc.reply], pc := LoopTest)
            && w'.store == Store(w.store.kernel, Stored(w.store.file, w.pc.r.pdu, w.pc.reply))
  {
  }

  lemma GoneAstray(w: World)
    requires w.pc.Storing? && !Tokenisable(w.store.file, w.pc.r.pdu, w.pc.reply)
    ensures Step(w, StoreData) == w.(pc := Lost(w.pc.r, w.pc.reply))
  {
  }

  lemma StoreQueue(w: World)
    requires QueueInv(w) && Enabled(w, StoreData)
    ensures QueueInv(Step(w, StoreData))
  {
  }

  /** About to run store_data, only the file is behind. */
  lemma TurnFacts(w: World, s0: LiveStore)
    requires w.pc.Storing? && FlightInv(w, s0)
    ensures var before := Sequential(s0, w.handed[..|w.handed| - 1]);
            var p := Process(before.store, w.pc.r.pdu, w.pc.r.fault);
            && w.inbox == [] && w.outbox == [] && w.store == Store(p.store.kernel, before.store.file)
            && w.pc.reply == p.reply && w.forwarded == before.replies && w.answered == before.replies + [p.reply]
  {
    SequentialLast(s0, w.handed);
    assert w.answered + w.outbox == w.answered;
  }

  lemma TurnEnds(w: World, s0: LiveStore)
    requires w.handed != [] && w.inbox == [] && w.outbox == []
    requires var r := w.handed[|w.handed| - 1];
             var before := Sequential(s0, w.handed[..|w.handed| - 1]);
             var p := Process(before.store, r.pdu, r.fault);
             w.store == p.store && w.answered == w.forwarded == before.replies + [p.reply]
    ensures IdleInv(w, s0)
  {
    SequentialLast(s0, w.handed);
  }

  lemma TurnLost(w: World, w': World, s0: LiveStore)
    requires w.pc.Storing? && FlightInv(w, s0) && w' == w.(pc := Lost(w.pc.r, w.pc.reply))
    requires !Tokenisable(w.store.file, w.pc.r.pdu, w.pc.reply)
    ensures FlightInv(w', s0)
  {
  }

  lemma StepInv(w: World, a: Action, s0: LiveStore)
    requires Inv(w, s0) && Enabled(w, a)
    ensures Inv(Step(w, a), s0)
  {
    match a
    case Send => SendStep(w, s0);
    case Serve => ServeStep(w, s0);
    case Receive => ReceiveStep(w, s0);
    case StoreData => StoreStep(w, s0);
    case _ => QuietStep(w, a, s0);
  }

  lemma QuietStep(w: World, a: Action, s0: LiveStore)
    requires Inv(w, s0) && Enabled(w, a)
    requires a.Listen? || a in {TestExit, TestEmpty, Sleep, Wake, Remove, SetExit, BroadcastExit}
    ensures Inv(Step(w, a), s0)
  {
    QueueSteps(w, a);
    OutsideTurns(w, a);
    TurnKept(w, Step(w, a), s0);
  }

  lemma OutsideTurns(w: World, a: Action)
    requires Enabled(w, a)
    requires a.Listen? || a in {TestExit, TestEmpty, Sleep, Wake, Remove, SetExit, BroadcastExit}
    ensures var w' := Step(w, a);
            && w' == w.(pc := w'.pc, queue := w'.queue, inserted := w'.inserted, exitServer := w'.exitServer, told := w'.told, wires := w'.wires)
            && (w'.pc == w.pc || (!InFlight(w.pc) && !InFlight(w'.pc)))
  {
  }

  lemma {:induction false} RunInv(w: World, acts: seq<Action>, s0: LiveStore)
    requires Inv(w, s0) && CanRun(w, acts)
    ensures Inv(RunTo(w, acts), s0)
    decreases |acts|
  {
    if acts != [] {
      StepInv(w, acts[0], s0);
      RunInv(Step(w, acts[0]), acts[1..], s0);
    }
  }

  // ---- Results, for every interleaving ----

  function ByClient(rs: seq<Req>, c: nat): (mine: seq<Req>) {
    if rs == [] then []
    else
      var n := |rs| - 1;
      ByClient(rs[..n], c) + (if rs[n].client == c then [rs[n]] else [])
  }

  lemma {:induction false} ByClientPrefix(rs: seq<Req>, more: seq<Req>, c: nat)
    ensures ByClient(rs, c) <= ByClient(rs + more, c)
    decreases |more|
  {
    if more == [] {
      assert rs + more == rs;
    } else {
      var n := |more| - 1;
      assert (rs + more)[..|rs| + n] == rs + more[..n];
      ByClientPrefix(rs, more[..n], c);
    }
  }

  lemma Reached(s0: LiveStore, wires: seq<Bytes>, acts: seq<Action>) returns (w: World)
    requires CanRun(Init(s0, wires), acts)
    ensures w == RunTo(Init(s0, wires), acts) && QueueInv(w) && Settled(w, s0)
  {
    RunInv(Init(s0, wires), acts, s0);
    w := RunTo(Init(s0, wires), acts);
    if InFlight(w.pc) {
      FlightSettled(w, s0);
    } else {
      assert |w.answered| == |w.handed|;
      assert w.handed[..|w.answered|] == w.handed;
    }
  }

  /** What the invariant says to an outsider: which replies have come, and when the store is up to date. */
  ghost predicate Settled(w: World, s0: LiveStore) {
    && |w.inbox| + |w.outbox| <= 1 && |w.answered| <= |w.handed| <= |w.answered| + 1
    && w.answered == Sequential(s0, w.handed[..|w.answered|]).replies
    && |w.forwarded| <= |w.answered| && w.forwarded == w.answered[..|w.forwarded|]
    && |w.answered| <= |w.forwarded| + 1
    && (!InFlight(w.pc) ==> |w.answered| == |w.handed| && w.store == Sequential(s0, w.handed).store)
  }

  lemma FlightSettled(w: World, s0: LiveStore)
    requires InFlight(w.pc) && FlightInv(w, s0)
    ensures Settled(w, s0)
  {
    var n := |w.handed| - 1;
    SequentialSnoc(s0, w.handed);
    if Unserved(w) {
      assert |w.answered| == n;
    } else if w.pc.Awaiting? {
      assert |w.answered| == n && w.answered == Sequential(s0, w.handed).replies[..n];
    } else {
      assert w.answered == w.answered + w.outbox;
      assert w.handed[..|w.answered|] == w.handed;
    }
  }

  lemma HandedIsPrefix(w: World, c: nat)
    requires QueueInv(w)
    ensures w.handed <= w.inserted && ByClient(w.handed, c) <= ByClient(w.inserted, c)
    ensures forall k | 0 <= k <= |w.handed| :: w.inserted[..k] == w.handed[..k]
  {
    var more := Pending(w.pc) + w.queue;
    Regrouped(w.handed, Pending(w.pc), w.queue);
    ByClientPrefix(w.handed, more, c);
  }

  lemma Regrouped<X>(xs: seq<X>, ys: seq<X>, zs: seq<X>)
    ensures xs + ys + zs == xs + (ys + zs)
  {
  }

  /** The PDUs given to the kernel are a prefix of the insertion order, each client's in its own order;
      at most one is in flight; and the consumer never removes from an empty list. */
  lemma OrderKept(s0: LiveStore, wires: seq<Bytes>, acts: seq<Action>, c: nat) returns (w: World)
    requires CanRun(Init(s0, wires), acts)
    ensures w == RunTo(Init(s0, wires), acts) && w.handed <= w.inserted && ByClient(w.handed, c) <= ByClient(w.inserted, c)
    ensures |w.inbox| + |w.outbox| <= 1 && |w.answered| <= |w.handed| <= |w.answered| + 1
    ensures !w.pc.Crashed? && (Enabled(w, Remove) ==> w.queue != [])
  {
    w := Reached(s0, wires, acts);
    HandedIsPrefix(w, c);
  }

  lemma SequentialSnoc(s: LiveStore, rs: seq<Req>)
    requires rs != []
    ensures var n := |rs| - 1; Sequential(s, rs).replies[..n] == Sequential(s, rs[..n]).replies
  {}

  lemma PrefixOfPrefix<X>(s: seq<X>, n: nat, k: nat)
    requires k <= n <= |s|
    ensures s[..n][..k] == s[..k]
  {}

  lemma {:induction false} SequentialPrefix(s: LiveStore, rs: seq<Req>, k: nat)
    requires k <= |rs|
    ensures Sequential(s, rs[..k]).replies == Sequential(s, rs).replies[..k]
    decreases |rs|
  {
    if k == |rs| {
      assert rs[..k] == rs;
    } else {
      var n := |rs| - 1;
      SequentialPrefix(s, rs[..n], k);
      SequentialSnoc(s, rs);
      PrefixOfPrefix(rs, n, k);
      PrefixOfPrefix(Sequential(s, rs).replies, n, k);
    }
  }

  /** The i-th reply answers the i-th request of the insertion order, as if one thread had processed the
      queue alone; and between turns table and file are that thread's. */
  lemma RepliesMatch(s0: LiveStore, wires: seq<Bytes>, acts: seq<Action>) returns (w: World)
    requires CanRun(Init(s0, wires), acts)
    ensures w == RunTo(Init(s0, wires), acts)
    ensures |w.answered| <= |w.inserted|
    ensures w.answered == Sequential(s0, w.inserted[..|w.answered|]).replies
    ensures !InFlight(w.pc) ==> w.store == Sequential(s0, w.inserted[..|w.answered|]).store
    ensures |w.forwarded| <= |w.answered| <= |w.forwarded| + 1
    ensures w.forwarded == Sequential(s0, w.inserted[..|w.forwarded|]).replies
  {
    w := Reached(s0, wires, acts);
    HandedIsPrefix(w, 0);
    assert !InFlight(w.pc) ==> w.handed[..|w.answered|] == w.handed;
    SequentialPrefix(s0, w.inserted[..|w.answered|], |w.forwarded|);
    PrefixOfPrefix(w.inserted, |w.answered|, |w.forwarded|);
  }

  ghost predicate FromWfOp(r: Req) {
    exists op :: WfOp(op) && r.pdu == Encode(MessageOf(op))
  }

  ghost predicate FromWfOps(rs: seq<Req>) {
    forall i | 0 <= i < |rs| :: FromWfOp(rs[i])
  }

  lemma SequentialStore(s: LiveStore, rs: seq<Req>)
    requires rs != []
    ensures var n := |rs| - 1;
            Sequential(s, rs).store == Process(Sequential(s, rs[..n]).store, rs[n].pdu, rs[n].fault).store
  {}

  /** One well-formed request on a store that the books stand for. */
  lemma ProcessRefines(b: Books, r: Req) returns (last: Books)
    requires Sound(b) && FromWfOp(r)
    ensures Sound(last) && Process(Concrete(b), r.pdu, r.fault).store == Concrete(last) && (Agree(b) ==> Agree(last))
  {
    var op :| WfOp(op) && r.pdu == Encode(MessageOf(op));
    var e := Durable.Request(op, r.fault);
    ApplyRefines(b, e);
    last := AbsApply(b, e);
    if Agree(b) {
      ApplyKeepsAgreement(b, e);
    }
  }

  lemma {:induction false} SequentialRefines(b: Books, rs: seq<Req>) returns (last: Books)
    requires Sound(b) && FromWfOps(rs)
    ensures Sound(last) && Sequential(Concrete(b), rs).store == Concrete(last) && (Agree(b) ==> Agree(last))
    decreases |rs|
  {
    if rs == [] {
      last := b;
    } else {
      var n := |rs| - 1;
      last := SequentialRefines(b, rs[..n]);
      last := ProcessRefines(last, rs[n]);
      SequentialStore(Concrete(b), rs);
    }
  }

  /** Threads or not: whenever kernel_communication is between turns, nothing is in the table that is not in
      the file; and the file mirrors the table if it did at the start. */
  lemma ConcurrentRunsMirror(b: Books, wires: seq<Bytes>, acts: seq<Action>) returns (w: World)
    requires Sound(b) && CanRun(Init(Concrete(b), wires), acts)
    requires FromWfOps(RunTo(Init(Concrete(b), wires), acts).inserted)
    ensures w == RunTo(Init(Concrete(b), wires), acts)
    ensures !InFlight(w.pc) ==> Backed(w.store) && (Agree(b) ==> Mirrors(w.store))
  {
    w := RepliesMatch(Concrete(b), wires, acts);
    var last := SequentialRefines(b, w.inserted[..|w.answered|]);
    SoundStoresBacked(last);
    if Agree(b) {
      AgreeingStoresMirror(last);
    }
  }

  // ---- Where the queue comes from ----

  function PduBytes(rs: seq<Req>): (bs: seq<Bytes>)
    ensures |bs| == |rs| && forall i | 0 <= i < |rs| :: bs[i] == rs[i].pdu
  {
    seq(|rs|, i requires 0 <= i < |rs| => rs[i].pdu)
  }

  /** What client c's listener has queued, followed by what it will still hear, is what there was to hear. */
  ghost predicate HeardSoFar(w: World, wires: seq<Bytes>, c: nat)
    requires c < |wires| == |w.wires|
  {
    Hears(wires[c]).queue == PduBytes(ByClient(w.inserted, c)) + Hears(w.wires[c]).queue
  }

  ghost predicate WiresInv(w: World, wires: seq<Bytes>) {
    && |w.wires| == |wires| && (forall i | 0 <= i < |w.inserted| :: w.inserted[i].client < |wires|)
    && (forall c | 0 <= c < |wires| :: HeardSoFar(w, wires, c))
  }

  lemma InsertedSnoc(rs: seq<Req>, r: Req, c: nat)
    ensures PduBytes(ByClient(rs + [r], c)) == PduBytes(ByClient(rs, c)) + (if r.client == c then [r.pdu] else [])
  {
    assert (rs + [r])[..|rs|] == rs;
    assert ByClient(rs + [r], c) == ByClient(rs, c) + (if r.client == c then [r] else []);
  }

  lemma ListenStep(w: World, wires: seq<Bytes>, c: nat, fault: Fault)
    requires WiresInv(w, wires) && Enabled(w, Listen(c, fault))
    ensures WiresInv(Step(w, Listen(c, fault)), wires)
  {
    var w' := Step(w, Listen(c, fault));
    var got := Wire.Receive(w.wires[c]);
    HearsStep(w.wires[c], got.pdu, got.rest);
    forall d | 0 <= d < |wires| ensures HeardSoFar(w', wires, d) {
      assert HeardSoFar(w, wires, d);
      if Kept(got.pdu) != [] {
        InsertedSnoc(w.inserted, AnyReq.Req(c, got.pdu.data, fault), d);
      }
      if d == c {
        Requeued(PduBytes(ByClient(w.inserted, c)), Kept(got.pdu), Hears(got.rest).queue);
        assert PduBytes(ByClient(w.inserted, c)) + [] == PduBytes(ByClient(w.inserted, c));
      } else {
        assert PduBytes(ByClient(w.inserted, d)) + [] == PduBytes(ByClient(w.inserted, d));
      }
    }
  }

  lemma StepWires(w: World, wires: seq<Bytes>, a: Action)
    requires WiresInv(w, wires) && Enabled(w, a)
    ensures WiresInv(Step(w, a), wires)
  {
    if a.Listen? {
      ListenStep(w, wires, a.c, a.fault);
    } else {
      var w' := Step(w, a);
      assert w'.wires == w.wires && w'.inserted == w.inserted;
      forall c | 0 <= c < |wires| ensures HeardSoFar(w', wires, c) {
        assert HeardSoFar(w, wires, c);
      }
    }
  }

  /** In every interleaving, each client's part of the queue's history is the beginning of what there is to
      hear on its connection, and the rest is still on the connection. */
  lemma {:induction false} QueueIsHeard(w: World, wires: seq<Bytes>, acts: seq<Action>)
    requires WiresInv(w, wires) && CanRun(w, acts)
    ensures WiresInv(RunTo(w, acts), wires)
    decreases |acts|
  {
    if acts != [] {
      StepWires(w, wires, acts[0]);
      QueueIsHeard(Step(w, acts[0]), wires, acts[1..]);
    }
  }
}
