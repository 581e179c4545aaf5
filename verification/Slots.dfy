/** The life cycle of client-thread slots: accept_connections, client_listener, join_threads and
    close_server as one interleaved step system over n slots. Each step is a stretch of code between
    two accesses to shared state; an action names the thread that moves. Condition waits have no
    spurious wake-ups. */
module Slots {

  /** The thread last created in a slot: none unjoined, serving its client, between the two broadcasts
      of its exit path, past the second one, or returned and waiting to be joined. */
  datatype Thread = NoThread | Listening | Reported | Closing | Exited

  /** accept_connections: seeding the free list, before accept and the emptiness test, past a test that
      saw a free slot, holding a slot, and holding one after reading closeAllClients as false. */
  datatype Acceptor = Seeding(j: nat) | Accepting | SawFree | Holding(s: nat) | Cleared(s: nat) | AcceptorCrashed

  /** join_threads: before the emptiness test, past a test that saw nothing, asleep, signalled, about to
      remove, in pthread_join, about to give the slot back. */
  datatype Joiner =
    | Testing | GoingToWait | Waiting | Woken | Removing
    | Joining(s: nat) | Returning(s: nat) | Finished | JoinerCrashed

  /** close_server: not yet past setting closeAllClients, before the test of its wait loop, past a test that
      missed a slot, asleep, out of the loop, exitServer set, terminatedThreads' condition broadcast. */
  datatype Closer = Open | Looping | GoingToSleep | Sleeping | Left | ExitSet | Done

  datatype State = State(
    n: nat,
    avail: seq<nat>,
    term: seq<nat>,
    threads: seq<Thread>,
    acceptor: Acceptor,
    joiner: Joiner,
    closer: Closer,
    closeAllClients: bool,
    exitServer: bool,
    dropped: set<nat>,
    spawns: seq<nat>,  // history: pthread_create calls per slot
    joins: seq<nat>    // history: pthread_join returns per slot
  )

  function Init(n: nat): (st: State)
  {
    State(n, [], [], seq(n, _ => NoThread), Seeding(0), Testing, Open, false, false, {},
          seq(n, _ => 0), seq(n, _ => 0))
  }

  datatype Action =
    | Seed | TestFree | TakeSlot | ReadFlag | Spawn
    | Leave(c: nat) | Rebroadcast(c: nat) | Exit(c: nat)
    | JoinerTest | JoinerSleep | JoinerWake | JoinerRemove | JoinerJoin | JoinerReturn
    | RaiseFlag | CloserTest | CloserSleep | SetExit | BroadcastExit

  predicate Enabled(st: State, a: Action) {
    match a
    case Seed => st.acceptor.Seeding?
    case TestFree => st.acceptor.Accepting?
    case TakeSlot => st.acceptor.SawFree?
    case ReadFlag => st.acceptor.Holding?
    case Spawn => st.acceptor.Cleared? && st.acceptor.s < |st.threads| == |st.spawns|
    case Leave(c) => c < |st.threads| && st.threads[c] == Listening
    case Rebroadcast(c) => c < |st.threads| && st.threads[c] == Reported
    case Exit(c) => c < |st.threads| && st.threads[c] == Closing
    case JoinerTest => st.joiner.Testing?
    case JoinerSleep => st.joiner.GoingToWait?
    case JoinerWake => st.joiner.Woken?
    case JoinerRemove => st.joiner.Removing?
    case JoinerJoin => st.joiner.Joining? && st.joiner.s < |st.threads| == |st.joins| && st.threads[st.joiner.s] == Exited
    case JoinerReturn => st.joiner.Returning?
    case RaiseFlag => st.closer.Open?
    case CloserTest => st.closer.Looping?
    case CloserSleep => st.closer.GoingToSleep?
    case SetExit => st.closer.Left?
    case BroadcastExit => st.closer.ExitSet?
  }

  /** A broadcast on terminatedThreads' condition reaches the joiner only if it is already asleep. */
  function Signalled(j: Joiner): (j': Joiner) {
    if j.Waiting? then Woken else j
  }

  /** And inserting into availableThreads reaches close_server only if it is already asleep; it then tests
      again. */
  function Roused(c: Closer): (c': Closer) {
    if c.Sleeping? then Looping else c
  }

  function Step(st: State, a: Action): (st': State)
    requires Enabled(st, a)
  {
    match a
    case Seed =>
      if st.acceptor.j < st.n
      then st.(avail := st.avail + [st.acceptor.j], acceptor := Seeding(st.acceptor.j + 1), closer := Roused(st.closer))
      else st.(acceptor := Accepting)
    case TestFree => if st.avail == [] then st else st.(acceptor := SawFree)
    case TakeSlot =>
      if st.avail == [] then st.(acceptor := AcceptorCrashed)
      else st.(avail := st.avail[1..], acceptor := Holding(st.avail[0]))
    case ReadFlag =>
      if st.closeAllClients then st.(dropped := st.dropped + {st.acceptor.s}, acceptor := Accepting)
      else st.(acceptor := Cleared(st.acceptor.s))
    case Spawn =>
      var s := st.acceptor.s;
      st.(threads := st.threads[s := Listening], spawns := st.spawns[s := st.spawns[s] + 1], acceptor := Accepting)
    case Leave(c) =>
      st.(term := [c] + st.term, threads := st.threads[c := Reported], joiner := Signalled(st.joiner))
    case Rebroadcast(c) => st.(threads := st.threads[c := Closing], joiner := Signalled(st.joiner))
    case Exit(c) => st.(threads := st.threads[c := Exited])
    case JoinerTest => st.(joiner := if st.term == [] then GoingToWait else Removing)
    case JoinerSleep => st.(joiner := Waiting)
    case JoinerWake => st.(joiner := if st.exitServer then Finished else Removing)
    case JoinerRemove =>
      if st.term == [] then st.(joiner := JoinerCrashed)
      else st.(term := st.term[1..], joiner := Joining(st.term[0]))
    case JoinerJoin =>
      var s := st.joiner.s;
      st.(threads := st.threads[s := NoThread], joins := st.joins[s := st.joins[s] + 1], joiner := Returning(s))
    case JoinerReturn => st.(avail := st.avail + [st.joiner.s], joiner := Testing, closer := Roused(st.closer))
    case RaiseFlag => st.(closeAllClients := true, closer := Looping)
    case CloserTest => st.(closer := if |st.avail| < st.n then GoingToSleep else Left)
    case CloserSleep => st.(closer := Sleeping)
    case SetExit => st.(exitServer := true, closer := ExitSet)
    case BroadcastExit => st.(closer := Done, joiner := Signalled(st.joiner))
  }

  predicate CanRun(st: State, acts: seq<Action>)
    decreases |acts|
  {
    acts == [] || (Enabled(st, acts[0]) && CanRun(Step(st, acts[0]), acts[1..]))
  }

  function RunTo(st: State, acts: seq<Action>): (st': State)
    requires CanRun(st, acts)
    decreases |acts|
  {
    if acts == [] then st else RunTo(Step(st, acts[0]), acts[1..])
  }

  // ---- Places ----

  function One(b: bool): (k: nat) {
    if b then 1 else 0
  }

  function Seeded(st: State): (k: nat) {
    if st.acceptor.Seeding? then st.acceptor.j else st.n
  }

  predicate Held(st: State, s: nat) {
    (st.acceptor.Holding? || st.acceptor.Cleared?) && st.acceptor.s == s
  }

  predicate BeingJoined(st: State, s: nat) {
    (st.joiner.Joining? || st.joiner.Returning?) && st.joiner.s == s
  }

  predicate Running(st: State, s: nat) {
    s < |st.threads| && st.threads[s] == Listening
  }

  /** How many times slot number s is accounted for. */
  ghost function Places(st: State, s: nat): (k: nat) {
    multiset(st.avail)[s] + multiset(st.term)[s] + One(Held(st, s)) + One(BeingJoined(st, s))
    + One(Running(st, s)) + One(s in st.dropped)
  }

  /** Every seeded slot number is in exactly one place, every other in none. */
  ghost predicate Conserved(st: State) {
    && Seeded(st) <= st.n
    && forall s: nat :: Places(st, s) == One(s < Seeded(st))
  }

  /** A slot's handle is live exactly while its number is with a running, terminated or joining thread;
      creations and joins of a handle alternate. */
  ghost predicate HandlesMatch(st: State) {
    && |st.threads| == |st.spawns| == |st.joins| == st.n
    && (forall s: nat | s < st.n ::
          st.threads[s] in {Reported, Closing, Exited} <==> s in st.term || st.joiner == Joining(s))
    && (forall s: nat | s < st.n :: st.spawns[s] == st.joins[s] + One(st.threads[s] != NoThread))
  }

  ghost predicate FlagsMatch(st: State) {
    && (st.closeAllClients <==> !st.closer.Open?)
    && (st.exitServer <==> st.closer.ExitSet? || st.closer.Done?)
    && (st.dropped != {} ==> st.closeAllClients)
  }

  /** What each single consumer knows between its emptiness test and its removal. */
  ghost predicate ConsumersSafe(st: State) {
    && !st.acceptor.AcceptorCrashed? && !st.joiner.JoinerCrashed?
    && (st.acceptor.SawFree? ==> st.avail != [])
    && (st.joiner.Removing? ==> st.term != [])
    && (st.joiner.Woken? ==> st.term != [] || st.exitServer)
  }

  predicate HasLeft(st: State) {
    st.closer.Left? || st.closer.ExitSet? || st.closer.Done?
  }

  /** Nothing of a client thread is left: none created and unjoined, none reported, none to come. */
  ghost predicate Quiet(st: State) {
    && (forall s | 0 <= s < |st.threads| :: st.threads[s] == NoThread)
    && st.term == [] && !st.acceptor.Cleared? && !st.joiner.Joining? && !st.joiner.Returning?
  }

  ghost predicate Inv(st: State) {
    Conserved(st) && HandlesMatch(st) && FlagsMatch(st) && ConsumersSafe(st) && (HasLeft(st) ==> Quiet(st))
  }

  // ---- Preservation ----

  lemma HeadCount(q: seq<nat>)
    requires q != []
    ensures multiset(q) == multiset(q[1..]) + multiset{q[0]}
  {
    assert q == [q[0]] + q[1..];
  }

  lemma FirstCount(q: seq<nat>)
    ensures q == [] || multiset(q)[q[0]] > 0
  {
    assert q == [] || q[0] in multiset(q);
  }

  lemma TailIn(q: seq<nat>, s: nat)
    requires q != [] && multiset(q)[q[0]] <= 1
    ensures s in q[1..] <==> s in q && s != q[0]
  {
    HeadCount(q);
    assert s in q <==> s in multiset(q);
    assert s in q[1..] <==> s in multiset(q[1..]);
  }

  lemma SeedStep(st: State)
    requires Inv(st) && Enabled(st, Seed)
    ensures Inv(Step(st, Seed))
  {
    SeedConserves(st);
  }

  lemma SeedConserves(st: State)
    requires Conserved(st) && Enabled(st, Seed) && Seeded(st) <= st.n
    ensures Conserved(Step(st, Seed))
  {
    var st' := Step(st, Seed);
    var j := st.acceptor.j;
    var added: multiset<nat> := multiset{j};
    assert j < st.n ==> multiset(st'.avail) == multiset(st.avail) + added;
    forall s: nat ensures Places(st', s) == One(s < Seeded(st')) {
      assert Places(st, s) == One(s < Seeded(st));
    }
  }

  lemma TakeStep(st: State)
    requires Inv(st) && Enabled(st, TakeSlot)
    ensures Inv(Step(st, TakeSlot))
  {
    var st' := Step(st, TakeSlot);
    HeadCount(st.avail);
    forall s: nat ensures Places(st', s) == One(s < Seeded(st')) {
      assert Places(st, s) == One(s < Seeded(st));
    }
  }

  lemma TestFreeStep(st: State)
    requires Inv(st) && Enabled(st, TestFree)
    ensures Inv(Step(st, TestFree))
  {
    var st' := Step(st, TestFree);
    forall s: nat ensures Places(st', s) == One(s < Seeded(st')) {
      assert Places(st, s) == One(s < Seeded(st));
    }
  }

  lemma FlagStep(st: State)
    requires Inv(st) && Enabled(st, ReadFlag)
    ensures Inv(Step(st, ReadFlag))
  {
    var st' := Step(st, ReadFlag);
    assert Places(st, st.acceptor.s) == One(st.acceptor.s < st.n);
    forall s: nat ensures Places(st', s) == One(s < Seeded(st')) {
      assert Places(st, s) == One(s < Seeded(st));
    }
  }

  lemma SpawnStep(st: State)
    requires Inv(st) && Enabled(st, Spawn)
    ensures Inv(Step(st, Spawn))
  {
    var st' := Step(st, Spawn);
    assert Places(st, st.acceptor.s) == One(st.acceptor.s < st.n);
    forall s: nat ensures Places(st', s) == One(s < Seeded(st')) {
      assert Places(st, s) == One(s < Seeded(st));
    }
  }

  lemma LeaveStep(st: State, c: nat)
    requires Inv(st) && Enabled(st, Leave(c))
    ensures Inv(Step(st, Leave(c)))
  {
    var st' := Step(st, Leave(c));
    assert Places(st, c) == One(c < Seeded(st));
    LeaveConserves(st, c);
    assert forall s: nat :: s in st'.term <==> s == c || s in st.term;
  }

  lemma LeaveConserves(st: State, c: nat)
    requires Conserved(st) && Enabled(st, Leave(c))
    ensures Conserved(Step(st, Leave(c)))
  {
    var st' := Step(st, Leave(c));
    assert st'.term == [c] + st.term;
    forall s: nat ensures Places(st', s) == One(s < Seeded(st')) {
      assert Places(st, s) == One(s < Seeded(st));
    }
  }

  lemma RebroadcastStep(st: State, c: nat)
    requires Inv(st) && Enabled(st, Rebroadcast(c))
    ensures Inv(Step(st, Rebroadcast(c)))
  {
    var st' := Step(st, Rebroadcast(c));
    forall s: nat ensures Places(st', s) == One(s < Seeded(st')) {
      assert Places(st, s) == One(s < Seeded(st));
    }
  }

  lemma ExitStep(st: State, c: nat)
    requires Inv(st) && Enabled(st, Exit(c))
    ensures Inv(Step(st, Exit(c)))
  {
    var st' := Step(st, Exit(c));
    forall s: nat ensures Places(st', s) == One(s < Seeded(st')) {
      assert Places(st, s) == One(s < Seeded(st));
    }
  }

  lemma RemoveStep(st: State)
    requires Inv(st) && Enabled(st, JoinerRemove)
    ensures Inv(Step(st, JoinerRemove))
  {
    var st' := Step(st, JoinerRemove);
    RemoveConserves(st);
    assert Places(st, st.term[0]) == One(st.term[0] < Seeded(st));
    forall s: nat ensures s in st.term <==> s in st'.term || s == st.term[0] {
      TailIn(st.term, s);
    }
  }

  lemma RemoveConserves(st: State)
    requires Conserved(st) && Enabled(st, JoinerRemove) && st.term != []
    ensures Conserved(Step(st, JoinerRemove))
  {
    var st' := Step(st, JoinerRemove);
    HeadCount(st.term);
    forall s: nat ensures Places(st', s) == One(s < Seeded(st')) {
      assert Places(st, s) == One(s < Seeded(st));
    }
  }

  lemma JoinStep(st: State)
    requires Inv(st) && Enabled(st, JoinerJoin)
    ensures Inv(Step(st, JoinerJoin))
  {
    var st' := Step(st, JoinerJoin);
    assert Places(st, st.joiner.s) == One(st.joiner.s < Seeded(st));
    forall s: nat ensures Places(st', s) == One(s < Seeded(st')) {
      assert Places(st, s) == One(s < Seeded(st));
    }
  }

  lemma ReturnStep(st: State)
    requires Inv(st) && Enabled(st, JoinerReturn)
    ensures Inv(Step(st, JoinerReturn))
  {
    var st' := Step(st, JoinerReturn);
    var back: multiset<nat> := multiset{st.joiner.s};
    assert multiset(st'.avail) == multiset(st.avail) + back;
    forall s: nat ensures Places(st', s) == One(s < Seeded(st')) {
      assert Places(st, s) == One(s < Seeded(st));
    }
  }

  lemma WaitSteps(st: State, a: Action)
    requires Inv(st) && Enabled(st, a) && a in {JoinerTest, JoinerSleep, JoinerWake}
    ensures Inv(Step(st, a))
  {
    var st' := Step(st, a);
    forall s: nat ensures Places(st', s) == One(s < Seeded(st')) {
      assert Places(st, s) == One(s < Seeded(st));
    }
  }

  lemma CloserSteps(st: State, a: Action)
    requires Inv(st) && Enabled(st, a) && a in {RaiseFlag, CloserTest, CloserSleep, SetExit, BroadcastExit}
    ensures Inv(Step(st, a))
  {
    var st' := Step(st, a);
    forall s: nat ensures Places(st', s) == One(s < Seeded(st')) {
      assert Places(st, s) == One(s < Seeded(st));
    }
    if a == CloserTest && |st.avail| >= st.n {
      FullMeansQuiet(st);
    }
  }

  lemma DropAt(q: seq<nat>, i: nat) returns (r: seq<nat>)
    requires i < |q|
    ensures |r| == |q| - 1 && multiset(q) == multiset(r) + multiset{q[i]}
    ensures forall s | s in r :: s in q
  {
    r := q[..i] + q[i + 1..];
    assert q == q[..i] + [q[i]] + q[i + 1..];
  }

  /** Pigeonhole: n different numbers below n are all of them. */
  lemma {:induction false} AllPresent(q: seq<nat>, n: nat)
    requires forall s: nat :: multiset(q)[s] <= One(s < n)
    ensures |q| <= n
    ensures |q| >= n ==> forall s: nat | s < n :: s in q
    decreases n
  {
    if n == 0 {
      FirstCount(q);
    } else if n - 1 in q {
      var i :| 0 <= i < |q| && q[i] == n - 1;
      var r: seq<nat> := DropAt(q, i);
      forall s: nat ensures multiset(r)[s] <= One(s < n - 1) {
        assert multiset(q)[s] == multiset(r)[s] + multiset{q[i]}[s];
        assert multiset(q)[s] <= One(s < n);
      }
      AllPresent(r, n - 1);
    } else {
      assert multiset(q)[n - 1] == 0;
      AllPresent(q, n - 1);
    }
  }

  lemma TermHeadPlaced(st: State)
    ensures st.term == [] || Places(st, st.term[0]) > multiset(st.avail)[st.term[0]]
  {
    FirstCount(st.term);
  }

  /** When all n numbers are on the free list, no slot can be anywhere else. */
  lemma FullMeansQuiet(st: State)
    requires Inv(st) && |st.avail| >= st.n
    ensures Quiet(st)
  {
    forall s: nat ensures multiset(st.avail)[s] <= One(s < st.n) {
      assert Places(st, s) == One(s < Seeded(st));
    }
    AllPresent(st.avail, st.n);
    forall s: nat | Places(st, s) > 0 ensures multiset(st.avail)[s] == 1 == Places(st, s) {
      assert Places(st, s) == One(s < Seeded(st));
      assert s in st.avail;
      assert s in multiset(st.avail);
    }
    TermHeadPlaced(st);
    assert st.acceptor.Cleared? ==> Places(st, st.acceptor.s) > 0;
    assert st.joiner.Joining? || st.joiner.Returning? ==> Places(st, st.joiner.s) > 0;
    forall s | 0 <= s < |st.threads| ensures st.threads[s] == NoThread {
      assert Places(st, s) == One(s < Seeded(st));
    }
  }

  lemma InitInv(n: nat)
    ensures Inv(Init(n))
  {}

  lemma StepInv(st: State, a: Action)
    requires Inv(st) && Enabled(st, a)
    ensures Inv(Step(st, a))
  {
    match a
    case Leave(c) => LeaveStep(st, c);
    case Rebroadcast(c) => RebroadcastStep(st, c);
    case Exit(c) => ExitStep(st, c);
    case RaiseFlag => CloserSteps(st, a);
    case CloserTest => CloserSteps(st, a);
    case CloserSleep => CloserSteps(st, a);
    case SetExit => CloserSteps(st, a);
    case BroadcastExit => CloserSteps(st, a);
    case Seed => SeedStep(st);
    case TestFree => TestFreeStep(st);
    case TakeSlot => TakeStep(st);
    case ReadFlag => FlagStep(st);
    case Spawn => SpawnStep(st);
    case JoinerRemove => RemoveStep(st);
    case JoinerJoin => JoinStep(st);
    case JoinerReturn => ReturnStep(st);
    case _ => WaitSteps(st, a);
  }

  lemma {:induction false} RunInv(st: State, acts: seq<Action>)
    requires Inv(st) && CanRun(st, acts)
    ensures Inv(RunTo(st, acts)) && RunTo(st, acts).n == st.n
    decreases |acts|
  {
    if acts != [] {
      StepInv(st, acts[0]);
      RunInv(Step(st, acts[0]), acts[1..]);
    }
  }

  // ---- Results, for every number of slots and every interleaving ----

  /** Each slot number is always in exactly one place: free, held by the acceptor, running, terminated,
      being joined, or dropped; and nothing is dropped before closeAllClients. */
  lemma SlotConservation(n: nat, acts: seq<Action>)
    requires CanRun(Init(n), acts)
    ensures var st := RunTo(Init(n), acts);
            && Seeded(st) <= n
            && (forall s: nat :: Places(st, s) == One(s < Seeded(st)))
            && (!st.closeAllClients ==> st.dropped == {})
  {
    InitInv(n);
    RunInv(Init(n), acts);
  }

  /** pthread_create never overwrites the handle of an unjoined thread, pthread_join is only called on a
      handle not joined since its creation, and so creations and joins of each handle alternate. */
  lemma HandlesJoinedOnce(n: nat, acts: seq<Action>)
    requires CanRun(Init(n), acts)
    ensures var st := RunTo(Init(n), acts);
            && |st.spawns| == |st.joins| == n
            && (forall s | 0 <= s < n :: st.joins[s] <= st.spawns[s] <= st.joins[s] + 1)
            && (Enabled(st, Spawn) ==> st.spawns[st.acceptor.s] == st.joins[st.acceptor.s])
            && (st.joiner.Joining? ==> st.joiner.s < n && st.spawns[st.joiner.s] == st.joins[st.joiner.s] + 1)
  {
    InitInv(n);
    RunInv(Init(n), acts);
    var st := RunTo(Init(n), acts);
    if st.acceptor.Cleared? {
      assert Places(st, st.acceptor.s) == One(st.acceptor.s < n);
    }
    if st.joiner.Joining? {
      assert Places(st, st.joiner.s) == One(st.joiner.s < Seeded(st));
    }
  }

  /** Neither accept_connections nor join_threads ever removes from an empty list. */
  lemma ConsumersNeverCrash(n: nat, acts: seq<Action>)
    requires CanRun(Init(n), acts)
    ensures var st := RunTo(Init(n), acts);
            && !st.acceptor.AcceptorCrashed? && !st.joiner.JoinerCrashed?
            && (Enabled(st, TakeSlot) ==> st.avail != []) && (Enabled(st, JoinerRemove) ==> st.term != [])
  {
    InitInv(n);
    RunInv(Init(n), acts);
  }

  lemma {:induction false} QuietForever(st: State, acts: seq<Action>)
    requires Inv(st) && HasLeft(st) && CanRun(st, acts)
    ensures var st' := RunTo(st, acts); HasLeft(st') && Quiet(st') && !Enabled(st', Spawn) && st'.spawns == st.spawns
    decreases |acts|
  {
    if acts != [] {
      StepInv(st, acts[0]);
      QuietForever(Step(st, acts[0]), acts[1..]);
    }
  }

  /** Once close_server is out of its wait loop no client thread runs or is unjoined, the terminated list
      is empty, and however the program goes on no client thread is started any more. */
  lemma ShutdownSafe(n: nat, before: seq<Action>, after: seq<Action>)
    requires CanRun(Init(n), before) && HasLeft(RunTo(Init(n), before))
    requires CanRun(RunTo(Init(n), before), after)
    ensures var st := RunTo(Init(n), before); var st' := RunTo(st, after);
            Quiet(st) && Quiet(st') && !Enabled(st', Spawn) && st'.spawns == st.spawns
  {
    InitInv(n);
    RunInv(Init(n), before);
    QuietForever(RunTo(Init(n), before), after);
  }

  /** A slot refused during shutdown is never given back, so close_server can no longer finish. */
  lemma {:induction false} DroppedBlocksShutdown(st: State, acts: seq<Action>)
    requires Inv(st) && st.dropped != {} && !HasLeft(st) && CanRun(st, acts)
    ensures !HasLeft(RunTo(st, acts))
    decreases |acts|
  {
    if acts != [] {
      var s :| s in st.dropped;
      assert Places(st, s) == One(s < Seeded(st)) == 1;
      assert s !in multiset(st.avail) && s !in st.avail && s < st.n;
      if |st.avail| >= st.n {
        forall r: nat ensures multiset(st.avail)[r] <= One(r < st.n) {
          assert Places(st, r) == One(r < Seeded(st));
        }
        AllPresent(st.avail, st.n);
        assert false;
      }
      StepInv(st, acts[0]);
      DroppedBlocksShutdown(Step(st, acts[0]), acts[1..]);
    }
  }

  lemma {:induction false} RunConcat(st: State, xs: seq<Action>, ys: seq<Action>)
    requires CanRun(st, xs) && CanRun(RunTo(st, xs), ys)
    ensures CanRun(st, xs + ys) && RunTo(st, xs + ys) == RunTo(RunTo(st, xs), ys)
    decreases |xs|
  {
    if xs == [] {
      assert xs + ys == ys;
    } else {
      assert (xs + ys)[0] == xs[0] && (xs + ys)[1..] == xs[1..] + ys;
      RunConcat(Step(st, xs[0]), xs[1..], ys);
      assert CanRun(Step(st, xs[0]), (xs + ys)[1..]);
    }
  }

  lemma RunSnoc(st: State, acts: seq<Action>, a: Action)
    requires CanRun(st, acts) && Enabled(RunTo(st, acts), a)
    ensures CanRun(st, acts + [a]) && RunTo(st, acts + [a]) == Step(RunTo(st, acts), a)
  {
    var end := RunTo(st, acts);
    assert [a][1..] == [] && CanRun(Step(end, a), []);
    RunConcat(st, acts, [a]);
  }

  lemma {:induction false} SeedRun(st: State, k: nat)
    requires st.acceptor.Seeding? && st.acceptor.j + k == st.n && (k > 0 || st.avail != []) && st.closer.Open?
    ensures var acts := seq(k + 1, _ => Seed);
            && CanRun(st, acts)
            && var st' := RunTo(st, acts);
               st'.avail != [] && st' == st.(avail := st'.avail, acceptor := Accepting)
    decreases k
  {
    var acts := seq(k + 1, _ => Seed);
    if k == 0 {
      assert acts[1..] == [];
    } else {
      assert acts[1..] == seq(k, _ => Seed);
      SeedRun(Step(st, Seed), k - 1);
    }
  }

  /** With any positive number of slots there is a run (a client connecting as the server closes) after
      which close_server never leaves its wait loop. */
  lemma ShutdownCanHang(n: nat) returns (before: seq<Action>)
    requires n > 0
    ensures CanRun(Init(n), before) && RunTo(Init(n), before).closer.Looping?
    ensures forall after | CanRun(RunTo(Init(n), before), after) ::
              !HasLeft(RunTo(RunTo(Init(n), before), after))
  {
    before := seq(n + 1, _ => Seed);
    SeedRun(Init(n), n);
    before := RefusedWhileClosing(n, before);
    var st := RunTo(Init(n), before);
    InitInv(n);
    RunInv(Init(n), before);
    forall after | CanRun(st, after) ensures !HasLeft(RunTo(st, after)) {
      DroppedBlocksShutdown(st, after);
    }
  }

  lemma RefusedWhileClosing(n: nat, seeds: seq<Action>) returns (acts: seq<Action>)
    requires CanRun(Init(n), seeds)
    requires var st := RunTo(Init(n), seeds); st.avail != [] && st == Init(n).(avail := st.avail, acceptor := Accepting)
    ensures CanRun(Init(n), acts)
    ensures RunTo(Init(n), acts).closer.Looping? && RunTo(Init(n), acts).dropped != {}
  {
    acts := seeds;
    RunSnoc(Init(n), acts, TestFree);
    acts := acts + [TestFree];
    RunSnoc(Init(n), acts, TakeSlot);
    acts := acts + [TakeSlot];
    RunSnoc(Init(n), acts, RaiseFlag);
    acts := acts + [RaiseFlag];
    var s := RunTo(Init(n), acts).acceptor.s;
    RunSnoc(Init(n), acts, ReadFlag);
    acts := acts + [ReadFlag];
    assert s in RunTo(Init(n), acts).dropped;
  }
}
