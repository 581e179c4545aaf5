/** When close_server can still get out of its wait loop: the exact condition on the state of the threads. */
module Shutdown {
  import opened Slots

  /** Before the acceptor serves anyone no client thread has existed; and the joiner only returns when told
      to. */
  ghost predicate Tidy(st: State) {
    && Inv(st) && (st.joiner.Finished? ==> st.exitServer)
    && (st.acceptor.Seeding? ==>
          && st.term == [] && !st.joiner.Joining? && !st.joiner.Returning?
          && forall c | 0 <= c < |st.threads| :: st.threads[c] == NoThread)
  }

  lemma TidyStep(st: State, a: Action)
    requires Tidy(st) && Enabled(st, a)
    ensures Tidy(Step(st, a))
  {
    StepInv(st, a);
  }

  lemma {:induction false} TidyRun(st: State, acts: seq<Action>)
    requires Tidy(st) && CanRun(st, acts)
    ensures Tidy(RunTo(st, acts)) && RunTo(st, acts).n == st.n
    decreases |acts|
  {
    if acts != [] {
      TidyStep(st, acts[0]);
      TidyRun(Step(st, acts[0]), acts[1..]);
    }
  }

  // ---- The condition ----

  predicate IsListening(st: State, c: nat) {
    c < |st.threads| && st.threads[c] == Listening
  }

  predicate IsReported(st: State, c: nat) {
    c < |st.threads| && st.threads[c] == Reported
  }

  /** The joiner sleeps or is past its emptiness test on the way to sleep. */
  predicate Asleep(st: State) {
    st.joiner.GoingToWait? || st.joiner.Waiting?
  }

  /** Somebody has yet to broadcast on the terminated list: a thread before the end of its exit path, one
      about to be created, or one that a client still to come will get. */
  ghost predicate SignalToCome(st: State) {
    || (exists c :: IsListening(st, c)) || (exists c :: IsReported(st, c)) || st.acceptor.Cleared?
    || (!st.closeAllClients && (st.acceptor.Holding? || st.avail != []))
  }

  /** close_server sleeps or is past its test on the way to sleep. */
  predicate CloserAsleep(st: State) {
    st.closer.GoingToSleep? || st.closer.Sleeping?
  }

  /** Nothing dropped or about to be dropped; no terminated thread waits for a joiner that sleeps for good;
      and close_server itself does not sleep with every slot back already. */
  ghost predicate CanFinish(st: State) {
    && st.dropped == {} && !(st.closeAllClients && st.acceptor.Holding?)
    && (Asleep(st) && st.term != [] ==> SignalToCome(st))
    && (CloserAsleep(st) ==> |st.avail| < st.n)
  }

  // ---- Without it the loop is never left ----

  lemma PlaceOfFull(st: State, s: nat)
    requires Inv(st) && |st.avail| >= st.n
    ensures Places(st, s) == multiset(st.avail)[s]
  {
    forall r: nat ensures multiset(st.avail)[r] <= One(r < st.n) {
      assert Places(st, r) == One(r < Seeded(st));
    }
    AllPresent(st.avail, st.n);
    assert Places(st, s) == One(s < Seeded(st));
    assert s < st.n ==> s in st.avail && s in multiset(st.avail);
  }

  lemma FullMeansNothingElsewhere(st: State)
    requires Inv(st) && |st.avail| >= st.n
    ensures st.dropped == {} && !st.acceptor.Holding? && st.term == []
  {
    if s :| s in st.dropped {
      PlaceOfFull(st, s);
    }
    if st.acceptor.Holding? {
      PlaceOfFull(st, st.acceptor.s);
    }
    if st.term != [] {
      PlaceOfFull(st, st.term[0]);
      FirstCount(st.term);
    }
  }

  lemma DoomedStays(st: State, a: Action)
    requires Tidy(st) && !HasLeft(st) && !CanFinish(st) && Enabled(st, a)
    ensures !HasLeft(Step(st, a)) && !CanFinish(Step(st, a))
  {
    var st' := Step(st, a);
    if a == CloserTest && |st.avail| >= st.n {
      FullMeansNothingElsewhere(st);
    }
    if st.dropped == {} && !(st.closeAllClients && st.acceptor.Holding?) {
      if Asleep(st) && st.term != [] && !SignalToCome(st) {
        SleepStays(st, a);
      } else {
        CloserStays(st, a);
      }
    }
  }

  lemma CloserStays(st: State, a: Action)
    requires Tidy(st) && CloserAsleep(st) && |st.avail| >= st.n && Enabled(st, a)
    ensures var st' := Step(st, a);
            || (CloserAsleep(st') && |st'.avail| >= st'.n)
            || (st'.closeAllClients && st'.acceptor.Holding?)
  {
    FullMeansQuiet(st);
    SeedingIsShort(st);
  }

  /** During seeding the free list cannot hold all numbers before the last one is inserted. */
  lemma SeedingIsShort(st: State)
    requires Tidy(st) && |st.avail| >= st.n
    ensures st.acceptor.Seeding? ==> st.acceptor.j == st.n
  {
    forall r: nat ensures multiset(st.avail)[r] <= One(r < Seeded(st)) {
      assert Places(st, r) == One(r < Seeded(st));
    }
    AllPresent(st.avail, Seeded(st));
  }

  lemma SleepStays(st: State, a: Action)
    requires Tidy(st) && Asleep(st) && st.term != [] && !SignalToCome(st) && Enabled(st, a)
    ensures Asleep(Step(st, a)) && Step(st, a).term != [] && !SignalToCome(Step(st, a))
  {
    NoNewSignal(st, a);
    assert a.Leave? ==> IsListening(st, a.c);
    assert a.Rebroadcast? ==> IsReported(st, a.c);
  }

  lemma NoNewSignal(st: State, a: Action)
    requires Enabled(st, a)
    ensures !a.Spawn? ==> forall c :: IsListening(Step(st, a), c) ==> IsListening(st, c)
    ensures !a.Leave? ==> forall c :: IsReported(Step(st, a), c) ==> IsReported(st, c)
  {
  }

  lemma {:induction false} DoomedForever(st: State, acts: seq<Action>)
    requires Tidy(st) && !HasLeft(st) && !CanFinish(st) && CanRun(st, acts)
    ensures !HasLeft(RunTo(st, acts))
    decreases |acts|
  {
    if acts != [] {
      DoomedStays(st, acts[0]);
      TidyStep(st, acts[0]);
      DoomedForever(Step(st, acts[0]), acts[1..]);
    }
  }

  // ---- With it there is a way out ----

  function Weight(t: Thread): (w: nat) {
    match t
    case Listening => 8
    case Reported => 3
    case Closing => 2
    case Exited => 1
    case NoThread => 0
  }

  function ThreadWork(ts: seq<Thread>): (w: nat) {
    if ts == [] then 0 else Weight(ts[0]) + ThreadWork(ts[1..])
  }

  lemma {:induction false} ThreadWorkUpdate(ts: seq<Thread>, c: nat, t: Thread)
    requires c < |ts|
    ensures ThreadWork(ts[c := t]) == ThreadWork(ts) - Weight(ts[c]) + Weight(t)
  {
    if c > 0 {
      ThreadWorkUpdate(ts[1..], c - 1, t);
      assert ts[c := t][1..] == ts[1..][c - 1 := t];
    }
  }

  function JoinerWork(j: Joiner): (w: nat) {
    match j
    case Joining(_) => 3
    case Returning(_) => 2
    case Testing => 1
    case Woken => 1
    case _ => 0
  }

  /** The joiner waits and nobody is left inside to signal it: the acceptor has to bring in a client. */
  ghost predicate NeedsClient(st: State) {
    st.joiner.Waiting? && forall c :: !IsListening(st, c)
  }

  /** What is left of the way out, most significant part first. */
  datatype Rank = Rank(seeds: nat, sleep: nat, accept: nat, work: nat, open: nat)

  ghost function RankOf(st: State): (r: Rank)
    requires Tidy(st)
  {
    Rank(if st.acceptor.Seeding? then st.n - st.acceptor.j + 1 else 0,
         match st.joiner case GoingToWait => 2 case Waiting => 1 case _ => 0,
         match st.acceptor
         case Cleared(_) => 1
         case Holding(_) => 2
         case SawFree => if NeedsClient(st) then 3 else 0
         case Accepting => if NeedsClient(st) then 4 else 0
         case _ => 0,
         ThreadWork(st.threads) + 4 * |st.term| + JoinerWork(st.joiner),
         match st.closer case GoingToSleep => 2 case Open => 1 case Sleeping => 1 case _ => 0)
  }

  predicate Less(a: Rank, b: Rank) {
    || a.seeds < b.seeds
    || (a.seeds == b.seeds && a.sleep < b.sleep)
    || (a.seeds == b.seeds && a.sleep == b.sleep && a.accept < b.accept)
    || (a.seeds == b.seeds && a.sleep == b.sleep && a.accept == b.accept && a.work < b.work)
    || (a.seeds == b.seeds && a.sleep == b.sleep && a.accept == b.accept && a.work == b.work && a.open < b.open)
  }

  ghost predicate Hopeful(st: State) {
    Tidy(st) && !HasLeft(st) && CanFinish(st)
  }

  /** A step out of the loop, or one that keeps the condition and shortens the way. */
  ghost predicate Advances(st: State, a: Action) {
    && Tidy(st) && Enabled(st, a) && Tidy(Step(st, a))
    && (Step(st, a).closer.Left? || (Hopeful(Step(st, a)) && Less(RankOf(Step(st, a)), RankOf(st))))
  }

  /** close_server is not on its way to sleep, so what is returned now will reach it. */
  predicate Reachable(st: State) {
    !st.closer.GoingToSleep?
  }

  lemma AcceptorAdvances(st: State) returns (a: Action)
    requires Hopeful(st) && Reachable(st) && !st.acceptor.Accepting? && !st.acceptor.SawFree?
    ensures Advances(st, a)
  {
    match st.acceptor
    case Seeding(_) => a := Seed; TidyStep(st, a);
    case Holding(_) => a := ReadFlag; TidyStep(st, a);
    case Cleared(s) =>
      assert Places(st, s) == One(s < st.n);
      a := Spawn;
      TidyStep(st, a);
      assert IsListening(Step(st, a), s);
    case _ =>
  }

  predicate Idle(st: State) {
    st.acceptor.Accepting? || st.acceptor.SawFree?
  }

  lemma JoinedAdvances(st: State, s: nat) returns (a: Action)
    requires Hopeful(st) && Reachable(st) && Idle(st) && st.joiner == Joining(s)
    ensures Advances(st, a)
  {
    assert Places(st, s) == One(s < Seeded(st));
    if st.threads[s].Exited? {
      a := JoinerJoin;
      TidyStep(st, a);
      ThreadWorkUpdate(st.threads, s, NoThread);
    } else {
      a := ThreadEnds(st, s);
    }
  }

  lemma ThreadEnds(st: State, s: nat) returns (a: Action)
    requires Hopeful(st) && Reachable(st) && Idle(st) && st.joiner == Joining(s)
    requires s < |st.threads| && (st.threads[s].Reported? || st.threads[s].Closing?)
    ensures Advances(st, a)
  {
    a := if st.threads[s].Reported? then Rebroadcast(s) else Exit(s);
    TidyStep(st, a);
    ThreadWorkUpdate(st.threads, s, Step(st, a).threads[s]);
  }

  lemma JoinerMoves(st: State, a: Action)
    requires Hopeful(st) && Reachable(st) && Idle(st) && Enabled(st, a)
    requires a in {JoinerWake, JoinerRemove, JoinerReturn} || (a == JoinerTest && st.term != [])
    ensures Advances(st, a)
  {
    TidyStep(st, a);
    assert st.threads == Step(st, a).threads;
  }

  /** A joiner at work goes on; a thread it waits for runs to its end. */
  lemma JoinerAdvances(st: State) returns (a: Action)
    requires Hopeful(st) && Reachable(st) && Idle(st) && !Asleep(st) && (st.joiner.Testing? ==> st.term != [])
    ensures Advances(st, a)
  {
    match st.joiner
    case Joining(s) => a := JoinedAdvances(st, s);
    case Testing => a := JoinerTest; JoinerMoves(st, a);
    case Woken => a := JoinerWake; JoinerMoves(st, a);
    case Removing => a := JoinerRemove; JoinerMoves(st, a);
    case Returning(_) => a := JoinerReturn; JoinerMoves(st, a);
    case _ =>
  }

  lemma ThreadLeaves(st: State, c: nat)
    requires Hopeful(st) && Reachable(st) && Idle(st) && (st.joiner.Testing? || st.joiner.Waiting?) && IsListening(st, c)
    ensures Advances(st, Leave(c))
  {
    TidyStep(st, Leave(c));
    ThreadWorkUpdate(st.threads, c, Reported);
  }

  lemma SleeperAdvances(st: State) returns (a: Action)
    requires Hopeful(st) && Reachable(st) && Idle(st) && st.joiner.Waiting? && st.term != [] && forall c :: !IsListening(st, c)
    ensures Advances(st, a)
  {
    if c :| IsReported(st, c) {
      a := Rebroadcast(c);
      TidyStep(st, a);
    } else {
      a := if st.acceptor.Accepting? then TestFree else TakeSlot;
      TidyStep(st, a);
      assert forall c :: IsListening(Step(st, a), c) <==> IsListening(st, c);
    }
  }

  lemma {:induction false} CoverIsLong(q: seq<nat>, n: nat)
    requires forall s: nat | s < n :: multiset(q)[s] >= 1
    ensures |q| >= n
    decreases n
  {
    if n > 0 {
      assert n - 1 in multiset(q);
      var i :| 0 <= i < |q| && q[i] == n - 1;
      var r: seq<nat> := DropAt(q, i);
      forall s: nat | s < n - 1 ensures multiset(r)[s] >= 1 {
        assert multiset(q)[s] == multiset(r)[s] + multiset{q[i]}[s];
      }
      CoverIsLong(r, n - 1);
    }
  }

  /** Nothing left to wait for: close_server raises its flag and passes its test. */
  lemma CloserAdvances(st: State) returns (a: Action)
    requires Hopeful(st) && Reachable(st) && Idle(st) && st.term == [] && (st.joiner.Testing? || Asleep(st))
    requires forall c :: !IsListening(st, c)
    ensures Advances(st, a)
  {
    if st.closer.Open? {
      a := RaiseFlag;
      TidyStep(st, a);
      assert forall c :: IsListening(Step(st, a), c) <==> IsListening(st, c);
    } else {
      a := CloserTest;
      forall s: nat | s < st.n ensures multiset(st.avail)[s] >= 1 {
        assert Places(st, s) == One(s < Seeded(st));
        assert !IsListening(st, s);
      }
      CoverIsLong(st.avail, st.n);
      TidyStep(st, a);
    }
  }

  lemma SomeStepAdvances(st: State) returns (a: Action)
    requires Hopeful(st)
    ensures Advances(st, a)
  {
    if st.closer.GoingToSleep? {
      a := CloserSleep;
      TidyStep(st, a);
      CloserSleepKeeps(st);
    } else if !Idle(st) {
      a := AcceptorAdvances(st);
    } else if !Asleep(st) && (st.joiner.Testing? ==> st.term != []) {
      a := JoinerAdvances(st);
    } else if st.joiner.GoingToWait? && (st.term != [] || exists c :: IsListening(st, c)) {
      a := JoinerSleep;
      TidyStep(st, a);
      SleepKeepsSignals(st);
    } else if c :| IsListening(st, c) {
      ThreadLeaves(st, c);
      a := Leave(c);
    } else if st.term != [] {
      a := SleeperAdvances(st);
    } else {
      a := CloserAdvances(st);
    }
  }

  lemma CloserSleepKeeps(st: State)
    requires Enabled(st, CloserSleep)
    ensures SignalToCome(st) ==> SignalToCome(Step(st, CloserSleep))
    ensures NeedsClient(st) <==> NeedsClient(Step(st, CloserSleep))
  {
    var st' := Step(st, CloserSleep);
    assert forall c :: IsListening(st, c) <==> IsListening(st', c);
    assert forall c :: IsReported(st, c) <==> IsReported(st', c);
  }

  lemma SleepKeepsSignals(st: State)
    requires Enabled(st, JoinerSleep) && SignalToCome(st)
    ensures SignalToCome(Step(st, JoinerSleep))
  {
    var st' := Step(st, JoinerSleep);
    assert forall c :: IsListening(st, c) ==> IsListening(st', c);
    assert forall c :: IsReported(st, c) ==> IsReported(st', c);
  }

  lemma RunCons(st: State, a: Action, acts: seq<Action>)
    requires Enabled(st, a) && CanRun(Step(st, a), acts)
    ensures CanRun(st, [a] + acts) && RunTo(st, [a] + acts) == RunTo(Step(st, a), acts)
  {
    assert ([a] + acts)[1..] == acts;
  }

  lemma {:induction false} WayOut(st: State) returns (acts: seq<Action>)
    requires Hopeful(st)
    ensures CanRun(st, acts) && RunTo(st, acts).closer.Left?
    decreases RankOf(st).seeds, RankOf(st).sleep, RankOf(st).accept, RankOf(st).work, RankOf(st).open
  {
    var a := SomeStepAdvances(st);
    var rest := [];
    if !HasLeft(Step(st, a)) {
      rest := WayOut(Step(st, a));
    }
    RunCons(st, a, rest);
    acts := [a] + rest;
  }

  ghost predicate CanLeave(st: State) {
    exists more :: CanRun(st, more) && HasLeft(RunTo(st, more))
  }

  /** At every moment of every run, for every number of slots: some continuation takes close_server out of
      its wait loop if and only if it is out already or CanFinish holds. */
  lemma LeavesIff(n: nat, acts: seq<Action>)
    requires CanRun(Init(n), acts)
    ensures var st := RunTo(Init(n), acts); CanLeave(st) <==> HasLeft(st) || CanFinish(st)
  {
    InitInv(n);
    TidyRun(Init(n), acts);
    var st := RunTo(Init(n), acts);
    if HasLeft(st) {
      assert CanRun(st, []) && HasLeft(RunTo(st, []));
    } else if CanFinish(st) {
      var more := WayOut(st);
    } else {
      forall more | CanRun(st, more) ensures !HasLeft(RunTo(st, more)) {
        DoomedForever(st, more);
      }
    }
  }

  // ---- The other way to hang: a lost wake-up ----

  /** For every positive number of slots there is a run in which nothing is dropped and close_server still
      hangs: join_threads finds nothing terminated, then the last client leaves and broadcasts, then
      join_threads goes to sleep. */
  lemma LostWakeupHangs(n: nat) returns (acts: seq<Action>)
    requires n > 0
    ensures CanRun(Init(n), acts)
    ensures var st := RunTo(Init(n), acts);
            st.dropped == {} && st.joiner == Waiting && st.term != [] && !HasLeft(st) && !CanLeave(st)
  {
    acts := seq(n + 1, _ => Seed);
    SeedRun(Init(n), n);
    acts := Served(n, acts);
    var st := RunTo(Init(n), acts);
    var c := st.acceptor.s;
    InitInv(n);
    TidyRun(Init(n), acts);
    assert Places(st, c) == One(c < n);
    acts := LastOneLeaves(n, acts, c);
    st := RunTo(Init(n), acts);
    LeavesIff(n, acts);
  }

  /** From the seeded state, one client is let in as far as its thread's creation. */
  lemma Served(n: nat, seeds: seq<Action>) returns (acts: seq<Action>)
    requires CanRun(Init(n), seeds)
    requires var st := RunTo(Init(n), seeds); st.avail != [] && st == Init(n).(avail := st.avail, acceptor := Accepting)
    ensures CanRun(Init(n), acts)
    ensures var st := RunTo(Init(n), acts);
            st.acceptor.Cleared? && st == Init(n).(avail := st.avail, acceptor := st.acceptor)
  {
    acts := seeds;
    RunSnoc(Init(n), acts, TestFree);
    acts := acts + [TestFree];
    RunSnoc(Init(n), acts, TakeSlot);
    acts := acts + [TakeSlot];
    RunSnoc(Init(n), acts, ReadFlag);
    acts := acts + [ReadFlag];
  }

  lemma LastOneLeaves(n: nat, before: seq<Action>, c: nat) returns (acts: seq<Action>)
    requires CanRun(Init(n), before) && c < n
    requires var st := RunTo(Init(n), before); st == Init(n).(avail := st.avail, acceptor := Cleared(c))
    ensures CanRun(Init(n), acts)
    ensures var st := RunTo(Init(n), acts);
            && st.joiner == Waiting && st.term == [c] && st.dropped == {} && st.closer == Looping
            && st.closeAllClients && st.acceptor == Accepting
            && forall d | 0 <= d < |st.threads| :: st.threads[d] in {NoThread, Exited}
  {
    acts := ClosedWhileServing(n, before, c);
    acts := LeavesUnheard(n, acts, c);
  }

  lemma ClosedWhileServing(n: nat, before: seq<Action>, c: nat) returns (acts: seq<Action>)
    requires CanRun(Init(n), before) && c < n
    requires var st := RunTo(Init(n), before); st == Init(n).(avail := st.avail, acceptor := Cleared(c))
    ensures CanRun(Init(n), acts)
    ensures var st := RunTo(Init(n), acts);
            && st.joiner == GoingToWait && st.term == [] && st.dropped == {} && st.closer == Looping
            && st.closeAllClients && st.acceptor == Accepting
            && c < |st.threads| && st.threads[c] == Listening
            && forall d | 0 <= d < |st.threads| && d != c :: st.threads[d] == NoThread
  {
    acts := before;
    RunSnoc(Init(n), acts, Spawn);
    acts := acts + [Spawn];
    RunSnoc(Init(n), acts, JoinerTest);
    acts := acts + [JoinerTest];
    RunSnoc(Init(n), acts, RaiseFlag);
    acts := acts + [RaiseFlag];
  }

  lemma LeavesUnheard(n: nat, before: seq<Action>, c: nat) returns (acts: seq<Action>)
    requires CanRun(Init(n), before)
    requires var st := RunTo(Init(n), before);
             && st.joiner == GoingToWait && st.term == [] && st.dropped == {} && st.closer == Looping
             && st.closeAllClients && st.acceptor == Accepting
             && c < |st.threads| && st.threads[c] == Listening
             && forall d | 0 <= d < |st.threads| && d != c :: st.threads[d] == NoThread
    ensures CanRun(Init(n), acts)
    ensures var st := RunTo(Init(n), acts);
            && st.joiner == Waiting && st.term == [c] && st.dropped == {} && st.closer == Looping
            && st.closeAllClients && st.acceptor == Accepting
            && forall d | 0 <= d < |st.threads| :: st.threads[d] in {NoThread, Exited}
  {
    acts := before;
    RunSnoc(Init(n), acts, Leave(c));
    acts := acts + [Leave(c)];
    RunSnoc(Init(n), acts, Rebroadcast(c));
    acts := acts + [Rebroadcast(c)];
    RunSnoc(Init(n), acts, Exit(c));
    acts := acts + [Exit(c)];
    RunSnoc(Init(n), acts, JoinerSleep);
    acts := acts + [JoinerSleep];
  }

  /** And for every positive number of slots there is a run in which everybody has been joined, every slot is
      back, and close_server sleeps for good: the last slot came back between its test and its wait. */
  lemma MissedReturnHangs(n: nat) returns (acts: seq<Action>)
    requires n > 0
    ensures CanRun(Init(n), acts)
    ensures var st := RunTo(Init(n), acts);
            st.dropped == {} && st.term == [] && |st.avail| == n && !HasLeft(st) && !CanLeave(st)
  {
    acts := seq(n + 1, _ => Seed);
    SeedRun(Init(n), n);
    acts := Served(n, acts);
    var st := RunTo(Init(n), acts);
    var c := st.acceptor.s;
    InitInv(n);
    TidyRun(Init(n), acts);
    assert Places(st, c) == One(c < n);
    AllBut(st, n);
    acts := ClosedTooEarly(n, acts, c);
    acts := LastOneReturns(n, acts, c);
    LeavesIff(n, acts);
  }

  /** With the acceptor holding a slot and nothing else out, the free list is one short. */
  lemma AllBut(st: State, n: nat)
    requires Tidy(st) && st.n == n && st.acceptor.Cleared?
    requires st == Init(n).(avail := st.avail, acceptor := st.acceptor)
    ensures |st.avail| == n - 1
  {
    var all: seq<nat> := st.avail + [st.acceptor.s];
    var held: multiset<nat> := multiset{st.acceptor.s};
    forall s: nat ensures multiset(all)[s] == One(s < n) {
      assert multiset(all)[s] == multiset(st.avail)[s] + held[s];
      assert Places(st, s) == One(s < Seeded(st));
    }
    AllPresent(all, n);
    CoverIsLong(all, n);
  }

  lemma ClosedTooEarly(n: nat, before: seq<Action>, c: nat) returns (acts: seq<Action>)
    requires CanRun(Init(n), before) && c < n
    requires var st := RunTo(Init(n), before);
             |st.avail| == n - 1 && st == Init(n).(avail := st.avail, acceptor := Cleared(c))
    ensures CanRun(Init(n), acts)
    ensures var st := RunTo(Init(n), acts);
            && |st.avail| == n - 1 && st.acceptor == Accepting && st.closeAllClients && st.n == n
            && st.joiner == Testing && st.term == [c] && st.dropped == {} && st.closer == GoingToSleep
            && |st.threads| == |st.joins| == n && st.threads[c] == Exited
  {
    acts := before;
    RunSnoc(Init(n), acts, Spawn);
    acts := acts + [Spawn];
    RunSnoc(Init(n), acts, RaiseFlag);
    acts := acts + [RaiseFlag];
    RunSnoc(Init(n), acts, CloserTest);
    acts := acts + [CloserTest];
    RunSnoc(Init(n), acts, Leave(c));
    acts := acts + [Leave(c)];
    RunSnoc(Init(n), acts, Rebroadcast(c));
    acts := acts + [Rebroadcast(c)];
    RunSnoc(Init(n), acts, Exit(c));
    acts := acts + [Exit(c)];
  }

  lemma LastOneReturns(n: nat, before: seq<Action>, c: nat) returns (acts: seq<Action>)
    requires CanRun(Init(n), before) && c < n
    requires var st := RunTo(Init(n), before);
             && |st.avail| == n - 1 && st.acceptor == Accepting && st.closeAllClients && st.n == n
             && st.joiner == Testing && st.term == [c] && st.dropped == {} && st.closer == GoingToSleep
             && |st.threads| == |st.joins| == n && st.threads[c] == Exited
    ensures CanRun(Init(n), acts)
    ensures var st := RunTo(Init(n), acts);
            st.closer == Sleeping && |st.avail| == st.n == n && st.term == [] && st.dropped == {}
  {
    acts := before;
    RunSnoc(Init(n), acts, JoinerTest);
    acts := acts + [JoinerTest];
    RunSnoc(Init(n), acts, JoinerRemove);
    acts := acts + [JoinerRemove];
    acts := JoinedAndBack(n, acts, c);
  }

  lemma JoinedAndBack(n: nat, before: seq<Action>, c: nat) returns (acts: seq<Action>)
    requires CanRun(Init(n), before) && c < n
    requires var st := RunTo(Init(n), before);
             && |st.avail| == n - 1 && st.n == n
             && st.joiner == Joining(c) && st.term == [] && st.dropped == {} && st.closer == GoingToSleep
             && |st.threads| == |st.joins| == n && st.threads[c] == Exited
    ensures CanRun(Init(n), acts)
    ensures var st := RunTo(Init(n), acts);
            st.closer == Sleeping && |st.avail| == st.n == n && st.term == [] && st.dropped == {}
  {
    acts := before;
    RunSnoc(Init(n), acts, JoinerJoin);
    acts := acts + [JoinerJoin];
    RunSnoc(Init(n), acts, JoinerReturn);
    acts := acts + [JoinerReturn];
    RunSnoc(Init(n), acts, CloserSleep);
    acts := acts + [CloserSleep];
  }

  // ---- And join_threads, which the main thread waits for ----

  /** After the loop is left, the joiner ends if it has been told or can still be; before, if the loop can
      be left. */
  ghost predicate JoinerCanEnd(st: State) {
    || st.joiner.Finished?
    || (if HasLeft(st) then !st.closer.Done? || st.joiner.Woken? else CanFinish(st))
  }

  ghost predicate CanEnd(st: State) {
    exists more :: CanRun(st, more) && RunTo(st, more).joiner.Finished?
  }

  /** With everything joined the joiner is on its way to sleep, asleep, told, or done. */
  lemma JoinerAfterLeaving(st: State)
    requires Tidy(st) && HasLeft(st)
    ensures st.term == [] && (st.joiner.Testing? || Asleep(st) || st.joiner.Finished? || (st.joiner.Woken? && st.exitServer))
  {
  }

  function StepsLeft(st: State): (k: nat) {
    match st.joiner
    case Testing => 5
    case GoingToWait => 4
    case Waiting => if st.closer.Left? then 3 else 2
    case Woken => 1
    case _ => 0
  }

  lemma {:induction false} JoinerWayOut(st: State) returns (acts: seq<Action>)
    requires Tidy(st) && HasLeft(st) && JoinerCanEnd(st)
    ensures CanRun(st, acts) && RunTo(st, acts).joiner.Finished?
    decreases StepsLeft(st)
  {
    acts := [];
    JoinerAfterLeaving(st);
    if !st.joiner.Finished? {
      var a := match st.joiner
        case Testing => JoinerTest
        case GoingToWait => JoinerSleep
        case Woken => JoinerWake
        case _ => if st.closer.Left? then SetExit else BroadcastExit;
      TidyStep(st, a);
      var rest := JoinerWayOut(Step(st, a));
      RunCons(st, a, rest);
      acts := [a] + rest;
    }
  }

  lemma MissedStays(st: State, a: Action)
    requires Tidy(st) && HasLeft(st) && !JoinerCanEnd(st) && Enabled(st, a)
    ensures HasLeft(Step(st, a)) && !JoinerCanEnd(Step(st, a))
  {
    JoinerAfterLeaving(st);
  }

  lemma {:induction false} MissedForever(st: State, acts: seq<Action>)
    requires Tidy(st) && HasLeft(st) && !JoinerCanEnd(st) && CanRun(st, acts)
    ensures !RunTo(st, acts).joiner.Finished?
    decreases |acts|
  {
    if acts != [] {
      MissedStays(st, acts[0]);
      TidyStep(st, acts[0]);
      MissedForever(Step(st, acts[0]), acts[1..]);
    }
  }

  /** At every moment of every run: join_threads can still return, so that the main thread's join of it can,
      if and only if JoinerCanEnd holds. */
  lemma JoinerEndsIff(n: nat, acts: seq<Action>)
    requires CanRun(Init(n), acts)
    ensures var st := RunTo(Init(n), acts); CanEnd(st) <==> JoinerCanEnd(st)
  {
    InitInv(n);
    TidyRun(Init(n), acts);
    var st := RunTo(Init(n), acts);
    if JoinerCanEnd(st) {
      JoinerEnds(st);
    } else {
      forall more | CanRun(st, more) ensures !RunTo(st, more).joiner.Finished? {
        if HasLeft(st) {
          MissedForever(st, more);
        } else {
          DoomedForever(st, more);
          TidyRun(st, more);
        }
      }
    }
  }

  lemma JoinerEnds(st: State)
    requires Tidy(st) && JoinerCanEnd(st)
    ensures CanEnd(st)
  {
    if HasLeft(st) {
      var more := JoinerWayOut(st);
    } else {
      var out := WayOut(st);
      TidyRun(st, out);
      var rest := JoinerWayOut(RunTo(st, out));
      RunConcat(st, out, rest);
      assert CanRun(st, out + rest) && RunTo(st, out + rest).joiner.Finished?;
    }
  }

  lemma AllSeeded(n: nat, seeds: seq<Action>)
    requires CanRun(Init(n), seeds)
    requires var st := RunTo(Init(n), seeds); st == Init(n).(avail := st.avail, acceptor := Accepting)
    ensures |RunTo(Init(n), seeds).avail| >= n
  {
    InitInv(n);
    RunInv(Init(n), seeds);
    var st := RunTo(Init(n), seeds);
    forall s: nat | s < n ensures multiset(st.avail)[s] >= 1 {
      assert Places(st, s) == One(s < Seeded(st));
    }
    CoverIsLong(st.avail, n);
  }

  /** For every positive number of slots there is a run in which close_server finishes and join_threads never
      does: the exit broadcast comes between its test and its sleep. */
  lemma ExitMissed(n: nat) returns (acts: seq<Action>)
    requires n > 0
    ensures CanRun(Init(n), acts)
    ensures var st := RunTo(Init(n), acts); st.closer.Done? && st.joiner.Waiting? && !CanEnd(st)
  {
    acts := seq(n + 1, _ => Seed);
    SeedRun(Init(n), n);
    AllSeeded(n, acts);
    acts := MissedExit(n, acts);
    JoinerEndsIff(n, acts);
  }

  lemma MissedExit(n: nat, seeds: seq<Action>) returns (acts: seq<Action>)
    requires CanRun(Init(n), seeds)
    requires var st := RunTo(Init(n), seeds); |st.avail| >= n && st == Init(n).(avail := st.avail, acceptor := Accepting)
    ensures CanRun(Init(n), acts)
    ensures var st := RunTo(Init(n), acts); st.closer.Done? && st.joiner.Waiting?
  {
    acts := seeds;
    RunSnoc(Init(n), acts, RaiseFlag);
    acts := acts + [RaiseFlag];
    RunSnoc(Init(n), acts, CloserTest);
    acts := acts + [CloserTest];
    RunSnoc(Init(n), acts, JoinerTest);
    acts := acts + [JoinerTest];
    acts := BroadcastTooEarly(n, acts);
  }

  lemma BroadcastTooEarly(n: nat, before: seq<Action>) returns (acts: seq<Action>)
    requires CanRun(Init(n), before)
    requires var st := RunTo(Init(n), before); st.closer.Left? && st.joiner.GoingToWait?
    ensures CanRun(Init(n), acts)
    ensures var st := RunTo(Init(n), acts); st.closer.Done? && st.joiner.Waiting?
  {
    acts := before;
    RunSnoc(Init(n), acts, SetExit);
    acts := acts + [SetExit];
    RunSnoc(Init(n), acts, BroadcastExit);
    acts := acts + [BroadcastExit];
    RunSnoc(Init(n), acts, JoinerSleep);
    acts := acts + [JoinerSleep];
  }
}
