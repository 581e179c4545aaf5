/** latt.c's hand-made semaphore and the start-up loop that uses it. The parts of sem_down and sem_up
    between taking and releasing the mutex are single steps; pthread_cond_wait splits sem_down in two.
    Spurious wake-ups are steps too. */
module Semaphore {

  /** `asleep` holds the callers blocked on the condition, `woken` those signalled but not yet running
      again; the C struct only counts them in `waiters`. */
  datatype Sem = Sem(value: int, waiters: int, asleep: set<nat>, woken: set<nat>)

  const FRESH: Sem := Sem(0, 0, {}, {})

  /** The loop test of sem_down, reached on entry or after a wake-up by caller t. */
  function Test(sem: Sem, t: nat): (sem': Sem) {
    if sem.value == 0 then sem.(waiters := sem.waiters + 1, asleep := sem.asleep + {t})
    else sem.(value := sem.value - 1)
  }

  /** pthread_cond_wait returns to caller t, who leaves the waiters and tests again. */
  function Resume(sem: Sem, t: nat): (sem': Sem) {
    Test(sem.(waiters := sem.waiters - 1, woken := sem.woken - {t}), t)
  }

  /** sem_up; `pick` is the sleeper the signal reaches, if there is one. */
  function Up(sem: Sem, pick: nat): (sem': Sem) {
    var signalled :=
      if sem.value == 0 && sem.waiters != 0 && pick in sem.asleep
      then sem.(asleep := sem.asleep - {pick}, woken := sem.woken + {pick})
      else sem;
    signalled.(value := signalled.value + 1)
  }

  predicate Picks(sem: Sem, pick: nat) {
    sem.asleep != {} ==> pick in sem.asleep
  }

  // ---- n callers of sem_down, anyone calling sem_up ----

  datatype System = System(n: nat, sem: Sem, ups: nat, downs: nat)

  datatype Call = CallDown(t: nat) | ReturnFromWait(t: nat) | CallUp(pick: nat) | Spurious(t: nat)

  function Start(n: nat): (y: System) {
    System(n, FRESH, 0, 0)
  }

  predicate Enabled(y: System, c: Call) {
    match c
    case CallDown(t) => t < y.n && t !in y.sem.asleep && t !in y.sem.woken
    case ReturnFromWait(t) => t in y.sem.woken
    case CallUp(pick) => Picks(y.sem, pick)
    case Spurious(t) => t in y.sem.asleep
  }

  function Step(y: System, c: Call): (y': System)
    requires Enabled(y, c)
  {
    match c
    case CallDown(t) => y.(sem := Test(y.sem, t), downs := if y.sem.value == 0 then y.downs else y.downs + 1)
    case ReturnFromWait(t) => y.(sem := Resume(y.sem, t), downs := if y.sem.value == 0 then y.downs else y.downs + 1)
    case CallUp(pick) => y.(sem := Up(y.sem, pick), ups := y.ups + 1)
    case Spurious(t) => y.(sem := y.sem.(asleep := y.sem.asleep - {t}, woken := y.sem.woken + {t}))
  }

  predicate CanRun(y: System, cs: seq<Call>)
    decreases |cs|
  {
    cs == [] || (Enabled(y, cs[0]) && CanRun(Step(y, cs[0]), cs[1..]))
  }

  function RunTo(y: System, cs: seq<Call>): (y': System)
    requires CanRun(y, cs)
    decreases |cs|
  {
    if cs == [] then y else RunTo(Step(y, cs[0]), cs[1..])
  }

  ghost predicate Counted(y: System) {
    && y.sem.value == y.ups - y.downs >= 0
    && y.sem.asleep !! y.sem.woken && y.sem.waiters == |y.sem.asleep| + |y.sem.woken|
    && (forall t | t in y.sem.asleep :: t < y.n) && (forall t | t in y.sem.woken :: t < y.n)
  }

  lemma MoveSize(from: set<nat>, to: set<nat>, t: nat)
    requires from !! to
    ensures t in from ==> |from - {t}| == |from| - 1 && |to + {t}| == |to| + 1
  {
    assert t in from ==> from == (from - {t}) + {t};
  }

  lemma ReturnCounted(y: System, t: nat)
    requires Counted(y) && Enabled(y, ReturnFromWait(t))
    ensures Counted(Step(y, ReturnFromWait(t)))
  {
    MoveSize(y.sem.woken, y.sem.asleep, t);
  }

  lemma UpCounted(y: System, pick: nat)
    requires Counted(y) && Enabled(y, CallUp(pick))
    ensures Counted(Step(y, CallUp(pick)))
  {
    MoveSize(y.sem.asleep, y.sem.woken, pick);
  }

  lemma StepCounted(y: System, c: Call)
    requires Counted(y) && Enabled(y, c)
    ensures Counted(Step(y, c))
  {
    match c
    case CallDown(t) =>
    case ReturnFromWait(t) => ReturnCounted(y, t);
    case CallUp(pick) => UpCounted(y, pick);
    case Spurious(t) => MoveSize(y.sem.asleep, y.sem.woken, t);
  }

  /** In every run, with any number of callers, the value is the number of sem_up calls minus the number of
      completed sem_down calls, and never negative. */
  lemma {:induction false} ValueIsUpsMinusDowns(y: System, cs: seq<Call>)
    requires Counted(y) && CanRun(y, cs)
    ensures Counted(RunTo(y, cs)) && RunTo(y, cs).n == y.n
    decreases |cs|
  {
    if cs != [] {
      StepCounted(y, cs[0]);
      ValueIsUpsMinusDowns(Step(y, cs[0]), cs[1..]);
    }
  }

  /** A lost wake-up: the value is positive, someone sleeps, and no signal is on its way. */
  predicate LostWakeup(sem: Sem) {
    sem.value > 0 && sem.asleep != {} && sem.woken == {}
  }

  /** With one caller of sem_down, a sleeper that nobody has signalled means the value is 0. */
  lemma {:induction false} OneWaiterSleepsAtZero(y: System, cs: seq<Call>)
    requires Counted(y) && y.n <= 1 && (y.sem.asleep != {} ==> y.sem.value == 0) && CanRun(y, cs)
    ensures RunTo(y, cs).sem.asleep != {} ==> RunTo(y, cs).sem.value == 0
    decreases |cs|
  {
    if cs != [] {
      var y' := Step(y, cs[0]);
      StepCounted(y, cs[0]);
      if cs[0].CallUp? && y.sem.asleep != {} {
        assert y.sem.asleep == {0} by {
          assert forall t | t in y.sem.asleep :: t == 0;
          assert cs[0].pick in y.sem.asleep;
        }
        assert y'.sem.asleep == {};
      }
      OneWaiterSleepsAtZero(y', cs[1..]);
    }
  }

  /** Signalling only on the step from 0 is right for one waiter and for no larger number: a wake-up can
      be lost exactly when at least two threads may call sem_down. */
  lemma LostWakeupIff(n: nat)
    ensures (exists cs :: CanRun(Start(n), cs) && LostWakeup(RunTo(Start(n), cs).sem)) <==> n >= 2
  {
    if n >= 2 {
      var y0 := Start(n);
      var y1 := Step(y0, CallDown(0));
      assert y1.sem == Sem(0, 1, {0}, {});
      var y2 := Step(y1, CallDown(1));
      assert y2.sem == Sem(0, 2, {0, 1}, {});
      var y3 := Step(y2, CallUp(0));
      assert y3.sem == Sem(1, 2, {1}, {0});
      var y4 := Step(y3, CallUp(1));
      assert y4.sem == Sem(2, 2, {1}, {0});
      var y5 := Step(y4, ReturnFromWait(0));
      assert y5.sem == Sem(1, 1, {1}, {});
      assert CanRun(y5, []);
      RunCons(y4, ReturnFromWait(0), []);
      var c4 := [ReturnFromWait(0)] + [];
      RunCons(y3, CallUp(1), c4);
      var c3 := [CallUp(1)] + c4;
      RunCons(y2, CallUp(0), c3);
      var c2 := [CallUp(0)] + c3;
      RunCons(y1, CallDown(1), c2);
      var c1 := [CallDown(1)] + c2;
      RunCons(y0, CallDown(0), c1);
      var cs := [CallDown(0)] + c1;
      assert CanRun(Start(n), cs) && LostWakeup(RunTo(Start(n), cs).sem);
    } else {
      forall cs | CanRun(Start(n), cs) ensures !LostWakeup(RunTo(Start(n), cs).sem) {
        OneWaiterSleepsAtZero(Start(n), cs);
      }
    }
  }

  lemma RunCons(y: System, c: Call, cs: seq<Call>)
    requires Enabled(y, c) && CanRun(Step(y, c), cs)
    ensures CanRun(y, [c] + cs) && RunTo(y, [c] + cs) == RunTo(Step(y, c), cs)
  {
    assert ([c] + cs)[1..] == cs;
  }

  // ---- The start-up barrier of run_test ----

  const PARENT: nat := 0

  /** The parent: about to fork child i, about to call sem_down after forking it, inside sem_down's wait,
      or in run_parent. */
  datatype Phase = AtFork | AtDown | InWait | RunParent

  /** `unborn` holds the positions at which fork returned -1: not 0, so the parent goes on as if it had a
      child. */
  datatype Boot = Boot(n: nat, i: nat, phase: Phase, unborn: set<nat>, upped: set<nat>, sem: Sem)

  datatype Move = Fork | ForkFails | Down | WakeUp | ChildUp(c: nat) | FalseAlarm | Go

  function Begin(n: nat): (b: Boot) {
    Boot(n, 0, AtFork, {}, {}, FRESH)
  }

  /** Calls of fork so far. */
  function Forked(b: Boot): (k: nat) {
    if b.phase == AtDown || b.phase == InWait then b.i + 1 else b.i
  }

  predicate CanMove(b: Boot, m: Move) {
    match m
    case Fork => b.phase == AtFork && b.i < b.n
    case ForkFails => b.phase == AtFork && b.i < b.n
    case Down => b.phase == AtDown
    case WakeUp => b.phase == InWait && PARENT in b.sem.woken
    case ChildUp(c) => c < Forked(b) && c !in b.unborn && c !in b.upped
    case FalseAlarm => PARENT in b.sem.asleep
    case Go => b.phase == AtFork && b.i == b.n
  }

  function AfterTest(b: Boot, sem: Sem): (b': Boot) {
    if b.sem.value == 0 then b.(sem := sem, phase := InWait) else b.(sem := sem, phase := AtFork, i := b.i + 1)
  }

  function Moved(b: Boot, m: Move): (b': Boot)
    requires CanMove(b, m)
  {
    match m
    case Fork => b.(phase := AtDown)
    case ForkFails => b.(phase := AtDown, unborn := b.unborn + {b.i})
    case Down => AfterTest(b, Test(b.sem, PARENT))
    case WakeUp => AfterTest(b, Resume(b.sem, PARENT))
    case ChildUp(c) => b.(upped := b.upped + {c}, sem := Up(b.sem, PARENT))
    case FalseAlarm => b.(sem := b.sem.(asleep := {}, woken := {PARENT}))
    case Go => b.(phase := RunParent)
  }

  predicate CanMoveAll(b: Boot, ms: seq<Move>)
    decreases |ms|
  {
    ms == [] || (CanMove(b, ms[0]) && CanMoveAll(Moved(b, ms[0]), ms[1..]))
  }

  function MovedAll(b: Boot, ms: seq<Move>): (b': Boot)
    requires CanMoveAll(b, ms)
    decreases |ms|
  {
    if ms == [] then b else MovedAll(Moved(b, ms[0]), ms[1..])
  }

  ghost predicate BootInv(b: Boot) {
    && b.i <= b.n && (b.phase == AtDown || b.phase == InWait ==> b.i < b.n) && (b.phase == RunParent ==> b.i == b.n)
    && (forall c | c in b.upped :: c < Forked(b)) && (forall c | c in b.unborn :: c < Forked(b))
    && b.upped !! b.unborn
    && b.sem.value == |b.upped| - b.i >= 0
    && (b.phase == InWait ==> (b.sem.asleep, b.sem.woken) in {({PARENT}, {}), ({}, {PARENT})} && b.sem.waiters == 1)
    && (b.phase != InWait ==> b.sem.asleep == {} && b.sem.woken == {} && b.sem.waiters == 0)
    && (b.sem.asleep != {} ==> b.sem.value == 0)
  }

  lemma MoveInv(b: Boot, m: Move)
    requires BootInv(b) && CanMove(b, m)
    ensures BootInv(Moved(b, m))
  {
    match m
    case Down => DownInv(b);
    case WakeUp => WakeInv(b);
    case ChildUp(c) => UpInv(b, c);
    case FalseAlarm =>
    case _ =>
  }

  lemma DownInv(b: Boot)
    requires BootInv(b) && CanMove(b, Down)
    ensures BootInv(Moved(b, Down))
  {
    assert {} + {PARENT} == {PARENT};
  }

  lemma WakeInv(b: Boot)
    requires BootInv(b) && CanMove(b, WakeUp)
    ensures BootInv(Moved(b, WakeUp))
  {
    assert b.sem.woken == {PARENT} && b.sem.asleep == {};
    assert {PARENT} - {PARENT} == {} && {} + {PARENT} == {PARENT};
  }

  lemma UpInv(b: Boot, c: nat)
    requires BootInv(b) && CanMove(b, ChildUp(c))
    ensures BootInv(Moved(b, ChildUp(c)))
  {
    assert |b.upped + {c}| == |b.upped| + 1;
    assert {PARENT} - {PARENT} == {} && {} + {PARENT} == {PARENT};
  }

  lemma {:induction false} BootRunInv(b: Boot, ms: seq<Move>)
    requires BootInv(b) && CanMoveAll(b, ms)
    ensures BootInv(MovedAll(b, ms)) && MovedAll(b, ms).n == b.n
    decreases |ms|
  {
    if ms != [] {
      MoveInv(b, ms[0]);
      BootRunInv(Moved(b, ms[0]), ms[1..]);
    }
  }

  lemma {:induction false} SubsetOfBelow(u: set<nat>, k: nat)
    requires forall c | c in u :: c < k
    ensures |u| <= k
    ensures |u| == k ==> forall c: nat | c < k :: c in u
    decreases k
  {
    if k == 0 {
      assert u == {};
    } else {
      SubsetOfBelow(u - {k - 1}, k - 1);
      assert k - 1 in u ==> u == (u - {k - 1}) + {k - 1};
      assert k - 1 !in u ==> u == u - {k - 1};
    }
  }

  /** A parent past its sem_downs has met no failed fork: it needed one sem_up for every position. */
  lemma PassedMeansBorn(b: Boot)
    requires BootInv(b) && (b.phase == AtFork || b.phase == RunParent)
    ensures b.unborn == {} && |b.upped| == b.i
  {
    SubsetOfBelow(b.upped + b.unborn, b.i);
    assert |b.upped + b.unborn| == |b.upped| + |b.unborn|;
  }

  /** When the fork loop has passed its k-th sem_down, no fork has failed, all k children have done their
      sem_up and the value is back at 0; so run_parent starts only with every child present. */
  lemma StartUpBarrier(n: nat, ms: seq<Move>)
    requires CanMoveAll(Begin(n), ms)
    ensures var b := MovedAll(Begin(n), ms);
            && (b.phase == AtFork || b.phase == RunParent ==>
                  b.sem.value == 0 && b.unborn == {} && forall c: nat :: c in b.upped <==> c < b.i)
            && (b.phase == RunParent ==> b.i == n)
  {
    BootRunInv(Begin(n), ms);
    var b := MovedAll(Begin(n), ms);
    if b.phase == AtFork || b.phase == RunParent {
      PassedMeansBorn(b);
      SubsetOfBelow(b.upped, b.i);
    }
  }

  /** If the parent sleeps unsignalled, the value is 0, and a forked child has not yet called sem_up or a
      fork has failed. */
  lemma SleepingMeansMissing(n: nat, ms: seq<Move>)
    requires CanMoveAll(Begin(n), ms) && PARENT in MovedAll(Begin(n), ms).sem.asleep
    ensures var b := MovedAll(Begin(n), ms);
            b.sem.value == 0 && (b.unborn != {} || exists c: nat :: CanMove(b, ChildUp(c)))
  {
    BootRunInv(Begin(n), ms);
    var b := MovedAll(Begin(n), ms);
    if b.unborn == {} {
      var c := SomeMissing(b);
      assert CanMove(b, ChildUp(c));
    }
  }

  lemma SomeMissing(b: Boot) returns (c: nat)
    requires BootInv(b) && b.phase == InWait && b.sem.value == 0
    ensures c < Forked(b) && c !in b.upped
  {
    SubsetOfBelow(b.upped, Forked(b));
    if forall d: nat | d < Forked(b) :: d in b.upped {
      Everyone(b.upped, Forked(b));
      assert false;
    }
    c :| c < Forked(b) && c !in b.upped;
  }

  lemma {:induction false} Everyone(u: set<nat>, k: nat)
    requires forall c: nat :: c in u <==> c < k
    ensures |u| == k
    decreases k
  {
    if k == 0 {
      assert u == {};
    } else {
      Everyone(u - {k - 1}, k - 1);
      assert u == (u - {k - 1}) + {k - 1};
    }
  }

  /** As long as no fork has failed there is a step towards run_parent. */
  lemma NextMove(b: Boot) returns (m: Move)
    requires BootInv(b) && b.phase != RunParent && b.unborn == {}
    ensures m != FalseAlarm && CanMove(b, m) && Moved(b, m).unborn == {}
  {
    match b.phase
    case AtFork => m := if b.i < b.n then Fork else Go;
    case AtDown => m := Down;
    case InWait =>
      if PARENT in b.sem.woken {
        m := WakeUp;
      } else {
        var c := SomeMissing(b);
        m := ChildUp(c);
      }
  }

  lemma MoveCons(b: Boot, m: Move, ms: seq<Move>)
    requires CanMove(b, m) && CanMoveAll(Moved(b, m), ms)
    ensures CanMoveAll(b, [m] + ms) && MovedAll(b, [m] + ms) == MovedAll(Moved(b, m), ms)
  {
    assert ([m] + ms)[1..] == ms;
  }

  lemma {:induction false} WayToRunParent(b: Boot) returns (more: seq<Move>)
    requires BootInv(b) && b.unborn == {}
    ensures CanMoveAll(b, more) && MovedAll(b, more).phase == RunParent
    decreases Remaining(b)
  {
    more := [];
    if b.phase != RunParent {
      var m := NextMove(b);
      MoveInv(b, m);
      MoveProgress(b, m);
      RemainingNonNegative(Moved(b, m));
      var rest := WayToRunParent(Moved(b, m));
      MoveCons(b, m, rest);
      more := [m] + rest;
    }
  }

  lemma {:induction false} NoWayPastFailure(b: Boot, more: seq<Move>)
    requires BootInv(b) && b.unborn != {} && CanMoveAll(b, more)
    ensures MovedAll(b, more).phase != RunParent
    decreases |more|
  {
    if b.phase == RunParent {
      PassedMeansBorn(b);
    }
    if more != [] {
      MoveInv(b, more[0]);
      NoWayPastFailure(Moved(b, more[0]), more[1..]);
    }
  }

  /** At every moment, start-up can still reach run_parent if and only if no fork has failed; run_test does
      not check. */
  lemma StartUpCanGoOnIff(n: nat, ms: seq<Move>)
    requires CanMoveAll(Begin(n), ms)
    ensures var b := MovedAll(Begin(n), ms);
            (exists more :: CanMoveAll(b, more) && MovedAll(b, more).phase == RunParent) <==> b.unborn == {}
  {
    BootRunInv(Begin(n), ms);
    var b := MovedAll(Begin(n), ms);
    if b.unborn == {} {
      var more := WayToRunParent(b);
      assert CanMoveAll(b, more) && MovedAll(b, more).phase == RunParent;
    } else {
      forall more | CanMoveAll(b, more) ensures MovedAll(b, more).phase != RunParent {
        NoWayPastFailure(b, more);
      }
    }
  }

  /** For every positive number of clients the very first fork may fail, and then the parent sleeps for good. */
  lemma FailedForkHangs(n: nat) returns (ms: seq<Move>)
    requires n > 0
    ensures CanMoveAll(Begin(n), ms)
    ensures var b := MovedAll(Begin(n), ms);
            b.phase == InWait && b.unborn == {0}
            && forall more | CanMoveAll(b, more) :: MovedAll(b, more).phase != RunParent
  {
    var b1 := Moved(Begin(n), ForkFails);
    var b2 := Moved(b1, Down);
    assert CanMoveAll(b2, []) && MovedAll(b2, []) == b2;
    MoveCons(b1, Down, []);
    MoveCons(Begin(n), ForkFails, [Down] + []);
    ms := [ForkFails] + ([Down] + []);
    assert b2.unborn == {0};
    BootRunInv(Begin(n), ms);
    forall more | CanMoveAll(b2, more) ensures MovedAll(b2, more).phase != RunParent {
      NoWayPastFailure(b2, more);
    }
  }

  /** What is left to do; every step but a spurious wake-up makes it smaller. */
  function Remaining(b: Boot): (k: int) {
    2 * (b.n - |b.upped|) + 4 * (b.n - b.i)
    + (match b.phase
       case AtFork => 3
       case AtDown => 2
       case InWait => if b.sem.woken != {} then 1 else 0
       case RunParent => 0)
  }

  function Alarms(ms: seq<Move>): (k: nat) {
    if ms == [] then 0 else (if ms[0] == FalseAlarm then 1 else 0) + Alarms(ms[1..])
  }

  lemma MoveProgress(b: Boot, m: Move)
    requires BootInv(b) && CanMove(b, m)
    ensures m != FalseAlarm ==> Remaining(Moved(b, m)) < Remaining(b)
    ensures m == FalseAlarm ==> Remaining(Moved(b, m)) <= Remaining(b) + 1
  {
    MoveInv(b, m);
    if m.ChildUp? {
      assert |b.upped + {m.c}| == |b.upped| + 1;
    }
  }

  lemma RemainingNonNegative(b: Boot)
    requires BootInv(b)
    ensures Remaining(b) >= 0
  {
    SubsetOfBelow(b.upped, Forked(b));
  }

  lemma {:induction false} RunProgress(b: Boot, ms: seq<Move>)
    requires BootInv(b) && CanMoveAll(b, ms)
    ensures |ms| <= Remaining(b) + 2 * Alarms(ms)
    decreases |ms|
  {
    RemainingNonNegative(b);
    if ms != [] {
      MoveInv(b, ms[0]);
      MoveProgress(b, ms[0]);
      RunProgress(Moved(b, ms[0]), ms[1..]);
    }
  }

  /** Nor can it go on for ever: with k spurious wake-ups, start-up of n clients takes at most
      6n + 3 + 2k steps. */
  lemma StartUpTerminates(n: nat, ms: seq<Move>)
    requires CanMoveAll(Begin(n), ms)
    ensures |ms| <= 6 * n + 3 + 2 * Alarms(ms)
  {
    RunProgress(Begin(n), ms);
  }
}
