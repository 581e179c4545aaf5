/** One round of latt.c's run_parent: wake every client, then poll and read until all have replied. */
module PollRound {
  import opened CString
  import opened Welford
  import opened Polls

  /** One logged reply: the client, its own wake-up timestamp of this round, its stamp. */
  datatype Entry = Entry(client: nat, sent: nat, stamp: Stamp)

  const WORD: nat := 0x1_0000_0000_0000_0000

  /** usec_since on 64-bit unsigned nanosecond counts. */
  function UsecSince(start: nat, end: nat): (d: nat) {
    (end - start) % WORD / 1000
  }

  function Delay(e: Entry): (d: nat) {
    UsecSince(e.sent, e.stamp.pre)
  }

  function WorkDelay(e: Entry): (d: nat) {
    (UsecSince(e.sent, e.stamp.post) - Delay(e)) % WORD
  }

  /** Out of order, the subtraction wraps to 64 bits before it is cut to microseconds. */
  lemma UsecWraps(start: nat, end: nat)
    requires end < start < WORD
    ensures UsecSince(start, end) == (WORD - (start - end)) / 1000
  {
    assert (end - start) % WORD == WORD - (start - end);
  }

  /** With the work stamp before the wake-up stamp, so does the work time itself. */
  lemma WorkDelayWraps(e: Entry)
    requires e.sent <= e.stamp.post <= e.stamp.pre < WORD
    ensures var back := (e.stamp.pre - e.sent) / 1000 - (e.stamp.post - e.sent) / 1000;
            back >= 0 && WorkDelay(e) == if back == 0 then 0 else WORD - back
  {
    var a, b := e.stamp.pre - e.sent, e.stamp.post - e.sent;
    assert a % WORD == a && b % WORD == b;
    assert b / 1000 <= a / 1000;
  }

  /** Work time is measured without wrap-around as long as the three timestamps are in order. */
  lemma WorkDelayIsDifference(e: Entry)
    requires e.sent <= e.stamp.pre <= e.stamp.post < WORD
    ensures Delay(e) == (e.stamp.pre - e.sent) / 1000
    ensures WorkDelay(e) == (e.stamp.post - e.sent) / 1000 - (e.stamp.pre - e.sent) / 1000
  {
    var a, b := e.stamp.pre - e.sent, e.stamp.post - e.sent;
    assert a % WORD == a && b % WORD == b;
    assert a / 1000 <= b / 1000;
  }

  ghost predicate IsDelay(e: Entry, d: real) {
    d == Delay(e) as real
  }

  ghost predicate IsWorkDelay(e: Entry, d: real) {
    d == WorkDelay(e) as real
  }

  ghost predicate AreDelays(es: seq<Entry>, ds: seq<real>) {
    |ds| == |es| && forall i {:trigger IsDelay(es[i], ds[i])} | 0 <= i < |es| :: IsDelay(es[i], ds[i])
  }

  ghost predicate AreWorkDelays(es: seq<Entry>, ds: seq<real>) {
    |ds| == |es| && forall i {:trigger IsWorkDelay(es[i], ds[i])} | 0 <= i < |es| :: IsWorkDelay(es[i], ds[i])
  }

  lemma DelaySnoc(es: seq<Entry>, ds: seq<real>, e: Entry, d: real)
    requires AreDelays(es, ds) && IsDelay(e, d)
    ensures AreDelays(es + [e], ds + [d])
  {
    forall i | 0 <= i <= |es| ensures IsDelay((es + [e])[i], (ds + [d])[i]) {
      assert i < |es| ==> IsDelay(es[i], ds[i]);
    }
  }

  lemma WorkDelaySnoc(es: seq<Entry>, ds: seq<real>, e: Entry, d: real)
    requires AreWorkDelays(es, ds) && IsWorkDelay(e, d)
    ensures AreWorkDelays(es + [e], ds + [d])
  {
    forall i | 0 <= i <= |es| ensures IsWorkDelay((es + [e])[i], (ds + [d])[i]) {
      assert i < |es| ==> IsWorkDelay(es[i], ds[i]);
    }
  }

  predicate Ready(r: Revents) {
    r.err || r.pollin
  }

  predicate Good(r: Revents) {
    Ready(r) ==> !r.err && r.reply.Some?
  }

  predicate AllGood(rs: seq<Revents>) {
    forall i | 0 <= i < |rs| :: Good(rs[i])
  }

  predicate GoodTo(rs: seq<Revents>, i: nat)
    requires i <= |rs|
  {
    i == 0 || (Good(rs[i - 1]) && GoodTo(rs, i - 1))
  }

  lemma {:induction false} GoodToAt(rs: seq<Revents>, i: nat, j: nat)
    requires j < i <= |rs| && GoodTo(rs, i)
    ensures Good(rs[j])
  {
    if j < i - 1 {
      GoodToAt(rs, i - 1, j);
    }
  }

  lemma OneBad(rs: seq<Revents>, i: nat)
    requires i < |rs| && !Good(rs[i])
    ensures !AllGood(rs)
  {
  }

  /** poll reports POLLIN only where it was asked for; error conditions always. */
  function Masked(fds: seq<Revents>, armed: seq<bool>): (rs: seq<Revents>)
    requires |fds| == |armed|
    ensures |rs| == |fds| && forall i | 0 <= i < |rs| :: rs[i] == fds[i].(pollin := fds[i].pollin && armed[i])
  {
    seq(|fds|, i requires 0 <= i < |fds| => fds[i].(pollin := fds[i].pollin && armed[i]))
  }

  /** Ready descriptors from position i on; from 0 this is poll's return value. */
  function ReadyFrom(rs: seq<Revents>, i: nat): (n: nat)
    requires i <= |rs|
    decreases |rs| - i
  {
    if i == |rs| then 0 else (if Ready(rs[i]) then 1 else 0) + ReadyFrom(rs, i + 1)
  }

  lemma ReadyStep(rs: seq<Revents>, i: nat)
    requires i < |rs| && Good(rs[i])
    ensures ReadyFrom(rs, i) == (if rs[i].pollin then 1 else 0) + ReadyFrom(rs, i + 1)
  {}

  lemma {:induction false} NoneReady(rs: seq<Revents>, i: nat, j: nat)
    requires i <= j < |rs| && ReadyFrom(rs, i) == 0
    ensures !Ready(rs[j]) && ReadyFrom(rs, j) == 0
    decreases j - i
  {
    if i < j {
      NoneReady(rs, i + 1, j);
    }
  }

  function EntryOf(i: nat, sent: nat, r: Revents): (es: seq<Entry>) {
    if r.pollin && r.reply.Some? then [Entry(i, sent, r.reply.value)] else []
  }

  function EntriesTo(rs: seq<Revents>, sent: seq<nat>, i: nat): (es: seq<Entry>)
    requires i <= |rs| == |sent|
  {
    if i == 0 then [] else EntriesTo(rs, sent, i - 1) + EntryOf(i - 1, sent[i - 1], rs[i - 1])
  }

  lemma {:induction false} EntriesMeet(rs: seq<Revents>, sent: seq<nat>, i: nat)
    requires i <= |rs| == |sent|
    ensures EntriesTo(rs, sent, i) + EntriesFrom(rs, sent, i) == EntriesFrom(rs, sent, 0)
  {
    if i > 0 {
      EntriesMeet(rs, sent, i - 1);
      var xs, e, ys := EntriesTo(rs, sent, i - 1), EntryOf(i - 1, sent[i - 1], rs[i - 1]), EntriesFrom(rs, sent, i);
      assert xs + (e + ys) == xs + e + ys;
    } else {
      assert [] + EntriesFrom(rs, sent, 0) == EntriesFrom(rs, sent, 0);
    }
  }

  function EntriesFrom(rs: seq<Revents>, sent: seq<nat>, i: nat): (es: seq<Entry>)
    requires i <= |rs| == |sent|
    decreases |rs| - i
  {
    if i == |rs| then [] else EntryOf(i, sent[i], rs[i]) + EntriesFrom(rs, sent, i + 1)
  }

  lemma Regroup(log: seq<Entry>, es: seq<Entry>, more: seq<Entry>)
    ensures log + (es + more) == log + es + more
  {
  }

  lemma {:induction false} NoEntries(rs: seq<Revents>, sent: seq<nat>, i: nat)
    requires i <= |rs| == |sent| && ReadyFrom(rs, i) == 0
    ensures EntriesFrom(rs, sent, i) == []
    decreases |rs| - i
  {
    if i < |rs| {
      NoEntries(rs, sent, i + 1);
    }
  }

  function CountFrom(b: seq<bool>, i: nat): (n: nat)
    requires i <= |b|
    decreases |b| - i
  {
    if i == |b| then 0 else (if b[i] then 1 else 0) + CountFrom(b, i + 1)
  }

  function Disarmed(armed: seq<bool>, rs: seq<Revents>): (r: seq<bool>)
    requires |armed| == |rs|
    ensures |r| == |armed| && forall i | 0 <= i < |r| :: r[i] == (armed[i] && !rs[i].pollin)
  {
    DisarmedTo(armed, rs, |rs|)
  }

  /** The clients still armed when the first n descriptors have been dealt with. */
  function DisarmedTo(armed: seq<bool>, rs: seq<Revents>, n: nat): (r: seq<bool>)
    requires n <= |armed| == |rs|
    ensures |r| == |armed| && forall i | 0 <= i < |r| :: r[i] == (armed[i] && !(i < n && rs[i].pollin))
  {
    seq(|armed|, i requires 0 <= i < |armed| => armed[i] && !(i < n && rs[i].pollin))
  }

  /** Who is armed when k calls have been dealt with: everybody not readable in one of them. */
  ghost function ArmedAfter(polls: seq<PollCall>, n: nat, k: nat): (armed: seq<bool>)
    requires k <= |polls|
    ensures |armed| == n && forall i | 0 <= i < n :: armed[i] == !ReadBy(polls, k, i)
  {
    seq(n, i requires 0 <= i < n => !ReadBy(polls, k, i))
  }

  lemma ArmedStep(polls: seq<PollCall>, n: nat, k: nat)
    requires k < |polls| && polls[k].Snapshot? && |polls[k].fds| == n
    ensures var armed := ArmedAfter(polls, n, k);
            Disarmed(armed, Masked(polls[k].fds, armed)) == ArmedAfter(polls, n, k + 1)
  {
    forall i | 0 <= i < n ensures ReadBy(polls, k + 1, i) <==> ReadBy(polls, k, i) || polls[k].fds[i].pollin {
      ReadByStep(polls, k, i);
    }
  }

  lemma GoodUnlessTrouble(polls: seq<PollCall>, n: nat, k: nat)
    requires k < |polls| && polls[k].Snapshot? && |polls[k].fds| == n
    ensures AllGood(Masked(polls[k].fds, ArmedAfter(polls, n, k))) <==> !BadAt(polls, k)
  {
    var rs := Masked(polls[k].fds, ArmedAfter(polls, n, k));
    forall i | 0 <= i < n ensures Good(rs[i]) <==> !TroubleFor(polls, k, i) {
    }
    assert forall i: nat :: TroubleFor(polls, k, i) ==> i < n;
  }

  lemma CountedArmed(polls: seq<PollCall>, n: nat, k: nat)
    requires k <= |polls|
    ensures CountFrom(ArmedAfter(polls, n, k), 0) == 0 <==> EveryoneBy(polls, n, k)
  {
    var armed := ArmedAfter(polls, n, k);
    if CountFrom(armed, 0) == 0 {
      NoneArmed(armed, 0);
    } else {
      var i := SomeArmed(armed, 0);
      assert !ReadBy(polls, k, i);
    }
  }

  lemma {:induction false} SomeArmed(b: seq<bool>, i: nat) returns (j: nat)
    requires i <= |b| && CountFrom(b, i) != 0
    ensures i <= j < |b| && b[j]
    decreases |b| - i
  {
    j := i;
    if !b[i] {
      j := SomeArmed(b, i + 1);
    }
  }

  /** The entry is what its client replied in the first snapshot in which it was readable. */
  ghost predicate FirstReply(polls: seq<PollCall>, e: Entry) {
    exists k :: FirstReplyIn(polls, e, k)
  }

  ghost predicate FirstReplyIn(polls: seq<PollCall>, e: Entry, k: nat) {
    && k < |polls| && ReadIn(polls[k], e.client) && !ReadBy(polls, k, e.client)
    && polls[k].fds[e.client].reply == Some(e.stamp)
  }

  ghost predicate AllFirst(polls: seq<PollCall>, es: seq<Entry>) {
    forall i | 0 <= i < |es| :: FirstReply(polls, es[i])
  }

  lemma {:induction false} EntryStamps(polls: seq<PollCall>, k: nat, rs: seq<Revents>, sent: seq<nat>, i: nat)
    requires i <= |rs| == |sent| && k < |polls| && polls[k].Snapshot? && |polls[k].fds| == |rs|
    requires rs == Masked(polls[k].fds, ArmedAfter(polls, |rs|, k))
    ensures AllFirst(polls, EntriesFrom(rs, sent, i))
    decreases |rs| - i
  {
    if i < |rs| {
      EntryStamps(polls, k, rs, sent, i + 1);
      var es := EntryOf(i, sent[i], rs[i]);
      if es != [] {
        assert FirstReplyIn(polls, es[0], k);
      }
      FirstAppend(polls, es, EntriesFrom(rs, sent, i + 1));
    }
  }

  lemma FirstAppend(polls: seq<PollCall>, xs: seq<Entry>, ys: seq<Entry>)
    requires AllFirst(polls, xs) && AllFirst(polls, ys)
    ensures AllFirst(polls, xs + ys)
  {
    forall i | 0 <= i < |xs + ys| ensures FirstReply(polls, (xs + ys)[i]) {
      assert i >= |xs| ==> FirstReply(polls, ys[i - |xs|]);
    }
  }

  class Parent {
    const clients: nat
    const compress: bool
    const events: array<bool>
    const delayStats: Stats
    const workStats: Stats
    var log: seq<Entry>

    ghost predicate Valid()
      reads this, delayStats, workStats
    {
      && events.Length == clients && delayStats != workStats && delayStats.Valid() && workStats.Valid()
      && AreDelays(log, delayStats.samples)
      && (if compress then AreWorkDelays(log, workStats.samples) else workStats.samples == [])
    }

    constructor (clients: nat, compress: bool)
      ensures Valid() && this.clients == clients && this.compress == compress && log == []
      ensures fresh(events) && fresh(delayStats) && fresh(workStats)
    {
      this.clients := clients;
      this.compress := compress;
      events := new bool[clients];
      delayStats := new Stats();
      workStats := new Stats();
      log := [];
    }

    /** __read_ts: a full read is logged, a short one fails and logs nothing. */
    method ReadReply(i: nat, sent: nat, reply: Option<Stamp>) returns (failed: bool)
      requires Valid()
      modifies this`log, delayStats, workStats
      ensures Valid() && (failed <==> reply.None?)
      ensures log == old(log) + (if failed then [] else [Entry(i, sent, reply.value)])
    {
      if reply.None? {
        assert log + [] == log;
        return true;
      }
      var e := Entry(i, sent, reply.value);
      DelaySnoc(log, delayStats.samples, e, Delay(e) as real);
      delayStats.Update(Delay(e));
      if compress {
        WorkDelaySnoc(log, workStats.samples, e, WorkDelay(e) as real);
        workStats.Update(WorkDelay(e));
      }
      log := log + [e];
      return false;
    }

    /** The first i descriptors have been dealt with: their clients disarmed, their replies logged. */
    ghost predicate DealtWith(start: seq<Entry>, armed: seq<bool>, rs: seq<Revents>, sent: seq<nat>, i: nat)
      requires i <= |armed| == |rs| == |sent|
      reads this, events
    {
      && events[..] == DisarmedTo(armed, rs, i)
      && log == start + EntriesTo(rs, sent, i)
    }

    /** What read_ts does with one descriptor. */
    method ReadDescriptor(i: nat, nr: nat, rs: seq<Revents>, sent: seq<nat>, ghost start: seq<Entry>, ghost armed: seq<bool>)
        returns (failed: bool, left: nat)
      requires Valid() && i < clients == |armed| == |rs| == |sent| && DealtWith(start, armed, rs, sent, i)
      requires 0 < nr == ReadyFrom(rs, i) && GoodTo(rs, i)
      modifies this`log, events, delayStats, workStats
      ensures Valid()
      ensures failed ==> !AllGood(rs)
      ensures !failed ==> left == ReadyFrom(rs, i + 1) && GoodTo(rs, i + 1)
      ensures !failed ==> DealtWith(start, armed, rs, sent, i + 1)
    {
      Regroup(start, EntriesTo(rs, sent, i), EntryOf(i, sent[i], rs[i]));
      DisarmOne(armed, rs, i);
      left := nr;
      if rs[i].err {
        OneBad(rs, i);
        return true, left;
      }
      if rs[i].pollin {
        events[i] := false;
        failed := ReadReply(i, sent[i], rs[i].reply);
        if failed {
          OneBad(rs, i);
          return;
        }
        left := nr - 1;
      } else {
        assert log + [] == log;
        failed := false;
      }
      ReadyStep(rs, i);
    }

    /** read_ts: it succeeds exactly when no ready descriptor is in error and every reply is complete; then
        it has read and disarmed precisely the readable clients. */
    method ReadTs(rs: seq<Revents>, evts: nat, sent: seq<nat>) returns (failed: bool)
      requires Valid() && |rs| == |sent| == clients && evts == ReadyFrom(rs, 0) > 0
      modifies this`log, events, delayStats, workStats
      ensures Valid()
      ensures !failed <==> AllGood(rs)
      ensures !failed ==> events[..] == Disarmed(old(events[..]), rs)
      ensures !failed ==> log == old(log) + EntriesFrom(rs, sent, 0)
    {
      var nr, i := evts, 0;
      ghost var armed, start := events[..], log;
      assert armed == DisarmedTo(armed, rs, 0);
      failed := false;
      while i < clients && nr != 0 && !failed
        invariant Valid() && i <= clients
        invariant if failed then !AllGood(rs)
                  else nr == ReadyFrom(rs, i) && GoodTo(rs, i) && DealtWith(start, armed, rs, sent, i)
        decreases clients - i
      {
        failed, nr := ReadDescriptor(i, nr, rs, sent, start, armed);
        i := i + 1;
      }
      if !failed {
        AllDealtWith(start, armed, rs, sent, i);
      }
    }

    lemma AllDealtWith(start: seq<Entry>, armed: seq<bool>, rs: seq<Revents>, sent: seq<nat>, i: nat)
      requires i <= |armed| == |rs| == |sent| && DealtWith(start, armed, rs, sent, i) && ReadyFrom(rs, i) == 0
      requires GoodTo(rs, i)
      ensures AllGood(rs) && events[..] == Disarmed(armed, rs) && log == start + EntriesFrom(rs, sent, 0)
    {
      Remaining(rs, sent, i);
      forall j | 0 <= j < i ensures Good(rs[j]) {
        GoodToAt(rs, i, j);
      }
      EntriesMeet(rs, sent, i);
      assert EntriesTo(rs, sent, i) + [] == EntriesTo(rs, sent, i);
      ReadingDone(armed, rs, i);
    }

    /** k calls have been dealt with, none of them bad: who was not readable is still armed and pending, the
        others have been logged with their first replies, after what was logged before the round. */
    ghost predicate SoFar(polls: seq<PollCall>, k: nat, sent: seq<nat>, start: seq<Entry>, es: seq<Entry>, pending: int)
      requires k <= |polls|
      reads this, events
    {
      && NoneBad(polls, k) && events[..] == ArmedAfter(polls, clients, k)
      && pending == CountFrom(events[..], 0)
      && log == start + es && Answered(es, events[..], sent) && AllFirst(polls, es)
    }

    /** One poll of the round and the reading of what it reports. */
    method PollTurn(polls: seq<PollCall>, k: nat, sent: seq<nat>, pending: int, ghost start: seq<Entry>, ghost es: seq<Entry>)
        returns (failed: bool, left: int, ghost more: seq<Entry>)
      requires Valid() && |sent| == clients && AllSized(polls, clients) && k < |polls|
      requires SoFar(polls, k, sent, start, es, pending) && pending != 0
      modifies this`log, events, delayStats, workStats
      ensures Valid()
      ensures failed <==> BadAt(polls, k)
      ensures !failed ==> SoFar(polls, k + 1, sent, start, es + more, left)
    {
      var call := polls[k];
      left, more := pending, [];
      if call.Interrupted? {
        return true, left, [];
      }
      ghost var armed := events[..];
      var rs := Masked(call.fds, events[..]);
      ArmedStep(polls, clients, k);
      GoodUnlessTrouble(polls, clients, k);
      var evts := ReadyFrom(rs, 0);
      if evts == 0 {
        QuietPoll(rs, sent);
        assert events[..] == Disarmed(armed, rs);
        assert es + [] == es;
        return false, left, [];
      }
      failed := ReadTs(rs, evts, sent);
      if !failed {
        CountDisarmed(armed, rs, 0);
        AnsweredMore(es, armed, rs, sent);
        EntryStamps(polls, k, rs, sent, 0);
        left, more := pending - evts, EntriesFrom(rs, sent, 0);
        Appended(start, es, more);
        FirstAppend(polls, es, more);
      }
    }

    method ArmAll()
      requires Valid()
      modifies events
      ensures forall i | 0 <= i < clients :: events[i]
    {
      for i := 0 to clients
        invariant forall j | 0 <= j < i :: events[j]
        modifies events
      {
        events[i] := true;
      }
    }

    /** The polling loop of a round, over any sequence of poll calls. `done` is true when every client has
        been read, `exit` when the loop was left with do_exit set. */
    method PollLoop(polls: seq<PollCall>, sent: seq<nat>) returns (done: bool, exit: bool, pending: int, ghost es: seq<Entry>)
      requires Valid() && |sent| == clients
      requires AllSized(polls, clients)
      modifies this`log, events, delayStats, workStats
      ensures Valid()
      ensures !(done && exit) && (exit <==> GivesUp(polls, clients)) && (done <==> Completes(polls, clients))
      ensures !exit ==> pending == CountFrom(events[..], 0) && (done <==> pending == 0)
      ensures !exit ==> log == old(log) + es && Answered(es, events[..], sent) && AllFirst(polls, es)
    {
      ArmAll();
      AllArmed(events[..], 0);
      assert events[..] == ArmedAfter(polls, clients, 0);
      pending, es, exit := clients, [], false;
      var k := 0;
      while pending != 0 && !exit && k < |polls|
        invariant Valid() && k <= |polls|
        invariant if exit then k > 0 && Stopped(polls, k - 1) else SoFar(polls, k, sent, old(log), es, pending)
        decreases |polls| - k
      {
        ghost var more;
        CountedArmed(polls, clients, k);
        exit, pending, more := PollTurn(polls, k, sent, pending, old(log), es);
        es := es + more;
        k := k + 1;
      }
      CountedArmed(polls, clients, k);
      Verdict(polls, clients, k, exit);
      done := !exit && pending == 0;
    }

    /** Call k is the first bad one and somebody is still missing. */
    ghost predicate Stopped(polls: seq<PollCall>, k: nat)
      requires k < |polls|
    {
      BadAt(polls, k) && !EveryoneBy(polls, clients, k) && NoneBad(polls, k)
    }

    /** A round of run_parent up to its end or to do_exit. When it ends without do_exit, each client has
        been read and logged exactly once, against its own timestamp of this round. */
    method Round(polls: seq<PollCall>, sent: seq<nat>) returns (done: bool, exit: bool, ghost es: seq<Entry>)
      requires Valid() && |sent| == clients
      requires AllSized(polls, clients)
      modifies this`log, events, delayStats, workStats
      ensures Valid()
      ensures !(done && exit) && (exit <==> GivesUp(polls, clients)) && (done <==> Completes(polls, clients))
      ensures done ==> log == old(log) + es && OncePerClient(es, sent) && AllFirst(polls, es)
    {
      var pending;
      done, exit, pending, es := PollLoop(polls, sent);
      if done {
        NoneArmed(events[..], 0);
        EveryoneOnce(es, events[..], sent);
      }
    }
  }

  lemma Remaining(rs: seq<Revents>, sent: seq<nat>, i: nat)
    requires i <= |rs| == |sent| && ReadyFrom(rs, i) == 0
    ensures EntriesFrom(rs, sent, i) == []
    ensures forall j | i <= j < |rs| :: Good(rs[j]) && !rs[j].pollin
  {
    NoEntries(rs, sent, i);
    forall j | i <= j < |rs| ensures Good(rs[j]) && !rs[j].pollin {
      NoneReady(rs, i, j);
    }
  }

  /** A poll that reports nothing is never a failure. */
  lemma QuietPoll(rs: seq<Revents>, sent: seq<nat>)
    requires |rs| == |sent| && ReadyFrom(rs, 0) == 0
    ensures AllGood(rs) && forall j | 0 <= j < |rs| :: !rs[j].pollin
  {
    Remaining(rs, sent, 0);
  }

  lemma Appended(start: seq<Entry>, es: seq<Entry>, more: seq<Entry>)
    ensures start + (es + more) == start + es + more
  {
  }

  lemma DisarmOne(armed: seq<bool>, rs: seq<Revents>, i: nat)
    requires i < |armed| == |rs|
    ensures DisarmedTo(armed, rs, i + 1) ==
            if rs[i].pollin then DisarmedTo(armed, rs, i)[i := false] else DisarmedTo(armed, rs, i)
  {
  }

  lemma ReadingDone(armed: seq<bool>, rs: seq<Revents>, i: nat)
    requires i <= |armed| == |rs| && forall j | i <= j < |rs| :: !rs[j].pollin
    ensures DisarmedTo(armed, rs, i) == Disarmed(armed, rs)
  {
  }

  lemma {:induction false} AllArmed(b: seq<bool>, i: nat)
    requires i <= |b| && forall j | 0 <= j < |b| :: b[j]
    ensures CountFrom(b, i) == |b| - i
    decreases |b| - i
  {
    if i < |b| {
      AllArmed(b, i + 1);
    }
  }

  lemma {:induction false} NoneArmed(b: seq<bool>, i: nat)
    requires i <= |b| && CountFrom(b, i) == 0
    ensures forall j | i <= j < |b| :: !b[j]
    decreases |b| - i
  {
    if i < |b| {
      NoneArmed(b, i + 1);
    }
  }

  /** pending_events cannot underflow: a successful read_ts disarms as many clients as poll reported. */
  lemma {:induction false} CountDisarmed(armed: seq<bool>, rs: seq<Revents>, i: nat)
    requires i <= |rs| == |armed|
    requires forall j | 0 <= j < |rs| :: Good(rs[j]) && (rs[j].pollin ==> armed[j])
    ensures ReadyFrom(rs, i) <= CountFrom(armed, i)
    ensures CountFrom(Disarmed(armed, rs), i) == CountFrom(armed, i) - ReadyFrom(rs, i)
    decreases |rs| - i
  {
    if i < |rs| {
      assert Good(rs[i]);
      CountDisarmed(armed, rs, i + 1);
    }
  }

  predicate LogsClient(es: seq<Entry>, c: nat) {
    exists i | 0 <= i < |es| :: es[i].client == c
  }

  /** Entries carry their own client's timestamp and no client occurs twice. */
  ghost predicate SoundLog(es: seq<Entry>, sent: seq<nat>) {
    Own(es, sent) && Distinct(es)
  }

  ghost predicate Own(es: seq<Entry>, sent: seq<nat>) {
    forall i | 0 <= i < |es| :: es[i].client < |sent| && es[i].sent == sent[es[i].client]
  }

  /** The clients logged so far are exactly those no longer armed. */
  ghost predicate Answered(es: seq<Entry>, armed: seq<bool>, sent: seq<nat>) {
    && |armed| == |sent| && SoundLog(es, sent)
    && (forall c | 0 <= c < |armed| :: LogsClient(es, c) <==> !armed[c])
  }

  ghost predicate OncePerClient(es: seq<Entry>, sent: seq<nat>) {
    && |es| == |sent| && SoundLog(es, sent)
    && forall c | 0 <= c < |sent| :: LogsClient(es, c)
  }

  /** Entries of increasing clients from i on, each with its own timestamp. */
  predicate InOrder(es: seq<Entry>, sent: seq<nat>, i: nat) {
    es == []
    || (i <= es[0].client < |sent| && es[0].sent == sent[es[0].client] && InOrder(es[1..], sent, es[0].client + 1))
  }

  lemma {:induction false} EntriesInOrder(rs: seq<Revents>, sent: seq<nat>, i: nat)
    requires i <= |rs| == |sent|
    ensures InOrder(EntriesFrom(rs, sent, i), sent, i)
    decreases |rs| - i
  {
    if i < |rs| {
      EntriesInOrder(rs, sent, i + 1);
      var es := EntriesFrom(rs, sent, i + 1);
      if EntryOf(i, sent[i], rs[i]) == [] {
        assert [] + es == es;
        Earlier(es, sent, i + 1, i);
      } else {
        assert (EntryOf(i, sent[i], rs[i]) + es)[1..] == es;
      }
    }
  }

  lemma Earlier(es: seq<Entry>, sent: seq<nat>, i: nat, j: nat)
    requires InOrder(es, sent, i) && j <= i
    ensures InOrder(es, sent, j)
  {}

  lemma {:induction false} OrderedAt(es: seq<Entry>, sent: seq<nat>, i: nat, k: nat)
    requires InOrder(es, sent, i) && k < |es|
    ensures i <= es[k].client < |sent| && es[k].sent == sent[es[k].client]
    ensures k > 0 ==> es[0].client < es[k].client
  {
    if k > 0 {
      OrderedAt(es[1..], sent, es[0].client + 1, k - 1);
    }
  }

  lemma {:induction false} OrderedApart(es: seq<Entry>, sent: seq<nat>, i: nat, j: nat, k: nat)
    requires InOrder(es, sent, i) && j < k < |es|
    ensures es[j].client < es[k].client
  {
    if j > 0 {
      OrderedApart(es[1..], sent, es[0].client + 1, j - 1, k - 1);
    } else {
      OrderedAt(es, sent, i, k);
    }
  }

  lemma OrderedIsSound(es: seq<Entry>, sent: seq<nat>)
    requires InOrder(es, sent, 0)
    ensures SoundLog(es, sent)
  {
    forall k | 0 <= k < |es| ensures es[k].client < |sent| && es[k].sent == sent[es[k].client] {
      OrderedAt(es, sent, 0, k);
    }
    forall j, k | 0 <= j < k < |es| ensures es[j].client != es[k].client {
      OrderedApart(es, sent, 0, j, k);
    }
  }

  lemma {:induction false} EntriesLogged(rs: seq<Revents>, sent: seq<nat>, i: nat, c: nat)
    requires i <= |rs| == |sent| && c < |rs|
    ensures LogsClient(EntriesFrom(rs, sent, i), c) <==> c >= i && rs[c].pollin && rs[c].reply.Some?
    decreases |rs| - i
  {
    if i < |rs| {
      EntriesLogged(rs, sent, i + 1, c);
      assert [] + EntriesFrom(rs, sent, i + 1) == EntriesFrom(rs, sent, i + 1);
      if rs[i].pollin && rs[i].reply.Some? {
        LogsCons(Entry(i, sent[i], rs[i].reply.value), EntriesFrom(rs, sent, i + 1), c);
      }
    }
  }

  lemma LogsCons(e: Entry, tail: seq<Entry>, c: nat)
    ensures LogsClient([e] + tail, c) <==> e.client == c || LogsClient(tail, c)
  {
    LogsConcat([e], tail, c);
    assert [e][0].client == e.client;
  }

  lemma LogsConcat(xs: seq<Entry>, ys: seq<Entry>, c: nat)
    ensures LogsClient(xs + ys, c) <==> LogsClient(xs, c) || LogsClient(ys, c)
  {
    if LogsClient(xs, c) {
      var i :| 0 <= i < |xs| && xs[i].client == c;
      assert (xs + ys)[i].client == c;
    }
    if LogsClient(ys, c) {
      var i :| 0 <= i < |ys| && ys[i].client == c;
      assert (xs + ys)[|xs| + i].client == c;
    }
  }

  lemma AnsweredMore(es: seq<Entry>, armed: seq<bool>, rs: seq<Revents>, sent: seq<nat>)
    requires Answered(es, armed, sent) && |rs| == |armed|
    requires forall j | 0 <= j < |rs| :: Good(rs[j]) && (rs[j].pollin ==> armed[j])
    ensures Answered(es + EntriesFrom(rs, sent, 0), Disarmed(armed, rs), sent)
  {
    var more := EntriesFrom(rs, sent, 0);
    EntriesInOrder(rs, sent, 0);
    OrderedIsSound(more, sent);
    forall c | 0 <= c < |armed| ensures LogsClient(es + more, c) <==> !Disarmed(armed, rs)[c] {
      EntriesLogged(rs, sent, 0, c);
      LogsConcat(es, more, c);
    }
    forall i, j | 0 <= i < |es| && 0 <= j < |more| ensures es[i].client != more[j].client {
      EntriesLogged(rs, sent, 0, more[j].client);
      assert LogsClient(es, es[i].client) && LogsClient(more, more[j].client);
    }
  }

  lemma EveryoneOnce(es: seq<Entry>, armed: seq<bool>, sent: seq<nat>)
    requires Answered(es, armed, sent) && forall j | 0 <= j < |armed| :: !armed[j]
    ensures OncePerClient(es, sent)
  {
    CountClients(es, |sent|);
  }

  /** Pigeonhole: distinct clients below n covering all of them are n. */
  lemma {:induction false} CountClients(es: seq<Entry>, n: nat)
    requires AllBelow(es, n) && Distinct(es)
    requires forall c | 0 <= c < n :: LogsClient(es, c)
    ensures |es| == n
    decreases n
  {
    assert |es| > 0 ==> es[0].client < n;
    if n > 0 {
      assert LogsClient(es, n - 1);
      var i :| 0 <= i < |es| && es[i].client == n - 1;
      Dropped(es, n - 1, i);
      CountClients(es[..i] + es[i + 1..], n - 1);
    }
  }

  ghost predicate AllBelow(es: seq<Entry>, n: nat) {
    forall i | 0 <= i < |es| :: es[i].client < n
  }

  ghost predicate Distinct(es: seq<Entry>) {
    forall i, j | 0 <= i < j < |es| :: es[i].client != es[j].client
  }

  lemma Dropped(es: seq<Entry>, m: nat, i: nat)
    requires AllBelow(es, m + 1) && Distinct(es) && i < |es| && es[i].client == m
    ensures var rest := es[..i] + es[i + 1..];
            AllBelow(rest, m) && Distinct(rest) && forall c | 0 <= c < m && LogsClient(es, c) :: LogsClient(rest, c)
  {
    var rest := es[..i] + es[i + 1..];
    forall k | 0 <= k < |rest| ensures rest[k].client < m {
      assert rest[k] == es[if k < i then k else k + 1];
    }
    forall c | 0 <= c < m && LogsClient(es, c) ensures LogsClient(rest, c) {
      assert es == es[..i] + ([es[i]] + es[i + 1..]);
      LogsConcat(es[..i], [es[i]] + es[i + 1..], c);
      LogsCons(es[i], es[i + 1..], c);
      LogsConcat(es[..i], es[i + 1..], c);
    }
  }
}
