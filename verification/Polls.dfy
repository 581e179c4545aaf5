/** What a sequence of poll calls means for a round, said of the calls alone: who has been readable by when,
    which call ends the round badly, and whether everybody is heard. */
module Polls {
  import opened CString

  /** A child's pre- and post-work timestamps, in nanoseconds. */
  datatype Stamp = Stamp(pre: nat, post: nat)

  /** What a poll reports for one descriptor: an error condition, POLLIN, and what reading it would give
      (None for a short read). */
  datatype Revents = Revents(err: bool, pollin: bool, reply: Option<Stamp>)

  /** poll being interrupted, or a readiness snapshot of all descriptors. */
  datatype PollCall = Interrupted | Snapshot(fds: seq<Revents>)

  predicate AllSized(polls: seq<PollCall>, n: nat) {
    forall i | 0 <= i < |polls| :: polls[i].Snapshot? ==> |polls[i].fds| == n
  }

  predicate ReadIn(call: PollCall, i: nat) {
    call.Snapshot? && i < |call.fds| && call.fds[i].pollin
  }

  /** Client i is readable in one of the first k calls. */
  ghost predicate ReadBy(polls: seq<PollCall>, k: nat, i: nat)
    requires k <= |polls|
  {
    exists j :: 0 <= j < k && ReadIn(polls[j], i)
  }

  ghost predicate EveryoneBy(polls: seq<PollCall>, n: nat, k: nat)
    requires k <= |polls|
  {
    forall i | 0 <= i < n :: ReadBy(polls, k, i)
  }

  /** In call k client i's descriptor is in error, or is read for the first time and gives a short reply. */
  ghost predicate TroubleFor(polls: seq<PollCall>, k: nat, i: nat)
    requires k < |polls|
  {
    && polls[k].Snapshot? && i < |polls[k].fds|
    && var r := polls[k].fds[i];
       r.err || (r.pollin && r.reply.None? && !ReadBy(polls, k, i))
  }

  ghost predicate BadAt(polls: seq<PollCall>, k: nat)
    requires k < |polls|
  {
    polls[k].Interrupted? || exists i: nat :: TroubleFor(polls, k, i)
  }

  ghost predicate NoneBad(polls: seq<PollCall>, k: nat)
    requires k <= |polls|
  {
    forall j | 0 <= j < k :: !BadAt(polls, j)
  }

  /** Everybody is readable in time: in some number of calls before any bad one. */
  ghost predicate Completes(polls: seq<PollCall>, n: nat) {
    exists m :: 0 <= m <= |polls| && EveryoneBy(polls, n, m) && NoneBad(polls, m)
  }

  /** A first bad call comes while somebody is still missing. */
  ghost predicate GivesUp(polls: seq<PollCall>, n: nat) {
    exists m :: 0 <= m < |polls| && BadAt(polls, m) && !EveryoneBy(polls, n, m) && NoneBad(polls, m)
  }

  lemma ReadByStep(polls: seq<PollCall>, k: nat, i: nat)
    requires k < |polls|
    ensures ReadBy(polls, k + 1, i) <==> ReadBy(polls, k, i) || ReadIn(polls[k], i)
  {
  }

  lemma EveryoneStays(polls: seq<PollCall>, n: nat, j: nat, k: nat)
    requires j <= k <= |polls| && EveryoneBy(polls, n, j)
    ensures EveryoneBy(polls, n, k)
  {
    forall i | 0 <= i < n ensures ReadBy(polls, k, i) {
      assert ReadBy(polls, j, i);
    }
  }

  /** A loop that stops at the first bad call, or as soon as everybody has been read, or with the calls. */
  lemma Verdict(polls: seq<PollCall>, n: nat, k: nat, exit: bool)
    requires k <= |polls|
    requires exit ==> k > 0 && BadAt(polls, k - 1) && !EveryoneBy(polls, n, k - 1) && NoneBad(polls, k - 1)
    requires !exit ==> NoneBad(polls, k) && (EveryoneBy(polls, n, k) || k == |polls|)
    ensures exit <==> GivesUp(polls, n)
    ensures !exit && EveryoneBy(polls, n, k) <==> Completes(polls, n)
  {
    forall m | 0 <= m <= |polls| && EveryoneBy(polls, n, m) && NoneBad(polls, m) ensures !exit && EveryoneBy(polls, n, k) {
      if exit && m <= k - 1 {
        EveryoneStays(polls, n, m, k - 1);
      }
      if !exit && m <= k {
        EveryoneStays(polls, n, m, k);
      }
    }
    forall m | 0 <= m < |polls| && BadAt(polls, m) && !EveryoneBy(polls, n, m) && NoneBad(polls, m) ensures exit {
      if !exit && k <= m && EveryoneBy(polls, n, k) {
        EveryoneStays(polls, n, k, m);
      }
    }
  }

  // ---- In plain terms ----

  predicate Troubled(r: Revents) {
    r.err || (r.pollin && r.reply.None?)
  }

  predicate Trouble(call: PollCall) {
    call.Interrupted? || exists i :: 0 <= i < |call.fds| && Troubled(call.fds[i])
  }

  ghost predicate ReadSometime(polls: seq<PollCall>, i: nat) {
    exists k :: 0 <= k < |polls| && ReadIn(polls[k], i)
  }

  /** Without an interrupted call, an error and a short reply the round is never given up, and it completes
      if and only if every client is readable in some snapshot, in whatever order and grouping. */
  lemma TroubleFree(polls: seq<PollCall>, n: nat)
    requires forall k | 0 <= k < |polls| :: !Trouble(polls[k])
    ensures !GivesUp(polls, n)
    ensures Completes(polls, n) <==> forall i | 0 <= i < n :: ReadSometime(polls, i)
  {
    forall k | 0 <= k < |polls| ensures !BadAt(polls, k) {
      assert !Trouble(polls[k]);
      if i: nat :| TroubleFor(polls, k, i) {
        assert Troubled(polls[k].fds[i]);
      }
    }
    assert NoneBad(polls, |polls|);
    if Completes(polls, n) {
      var m :| 0 <= m <= |polls| && EveryoneBy(polls, n, m) && NoneBad(polls, m);
      EveryoneStays(polls, n, m, |polls|);
      forall i | 0 <= i < n ensures ReadSometime(polls, i) {
        assert ReadBy(polls, |polls|, i);
      }
    }
    if forall i | 0 <= i < n :: ReadSometime(polls, i) {
      assert forall i | 0 <= i < n :: ReadBy(polls, |polls|, i) <==> ReadSometime(polls, i);
      assert EveryoneBy(polls, n, |polls|);
    }
  }

  /** And it is given up only over one of these. */
  lemma GivenUpOver(polls: seq<PollCall>, n: nat)
    requires GivesUp(polls, n)
    ensures exists k :: 0 <= k < |polls| && Trouble(polls[k])
  {
    var m :| 0 <= m < |polls| && BadAt(polls, m) && !EveryoneBy(polls, n, m) && NoneBad(polls, m);
    if polls[m].Snapshot? {
      var i: nat :| TroubleFor(polls, m, i);
      assert Troubled(polls[m].fds[i]);
    }
    assert Trouble(polls[m]);
  }
}
