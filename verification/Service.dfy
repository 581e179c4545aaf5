/** The server at its best: for any clients there is a run in which everything they send is heard, queued,
    answered and delivered. */
module Service {
  import opened CString
  import opened Wire
  import opened Kernel
  import opened StoreFile
  import opened Durable
  import opened Pipeline
  import opened FileSafety
  import opened Serving
  import opened EndToEnd

  // ---- Hearing everybody out ----

  /** A connection every PDU of which its listener can deal with. */
  predicate Audible(s: Bytes)
    decreases |s|
  {
    s == [] || (Hearable(s) && Audible(Wire.Receive(s).rest))
  }

  lemma {:induction false} StreamAudible(ms: seq<Message>)
    requires AllSendable(ms)
    ensures Audible(SentAll(ms))
  {
    if ms != [] {
      assert Sendable(ms[0]);
      ArrivalQueued(ms[0]);
      var rest := SentAll(ms[1..]);
      ReceiveOne(ms[0], rest);
      SentWhole(ms[0]);
      if Carried(ms[0]) {
        CarriedAcceptable(ms[0]);
      }
      StreamAudible(ms[1..]);
    }
  }

  /** The listeners only add to the queue. */
  ghost predicate OnlyHeard(w: World, w': World) {
    && |w'.wires| == |w.wires| && w'.exitServer == w.exitServer
    && w.queue <= w'.queue && |w'.inserted| - |w.inserted| == |w'.queue| - |w.queue|
    && (Dozing(w'.pc) ==> w'.pc == w.pc && (w.pc.GoingToWait? || w'.queue == w.queue))
  }

  lemma ListenOnly(w: World, c: nat)
    requires Enabled(w, Listen(c, NoFault))
    ensures OnlyHeard(w, Step(w, Listen(c, NoFault)))
  {
  }

  lemma HeardThrough(w: World, v: World, u: World)
    requires OnlyHeard(w, v) && OnlyHeard(v, u)
    ensures OnlyHeard(w, u)
  {
  }

  lemma {:induction false} HearOut(w: World, c: nat) returns (acts: seq<Action>)
    requires c < |w.wires| && Audible(w.wires[c])
    ensures CanRun(w, acts) && OnlyHeard(w, RunTo(w, acts))
    ensures RunTo(w, acts).wires == w.wires[c := []]
    decreases |w.wires[c]|
  {
    acts := [];
    if w.wires[c] == [] {
      assert w.wires[c := []] == w.wires;
    } else {
      var a := Listen(c, NoFault);
      ListenOnly(w, c);
      var rest := HearOut(Step(w, a), c);
      RunCons(w, a, rest);
      HeardThrough(w, Step(w, a), RunTo(Step(w, a), rest));
      acts := [a] + rest;
    }
  }

  lemma {:induction false} HearEverybody(w: World, n: nat) returns (acts: seq<Action>)
    requires n <= |w.wires| && forall c | 0 <= c < n :: Audible(w.wires[c])
    requires forall c | n <= c < |w.wires| :: w.wires[c] == []
    ensures CanRun(w, acts) && OnlyHeard(w, RunTo(w, acts))
    ensures forall c | 0 <= c < |w.wires| :: RunTo(w, acts).wires[c] == []
    decreases n
  {
    acts := [];
    if n > 0 {
      var one := HearOut(w, n - 1);
      var v := RunTo(w, one);
      var rest := HearEverybody(v, n - 1);
      RunConcat(w, one, rest);
      HeardThrough(w, v, RunTo(v, rest));
      acts := one + rest;
    }
  }

  // ---- Queues that lead nowhere astray ----

  /** What the message makes store_data print has a field on every line. */
  ghost predicate PrintsFields(m: Message)
    requires Carried(m)
  {
    CarriedAcceptable(m);
    m.InsertMsg? ==> Printable(Deleting, Printed(Encoded(m)))
  }

  ghost predicate AllPrintFields(calls: seq<Call>) {
    forall i | 0 <= i < |calls| :: Carried(calls[i].msg) && PrintsFields(calls[i].msg)
  }

  lemma {:induction false} FieldsThroughout(s: LiveStore, rs: seq<Req>, calls: seq<Call>)
    requires Matching(rs, calls) && AllPrintFields(calls)
    ensures PrintsThroughout(Deleting, s, rs)
    decreases |rs|
  {
    if rs != [] {
      var n := |rs| - 1;
      MatchingPrefix(rs, calls, n);
      FieldsThroughout(s, rs[..n], calls[..n]);
      assert Matches(rs[n], calls[n]) && PrintsFields(calls[n].msg);
      CarriedAcceptable(calls[n].msg);
      PrintsSnoc(s, rs);
    }
  }

  lemma PrintingIsSafe(s: LiveStore, rs: seq<Req>, calls: seq<Call>)
    requires Written(s.file) && AllKeyed(Lines(s.file)) && Matching(rs, calls) && AllPrintFields(calls)
    ensures AllSafe(s, rs)
  {
    FieldsThroughout(s, rs, calls);
    forall k | 0 <= k < |rs| ensures SafeAt(s, rs, k) {
      PrintsPrefix(Deleting, s, rs, k);
      RunReadableIff(Deleting, s, rs[..k]);
      SafeOnKeyed(Sequential(s, rs[..k]).store, rs[k].pdu);
    }
  }

  lemma SafeOnKeyed(s: LiveStore, m: Bytes)
    requires Acceptable(m) && AllKeyed(Lines(s.file))
    ensures Safe(s, m)
  {
  }

  lemma PrintsSnoc(s: LiveStore, rs: seq<Req>)
    requires rs != [] && PrintsThroughout(Deleting, s, rs[..|rs| - 1])
    requires rs[|rs| - 1].pdu[0] == INSERT ==> Printable(Deleting, Printed(rs[|rs| - 1].pdu))
    ensures PrintsThroughout(Deleting, s, rs)
  {
  }

  lemma {:induction false} CallComesFrom(calls: seq<Call>, cs: seq<nat>, i: nat)
    requires |cs| == |calls| && i < |calls|
    ensures calls[i].msg in MessagesBy(calls, cs, cs[i])
    decreases |calls|
  {
    var n := |calls| - 1;
    if i < n {
      CallComesFrom(calls[..n], cs[..n], i);
    }
  }

  // ---- Everything is answered ----

  ghost predicate AllPrintable(streams: seq<seq<Message>>) {
    forall c | 0 <= c < |streams| :: forall m | m in RequestsIn(streams[c]) :: Carried(m) && PrintsFields(m)
  }

  lemma MergedPrintFields(queue: seq<Req>, calls: seq<Call>, streams: seq<seq<Message>>)
    requires Merges(queue, calls, streams) && AllPrintable(streams)
    requires forall i | 0 <= i < |queue| :: queue[i].client < |streams|
    ensures AllPrintFields(calls)
  {
    forall i | 0 <= i < |calls| ensures Carried(calls[i].msg) && PrintsFields(calls[i].msg) {
      var c := queue[i].client;
      CallComesFrom(calls, Clients(queue), i);
      assert MergesFor(queue, calls, streams[c], c);
    }
  }

  /** A client whose connection is empty has had all its requests queued. */
  lemma AllQueued(queue: seq<Req>, calls: seq<Call>, stream: seq<Message>, c: nat)
    requires |calls| == |queue| && MergesFor(queue, calls, stream, c) && AllSendable(stream)
    requires Hears(SentAll(stream)).queue == PduBytes(ByClient(queue, c))
    ensures MessagesBy(calls, Clients(queue), c) == RequestsIn(stream)
  {
    StreamHeard(stream);
  }

  /** For any clients whose INSERTs print only lines with a field, and any readable file, there is a run in
      which every request of every client is queued, answered and delivered; and every GET gets the right
      answer. */
  lemma EverythingCanBeServed(s: LiveStore, a0: Abstract, streams: seq<seq<Message>>, junk: Byte)
    returns (acts: seq<Action>, w: World, calls: seq<Call>, delivered: seq<Bytes>)
    requires Represents(s.kernel.table, a0) && AllStreams(streams) && AllPrintable(streams)
    requires Written(s.file) && AllKeyed(Lines(s.file))
    ensures CanRun(Start(s, streams), acts) && w == RunTo(Start(s, streams), acts)
    ensures Merges(w.inserted, calls, streams) && AllCarried(calls)
    ensures forall c | 0 <= c < |streams| :: MessagesBy(calls, Clients(w.inserted), c) == RequestsIn(streams[c])
    ensures |delivered| == |calls| && Short(w.forwarded)
    ensures delivered == Delivered(w.forwarded, seq(|w.forwarded|, _ => junk))
    ensures forall i | 0 <= i < |calls| && calls[i].msg.GetMsg? ::
              RightAnswer(a0, calls[..i], calls[i].msg.key, delivered[i])
  {
    var w0 := Start(s, streams);
    var heard := EverybodyHeard(s, streams);
    var v := RunTo(w0, heard);
    QueueIsFed(s, streams, heard);
    var merged := QueueMerges(v.inserted, streams);
    MergedPrintFields(v.inserted, merged, streams);
    PrintingIsSafe(s, v.inserted, merged);
    StartConsistent(s, WiresOf(streams));
    RunConsistent(w0, heard, s);
    var drained := Drain(v, s);
    RunConcat(w0, heard, drained);
    acts := heard + drained;
    w := RunTo(w0, acts);
    var js := seq(|w.forwarded|, _ => junk);
    w, calls := GetDelivers(s, a0, streams, acts, js);
    delivered := Delivered(w.forwarded, js);
    NobodyLeft(s, streams, acts, w, calls);
  }

  lemma EverybodyHeard(s: LiveStore, streams: seq<seq<Message>>) returns (acts: seq<Action>)
    requires AllStreams(streams)
    ensures CanRun(Start(s, streams), acts)
    ensures var v := RunTo(Start(s, streams), acts);
            && |v.wires| == |streams| && (forall c | 0 <= c < |streams| :: v.wires[c] == [])
            && !v.exitServer && !Dozing(v.pc)
  {
    var w0 := Start(s, streams);
    forall c | 0 <= c < |streams| ensures Audible(w0.wires[c]) {
      assert AllSendable(streams[c]);
      StreamAudible(streams[c]);
    }
    acts := HearEverybody(w0, |streams|);
  }

  lemma NobodyLeft(s: LiveStore, streams: seq<seq<Message>>, acts: seq<Action>, w: World, calls: seq<Call>)
    requires AllStreams(streams) && CanRun(Start(s, streams), acts) && w == RunTo(Start(s, streams), acts)
    requires Merges(w.inserted, calls, streams) && |w.wires| == |streams|
    requires forall c | 0 <= c < |streams| :: w.wires[c] == []
    ensures forall c | 0 <= c < |streams| :: MessagesBy(calls, Clients(w.inserted), c) == RequestsIn(streams[c])
  {
    var wires := WiresOf(streams);
    WiresKept(s, streams, acts);
    forall c | 0 <= c < |streams|
      ensures MessagesBy(calls, Clients(w.inserted), c) == RequestsIn(streams[c])
    {
      assert HeardSoFar(w, wires, c) && MergesFor(w.inserted, calls, streams[c], c) && AllSendable(streams[c]);
      assert PduBytes(ByClient(w.inserted, c)) + [] == PduBytes(ByClient(w.inserted, c));
      AllQueued(w.inserted, calls, streams[c], c);
    }
  }
}
