/** From a client's call to the bytes it gets back: building, framing, queueing, kernel, reply path. */
module EndToEnd {
  import opened CString
  import opened Wire
  import opened Kernel
  import opened StoreFile
  import opened Durable
  import opened Pipeline

  /** One queued call: what the client sent, and the kernel failure it meets. */
  datatype Call = Call(msg: Message, fault: Fault)

  /** Requests the server can carry: a key that is a C string of at most 63 bytes, at least one data byte,
      and a PDU that fits the netlink buffer. */
  predicate Carried(m: Message) {
    match m
    case InitMsg => true
    case InsertMsg(key, data) => KeyString(key) && 1 <= |data| <= MAX_PAYLOAD - PREFIX
    case GetMsg(key) => KeyString(key)
    case DeleteMsg(key) => KeyString(key)
    case _ => false
  }

  predicate AllCarried(calls: seq<Call>) {
    forall i | 0 <= i < |calls| :: Carried(calls[i].msg)
  }

  function Encoded(m: Message): (b: Bytes)
    requires Carried(m)
    ensures b == Encode(m)
  {
    Encode(m)
  }

  /** The kernel request a message amounts to. */
  function Meaning(m: Message): (r: Kernel.Request)
    requires Carried(m)
  {
    match m
    case InitMsg => Init
    case InsertMsg(key, data) => Insert(Pad(key, KEY_SIZE), data)
    case GetMsg(key) => Get(Pad(key, KEY_SIZE))
    case DeleteMsg(key) => Delete(Pad(key, KEY_SIZE))
  }

  lemma CarriedAcceptable(m: Message)
    requires Carried(m)
    ensures Fits(m) && Acceptable(Encode(m)) && RequestOf(Encode(m)) == Meaning(m)
  {
    match m
    case InitMsg =>
    case InsertMsg(key, data) => InsertPdu(key, data);
    case GetMsg(key) => KeyedPdu(key);
    case DeleteMsg(key) => KeyedPdu(key);
    case _ =>
  }

  /** Of all messages that can be built, these are exactly the ones whose PDU kernel_communication can carry. */
  lemma CarriedIff(m: Message)
    requires Buildable(m)
    ensures Carried(m) <==> Acceptable(Encode(m))
  {
    if Carried(m) {
      CarriedAcceptable(m);
    }
    var b := Encode(m);
    if m.InsertMsg? {
      assert |b| == PREFIX + |m.data| && b[0] == INSERT;
    }
  }

  // ---- The abstract service: a map in which the first successful INSERT of a key wins ----

  type Abstract = map<Bytes, Bytes>

  function After(a: Abstract, c: Call): (a': Abstract) {
    match c.msg
    case InsertMsg(key, data) => if c.fault != NoFault || key in a then a else a[key := data]
    case DeleteMsg(key) => a - {key}
    case _ => a
  }

  function Reply(a: Abstract, c: Call): (r: Bytes)
    requires Carried(c.msg)
  {
    match c.msg
    case InitMsg => Text("Hashtable already initialized.")
    case InsertMsg(key, _) =>
      if c.fault == KmallocFails then Text("Error when kmalloc.")
      else if key in a then Text("Error, duplicated key.")
      else if c.fault == TableFails then Text("Error when insert to rhashtable.")
      else Text("Inserted object to rhashtable")
    case GetMsg(key) => if key in a then a[key] else Text("Error when getting object.")
    case DeleteMsg(key) => if key in a then Text(DELETED) else Text("Error when getting object.")
  }

  function AfterAll(a0: Abstract, calls: seq<Call>): (a: Abstract) {
    if calls == [] then a0 else After(AfterAll(a0, calls[..|calls| - 1]), calls[|calls| - 1])
  }

  /** The kernel table of an abstract map, keys padded. */
  ghost predicate Represents(table: map<Bytes, Bytes>, a: Abstract) {
    && (forall k | KeyString(k) :: Pad(k, KEY_SIZE) in table <==> k in a)
    && (forall k | k in a :: KeyString(k) && |a[k]| <= MAX_PAYLOAD - PREFIX && Pad(k, KEY_SIZE) in table
                             && table[Pad(k, KEY_SIZE)] == a[k])
  }

  /** The abstract map of an entry list. */
  function AbstractOf(es: seq<Entry>): (a: Abstract) {
    if es == [] then map[] else AbstractOf(es[1..])[es[0].key := TableBytes(es[0])]
  }

  /** Every table that well-formed requests, restarts and replays can lead to represents some abstract map:
      the one of its entries. */
  lemma {:induction false} EntriesRepresent(es: seq<Entry>)
    requires Good(es)
    ensures Represents(TableOf(es), AbstractOf(es))
  {
    if es != [] {
      assert WfEntry(es[0]);
      EntriesRepresent(es[1..]);
      InsertRepresents(TableOf(es[1..]), AbstractOf(es[1..]), es[0].key, TableBytes(es[0]));
    }
  }

  lemma InsertRepresents(t: map<Bytes, Bytes>, a: Abstract, key: Bytes, data: Bytes)
    requires Represents(t, a) && KeyString(key) && |data| <= MAX_PAYLOAD - PREFIX
    ensures Represents(t[Pad(key, KEY_SIZE) := data], a[key := data])
  {
    forall k | KeyString(k) ensures Pad(k, KEY_SIZE) == Pad(key, KEY_SIZE) <==> k == key {
      PadInjective(k, key, KEY_SIZE);
    }
  }

  lemma DeleteRepresents(t: map<Bytes, Bytes>, a: Abstract, key: Bytes)
    requires Represents(t, a) && KeyString(key)
    ensures Represents(t - {Pad(key, KEY_SIZE)}, a - {key})
  {
    forall k | KeyString(k) ensures Pad(k, KEY_SIZE) == Pad(key, KEY_SIZE) <==> k == key {
      PadInjective(k, key, KEY_SIZE);
    }
  }

  lemma ServeRepresents(k: State, a: Abstract, c: Call)
    requires k.initialized && Represents(k.table, a) && Carried(c.msg)
    ensures var o := Kernel.Serve(k, Meaning(c.msg), c.fault);
            o.reply == Reply(a, c) && Represents(o.state.table, After(a, c))
  {
    match c.msg
    case InsertMsg(key, data) => InsertServed(k, a, key, data, c.fault);
    case DeleteMsg(key) => DeleteServed(k, a, key, c.fault);
    case _ =>
  }

  lemma InsertServed(k: State, a: Abstract, key: Bytes, data: Bytes, fault: Fault)
    requires k.initialized && Represents(k.table, a) && KeyString(key) && 1 <= |data| <= MAX_PAYLOAD - PREFIX
    ensures var o := Kernel.Serve(k, Insert(Pad(key, KEY_SIZE), data), fault);
            var c := Call(InsertMsg(key, data), fault);
            o.reply == Reply(a, c) && Represents(o.state.table, After(a, c))
  {
    InsertRepresents(k.table, a, key, data);
    assert Pad(key, KEY_SIZE) in k.table <==> key in a;
  }

  lemma DeleteServed(k: State, a: Abstract, key: Bytes, fault: Fault)
    requires k.initialized && Represents(k.table, a) && KeyString(key)
    ensures var o := Kernel.Serve(k, Delete(Pad(key, KEY_SIZE)), fault);
            var c := Call(DeleteMsg(key), fault);
            o.reply == Reply(a, c) && Represents(o.state.table, After(a, c))
  {
    DeleteRepresents(k.table, a, key);
    assert Pad(key, KEY_SIZE) in k.table <==> key in a;
    assert key !in a ==> a - {key} == a;
  }

  // ---- The queue: one call after the other ----

  /** The queue entry is what the listener makes of the call. */
  predicate Matches(r: Req, call: Call) {
    Carried(call.msg) && r.pdu == Encoded(call.msg) && r.fault == call.fault
  }

  predicate Matching(rs: seq<Req>, calls: seq<Call>) {
    |rs| == |calls| && forall i | 0 <= i < |rs| :: Matches(rs[i], calls[i])
  }

  lemma MatchingPrefix(rs: seq<Req>, calls: seq<Call>, n: nat)
    requires Matching(rs, calls) && n <= |rs|
    ensures Matching(rs[..n], calls[..n]) && AllCarried(calls)
  {
    forall i | 0 <= i < |calls| ensures Carried(calls[i].msg) {
      assert Matches(rs[i], calls[i]);
    }
  }

  /** The i-th reply is the abstract map's answer to the i-th call. */
  ghost predicate Answered(a0: Abstract, replies: seq<Bytes>, calls: seq<Call>, i: nat)
    requires i < |calls| == |replies| && AllCarried(calls)
  {
    replies[i] == Reply(AfterAll(a0, calls[..i]), calls[i])
  }

  ghost predicate Answers(a0: Abstract, replies: seq<Bytes>, calls: seq<Call>)
    requires AllCarried(calls)
  {
    |replies| == |calls| && forall i | 0 <= i < |calls| :: Answered(a0, replies, calls, i)
  }

  lemma AnsweredLonger(a0: Abstract, replies: seq<Bytes>, calls: seq<Call>, last: Bytes, i: nat)
    requires AllCarried(calls) && i < |replies| == |calls| - 1 && Answered(a0, replies, calls[..|replies|], i)
    ensures Answered(a0, replies + [last], calls, i)
  {
    assert calls[..|replies|][..i] == calls[..i];
  }

  lemma AnsweredLast(a0: Abstract, replies: seq<Bytes>, calls: seq<Call>, last: Bytes)
    requires AllCarried(calls) && |replies| == |calls| - 1
    requires last == Reply(AfterAll(a0, calls[..|replies|]), calls[|replies|])
    ensures Answered(a0, replies + [last], calls, |replies|)
  {
  }

  lemma AnswersSnoc(a0: Abstract, replies: seq<Bytes>, calls: seq<Call>, last: Bytes)
    requires AllCarried(calls) && calls != [] && Answers(a0, replies, calls[..|calls| - 1])
    requires last == Reply(AfterAll(a0, calls[..|calls| - 1]), calls[|calls| - 1])
    ensures Answers(a0, replies + [last], calls)
  {
    forall i | 0 <= i < |calls| ensures Answered(a0, replies + [last], calls, i) {
      AnsweredAny(a0, replies, calls, last, i);
    }
  }

  lemma AnsweredAny(a0: Abstract, replies: seq<Bytes>, calls: seq<Call>, last: Bytes, i: nat)
    requires AllCarried(calls) && i < |calls| && Answers(a0, replies, calls[..|calls| - 1])
    requires last == Reply(AfterAll(a0, calls[..|calls| - 1]), calls[|calls| - 1])
    ensures Answered(a0, replies + [last], calls, i)
  {
    if i < |replies| {
      assert Answered(a0, replies, calls[..|replies|], i);
      AnsweredLonger(a0, replies, calls, last, i);
    } else {
      AnsweredLast(a0, replies, calls, last);
    }
  }

  /** Served one after the other, any calls of any clients are answered as by the abstract map, whatever
      kernel failures they meet and whatever the table held before. */
  lemma {:induction false} SessionRefines(s: LiveStore, a0: Abstract, rs: seq<Req>, calls: seq<Call>)
    requires Matching(rs, calls) && Represents(s.kernel.table, a0)
    ensures Represents(Sequential(s, rs).store.kernel.table, AfterAll(a0, calls))
    ensures AllCarried(calls) && Answers(a0, Sequential(s, rs).replies, calls)
    decreases |calls|
  {
    if calls != [] {
      var n := |calls| - 1;
      MatchingPrefix(rs, calls, n);
      SessionRefines(s, a0, rs[..n], calls[..n]);
      assert Matches(rs[n], calls[n]);
      SessionStep(s, a0, rs, calls);
    }
  }

  lemma SessionStep(s: LiveStore, a0: Abstract, rs: seq<Req>, calls: seq<Call>)
    requires AllCarried(calls) && calls != [] && |rs| == |calls| && Matches(rs[|calls| - 1], calls[|calls| - 1])
    requires Represents(Sequential(s, rs[..|calls| - 1]).store.kernel.table, AfterAll(a0, calls[..|calls| - 1]))
    requires Answers(a0, Sequential(s, rs[..|calls| - 1]).replies, calls[..|calls| - 1])
    ensures Represents(Sequential(s, rs).store.kernel.table, AfterAll(a0, calls))
    ensures Answers(a0, Sequential(s, rs).replies, calls)
  {
    var n := |calls| - 1;
    var before := Sequential(s, rs[..n]);
    var a := AfterAll(a0, calls[..n]);
    CarriedAcceptable(calls[n].msg);
    ServeRepresents(before.store.kernel, a, calls[n]);
    SequentialLast(s, rs);
    AnswersSnoc(a0, before.replies, calls, Reply(a, calls[n]));
  }

  // ---- The way there: clients' streams into one queue ----

  /** What a client may send on its connection. */
  predicate Sendable(m: Message) {
    Carried(m) || m.QuitMsg? || (m.JoinMsg? && Buildable(m))
  }

  predicate AllSendable(ms: seq<Message>)
    ensures AllSendable(ms) ==> AllFit(ms)
  {
    SendableFits(ms);
    forall i | 0 <= i < |ms| :: Sendable(ms[i])
  }

  lemma SendableFits(ms: seq<Message>)
    ensures (forall i | 0 <= i < |ms| :: Sendable(ms[i])) ==> AllFit(ms)
  {
    if forall i | 0 <= i < |ms| :: Sendable(ms[i]) {
      forall i | 0 <= i < |ms| ensures Fits(ms[i]) {
        if Carried(ms[i]) {
          CarriedAcceptable(ms[i]);
        }
      }
    }
  }

  /** Its requests, in the order it made them. */
  function RequestsIn(ms: seq<Message>): (rs: seq<Message>)
    ensures AllSendable(ms) ==> forall i | 0 <= i < |rs| :: Carried(rs[i])
  {
    if ms == [] then [] else (if Carried(ms[0]) then [ms[0]] else []) + RequestsIn(ms[1..])
  }

  function Encodings(ms: seq<Message>): (bs: seq<Bytes>)
    requires forall i | 0 <= i < |ms| :: Carried(ms[i])
    ensures |bs| == |ms| && forall i | 0 <= i < |ms| :: bs[i] == Encoded(ms[i])
  {
    seq(|ms|, i requires 0 <= i < |ms| => Encoded(ms[i]))
  }

  /** What a listener hears on a client's connection is exactly that client's requests. */
  lemma StreamHeard(ms: seq<Message>)
    requires AllSendable(ms)
    ensures Hears(SentAll(ms)) == Heard(Encodings(RequestsIn(ms)), PeerClosed)
  {
    FramingRoundTrip(ms);
    HearsClean(SentAll(ms));
    ArrivalsQueued(ms);
  }

  lemma {:induction false} ArrivalsQueued(ms: seq<Message>)
    requires AllSendable(ms)
    ensures Queued(Arrivals(ms)) == Encodings(RequestsIn(ms))
  {
    if ms != [] {
      ArrivalsQueued(ms[1..]);
      QueuedStep(Arrival(ms[0]), Arrivals(ms[1..]));
      ArrivalQueued(ms[0]);
    }
  }

  lemma ArrivalQueued(m: Message)
    requires Sendable(m)
    ensures Fits(m) && var p := Arrival(m);
            && (Carried(m) ==> p.op != JOIN && p.op != QUIT && p.data == Encode(m))
            && (!Carried(m) ==> p.op == JOIN || p.op == QUIT)
  {
    if Carried(m) {
      CarriedAcceptable(m);
    }
  }

  /** Every queue entry comes from a client, and what a client's listener has queued so far is the
      beginning of what it hears on the connection. */
  ghost predicate FedBy(queue: seq<Req>, streams: seq<seq<Message>>) {
    && (forall c | 0 <= c < |streams| :: AllSendable(streams[c]))
    && (forall i | 0 <= i < |queue| :: queue[i].client < |streams|)
    && (forall c | 0 <= c < |streams| :: PduBytes(ByClient(queue, c)) <= Hears(SentAll(streams[c])).queue)
  }

  function Clients(rs: seq<Req>): (cs: seq<nat>)
    ensures |cs| == |rs| && forall i | 0 <= i < |rs| :: cs[i] == rs[i].client
  {
    seq(|rs|, i requires 0 <= i < |rs| => rs[i].client)
  }

  /** Client c's part of the calls. */
  function MessagesBy(calls: seq<Call>, cs: seq<nat>, c: nat): (ms: seq<Message>)
    requires |cs| == |calls|
  {
    if calls == [] then []
    else
      var n := |calls| - 1;
      MessagesBy(calls[..n], cs[..n], c) + (if cs[n] == c then [calls[n].msg] else [])
  }

  /** Client c's share of the calls is the beginning of its requests, as long as its share of the queue. */
  ghost predicate MergesFor(queue: seq<Req>, calls: seq<Call>, stream: seq<Message>, c: nat)
    requires |calls| == |queue|
  {
    && MessagesBy(calls, Clients(queue), c) <= RequestsIn(stream)
    && |MessagesBy(calls, Clients(queue), c)| == |ByClient(queue, c)|
  }

  /** `calls` is a merge of beginnings of the clients' request sequences, and the queue is what the listeners
      make of it. */
  ghost predicate Merges(queue: seq<Req>, calls: seq<Call>, streams: seq<seq<Message>>) {
    Matching(queue, calls) && forall c | 0 <= c < |streams| :: MergesFor(queue, calls, streams[c], c)
  }

  lemma FedBefore(queue: seq<Req>, streams: seq<seq<Message>>)
    requires queue != [] && FedBy(queue, streams)
    ensures FedBy(queue[..|queue| - 1], streams)
  {
    var n := |queue| - 1;
    assert queue == queue[..n] + [queue[n]];
    forall c | 0 <= c < |streams| ensures PduBytes(ByClient(queue[..n], c)) <= Hears(SentAll(streams[c])).queue {
      ByClientPrefix(queue[..n], [queue[n]], c);
      PduPrefix(ByClient(queue[..n], c), ByClient(queue, c));
    }
  }

  lemma PduPrefix(xs: seq<Req>, ys: seq<Req>)
    requires xs <= ys
    ensures PduBytes(xs) <= PduBytes(ys)
  {
  }

  /** The message behind the last queue entry: the next request of the client it came from. */
  lemma NextMessage(queue: seq<Req>, streams: seq<seq<Message>>) returns (m: Message)
    requires queue != [] && FedBy(queue, streams)
    ensures var r := queue[|queue| - 1];
            var p := |ByClient(queue[..|queue| - 1], r.client)|;
            && p < |RequestsIn(streams[r.client])| && m == RequestsIn(streams[r.client])[p]
            && Carried(m) && Encode(m) == r.pdu
  {
    var c := queue[|queue| - 1].client;
    StreamHeard(streams[c]);
    LastByClient(queue);
    var p := |ByClient(queue, c)| - 1;
    assert PduBytes(ByClient(queue, c)) <= Encodings(RequestsIn(streams[c]));
    assert PduBytes(ByClient(queue, c))[p] == Encodings(RequestsIn(streams[c]))[p];
    m := RequestsIn(streams[c])[p];
  }

  lemma LastByClient(queue: seq<Req>)
    requires queue != []
    ensures var r := queue[|queue| - 1];
            var mine := ByClient(queue, r.client);
            && mine != [] && mine[|mine| - 1] == r && |mine| == |ByClient(queue[..|queue| - 1], r.client)| + 1
  {
  }

  /** Whatever the listeners' interleaving, the queue is a merge of what the clients sent. */
  lemma {:induction false} QueueMerges(queue: seq<Req>, streams: seq<seq<Message>>) returns (calls: seq<Call>)
    requires FedBy(queue, streams)
    ensures Merges(queue, calls, streams)
    decreases |queue|
  {
    calls := [];
    if queue != [] {
      var n := |queue| - 1;
      FedBefore(queue, streams);
      var before := QueueMerges(queue[..n], streams);
      var m := NextMessage(queue, streams);
      calls := before + [Call(m, queue[n].fault)];
      MergesSnoc(queue, before, m, streams);
    }
  }

  lemma MergesSnoc(queue: seq<Req>, before: seq<Call>, m: Message, streams: seq<seq<Message>>)
    requires queue != [] && queue[|queue| - 1].client < |streams|
    requires Merges(queue[..|queue| - 1], before, streams)
    requires var r := queue[|queue| - 1];
             var p := |ByClient(queue[..|queue| - 1], r.client)|;
             && p < |RequestsIn(streams[r.client])| && m == RequestsIn(streams[r.client])[p]
             && Carried(m) && Encode(m) == r.pdu
    ensures Merges(queue, before + [Call(m, queue[|queue| - 1].fault)], streams)
  {
    var n := |queue| - 1;
    var r := queue[n];
    var calls := before + [Call(m, r.fault)];
    MatchingSnoc(queue, before, Call(m, r.fault));
    forall c | 0 <= c < |streams| ensures MergesFor(queue, calls, streams[c], c) {
      assert MergesFor(queue[..n], before, streams[c], c);
      MergesForSnoc(queue, before, Call(m, r.fault), streams[c], c);
    }
  }

  lemma MatchingSnoc(queue: seq<Req>, before: seq<Call>, call: Call)
    requires queue != [] && Matching(queue[..|queue| - 1], before) && Matches(queue[|queue| - 1], call)
    ensures Matching(queue, before + [call])
  {
    var n := |queue| - 1;
    forall i | 0 <= i < |queue| ensures Matches(queue[i], (before + [call])[i]) {
      assert i < n ==> Matches(queue[..n][i], before[i]);
    }
  }

  lemma MergesForSnoc(queue: seq<Req>, before: seq<Call>, call: Call, stream: seq<Message>, c: nat)
    requires queue != [] && |before| == |queue| - 1 && MergesFor(queue[..|queue| - 1], before, stream, c)
    requires queue[|queue| - 1].client == c ==>
               var p := |ByClient(queue[..|queue| - 1], c)|; p < |RequestsIn(stream)| && call.msg == RequestsIn(stream)[p]
    ensures MergesFor(queue, before + [call], stream, c)
  {
    var n := |queue| - 1;
    var calls, cs := before + [call], Clients(queue);
    assert calls[..n] == before && cs[..n] == Clients(queue[..n]);
    var mine := MessagesBy(before, cs[..n], c);
    assert MessagesBy(calls, cs, c) == mine + (if cs[n] == c then [call.msg] else []);
  }

  // ---- The way back ----

  predicate Short(replies: seq<Bytes>) {
    forall i | 0 <= i < |replies| :: |replies[i]| + HEADERSIZE < 0x1_0000
  }

  function ReplyMessages(replies: seq<Bytes>, junk: seq<Byte>): (ms: seq<Message>)
    requires |junk| == |replies| && Short(replies)
    ensures AllFit(ms)
  {
    if replies == [] then [] else [KernelMsg(junk[0], replies[0])] + ReplyMessages(replies[1..], junk[1..])
  }

  function Bodies(ps: seq<Pdu>): (bs: seq<Bytes>) {
    if ps == [] then [] else [ps[0].data] + Bodies(ps[1..])
  }

  /** Whatever the kernel leaves in the spare header byte, the client reads back exactly the replies. */
  lemma {:induction false} RepliesArrive(replies: seq<Bytes>, junk: seq<Byte>)
    requires |junk| == |replies| && Short(replies)
    ensures Clean(SentAll(ReplyMessages(replies, junk)))
    ensures Bodies(Pdus(SentAll(ReplyMessages(replies, junk)))) == replies
  {
    FramingRoundTrip(ReplyMessages(replies, junk));
    ReplyBodies(replies, junk);
  }

  lemma {:induction false} ReplyBodies(replies: seq<Bytes>, junk: seq<Byte>)
    requires |junk| == |replies| && Short(replies)
    ensures Bodies(Arrivals(ReplyMessages(replies, junk))) == replies
  {
    if replies != [] {
      ReplyBodies(replies[1..], junk[1..]);
      var m := KernelMsg(junk[0], replies[0]);
      var ms := ReplyMessages(replies[1..], junk[1..]);
      assert ([m] + ms)[1..] == ms;
      assert ([Arrival(m)] + Arrivals(ms))[1..] == Arrivals(ms);
    }
  }

  /** The bodies of the KERNEL PDUs a client takes off its socket. */
  function Delivered(replies: seq<Bytes>, junk: seq<Byte>): (bodies: seq<Bytes>)
    requires |junk| == |replies| && Short(replies)
    ensures bodies == replies
  {
    RepliesArrive(replies, junk);
    Bodies(Pdus(SentAll(ReplyMessages(replies, junk))))
  }

  predicate Small(a: Abstract) {
    forall k | k in a :: |a[k]| <= MAX_PAYLOAD - PREFIX
  }

  lemma {:induction false} StaysSmall(a0: Abstract, calls: seq<Call>)
    requires AllCarried(calls) && Small(a0)
    ensures Small(AfterAll(a0, calls))
    decreases |calls|
  {
    if calls != [] {
      StaysSmall(a0, calls[..|calls| - 1]);
      assert Carried(calls[|calls| - 1].msg);
    }
  }

  lemma ReplyShort(a: Abstract, c: Call)
    requires Small(a) && Carried(c.msg)
    ensures |Reply(a, c)| <= MAX_PAYLOAD
  {}

  lemma AnswersShort(a0: Abstract, replies: seq<Bytes>, calls: seq<Call>)
    requires AllCarried(calls) && Small(a0) && Answers(a0, replies, calls)
    ensures Short(replies)
  {
    forall i | 0 <= i < |replies| ensures |replies[i]| + HEADERSIZE < 0x1_0000 {
      assert Answered(a0, replies, calls, i);
      StaysSmall(a0, calls[..i]);
      ReplyShort(AfterAll(a0, calls[..i]), calls[i]);
    }
  }

  // ---- What a GET is answered ----

  /** An INSERT of the key that meets no kernel failure. */
  predicate Inserts(c: Call, key: Bytes) {
    c.msg.InsertMsg? && c.msg.key == key && c.fault == NoFault
  }

  ghost predicate DeletedAfter(calls: seq<Call>, key: Bytes, i: int) {
    exists d :: i < d < |calls| && 0 <= d && calls[d].msg == DeleteMsg(key)
  }

  /** Nothing the key ever had is left: an initial value and every INSERT were deleted later on. */
  ghost predicate Cleared(a0: Abstract, calls: seq<Call>, key: Bytes) {
    && (key in a0 ==> DeletedAfter(calls, key, -1))
    && (forall j | 0 <= j < |calls| && Inserts(calls[j], key) :: DeletedAfter(calls, key, j))
  }

  /** Call i is the first successful INSERT of the key since its last DELETE. */
  ghost predicate FirstSinceDelete(a0: Abstract, calls: seq<Call>, key: Bytes, i: nat) {
    i < |calls| && Inserts(calls[i], key) && Cleared(a0, calls[..i], key) && !DeletedAfter(calls, key, i)
  }

  lemma DeletedSnoc(calls: seq<Call>, c: Call, key: Bytes, i: int)
    requires i < |calls|
    ensures DeletedAfter(calls + [c], key, i) <==> DeletedAfter(calls, key, i) || c.msg == DeleteMsg(key)
  {
    var all := calls + [c];
    if DeletedAfter(calls, key, i) {
      var d :| i < d < |calls| && 0 <= d && calls[d].msg == DeleteMsg(key);
      assert all[d].msg == DeleteMsg(key);
    }
    if c.msg == DeleteMsg(key) {
      assert all[|calls|].msg == DeleteMsg(key);
    }
  }

  lemma ClearedSnoc(a0: Abstract, calls: seq<Call>, c: Call, key: Bytes)
    ensures Cleared(a0, calls + [c], key)
            <==> c.msg == DeleteMsg(key) || (Cleared(a0, calls, key) && !Inserts(c, key))
  {
    var all := calls + [c];
    DeletedSnoc(calls, c, key, -1);
    forall j | 0 <= j < |calls| ensures DeletedAfter(all, key, j) <==> DeletedAfter(calls, key, j) || c.msg == DeleteMsg(key) {
      DeletedSnoc(calls, c, key, j);
    }
    assert !DeletedAfter(all, key, |calls|);
    assert forall j | 0 <= j < |calls| :: all[j] == calls[j];
    assert Inserts(c, key) ==> Inserts(all[|calls|], key);
  }

  /** The key is absent exactly when everything it had was deleted. */
  lemma {:induction false} AbsentIff(a0: Abstract, calls: seq<Call>, key: Bytes)
    ensures key !in AfterAll(a0, calls) <==> Cleared(a0, calls, key)
    decreases |calls|
  {
    if calls != [] {
      var n := |calls| - 1;
      AbsentIff(a0, calls[..n], key);
      ClearedSnoc(a0, calls[..n], calls[n], key);
      assert calls == calls[..n] + [calls[n]];
    }
  }

  /** The value of a key is that of its first successful INSERT since its last DELETE; that INSERT was
      answered with success. */
  lemma {:induction false} LiveValue(a0: Abstract, calls: seq<Call>, key: Bytes, i: nat)
    requires AllCarried(calls) && FirstSinceDelete(a0, calls, key, i)
    ensures key in AfterAll(a0, calls) && AfterAll(a0, calls)[key] == calls[i].msg.data
    ensures Reply(AfterAll(a0, calls[..i]), calls[i]) == Text("Inserted object to rhashtable")
    decreases |calls|
  {
    AbsentIff(a0, calls[..i], key);
    var n := |calls| - 1;
    if i < n {
      assert calls == calls[..n] + [calls[n]];
      DeletedSnoc(calls[..n], calls[n], key, i);
      assert calls[..n][..i] == calls[..i];
      LiveValue(a0, calls[..n], key, i);
    }
  }

  lemma {:induction false} InitialValue(a0: Abstract, calls: seq<Call>, key: Bytes)
    requires key in a0 && !DeletedAfter(calls, key, -1)
    ensures key in AfterAll(a0, calls) && AfterAll(a0, calls)[key] == a0[key]
    decreases |calls|
  {
    if calls != [] {
      var n := |calls| - 1;
      assert calls == calls[..n] + [calls[n]];
      DeletedSnoc(calls[..n], calls[n], key, -1);
      InitialValue(a0, calls[..n], key);
    }
  }

  /** A key that is present has a first successful INSERT or its initial value. */
  lemma {:induction false} PresentHasOrigin(a0: Abstract, calls: seq<Call>, key: Bytes)
    requires key in AfterAll(a0, calls) && (key in a0 ==> DeletedAfter(calls, key, -1))
    ensures exists i: nat :: FirstSinceDelete(a0, calls, key, i)
    decreases |calls|
  {
    AbsentIff(a0, calls, key);
    var n := |calls| - 1;
    assert calls == calls[..n] + [calls[n]];
    ClearedSnoc(a0, calls[..n], calls[n], key);
    AbsentIff(a0, calls[..n], key);
    if Cleared(a0, calls[..n], key) {
      assert FirstSinceDelete(a0, calls, key, n);
    } else {
      DeletedSnoc(calls[..n], calls[n], key, -1);
      PresentHasOrigin(a0, calls[..n], key);
      var i: nat :| FirstSinceDelete(a0, calls[..n], key, i);
      assert calls[..n][..i] == calls[..i];
      DeletedSnoc(calls[..n], calls[n], key, i);
      assert FirstSinceDelete(a0, calls, key, i);
    }
  }

  /** The reply a GET of the key deserves after these calls. */
  ghost predicate RightAnswer(a0: Abstract, calls: seq<Call>, key: Bytes, reply: Bytes) {
    var initial := key in a0 && !DeletedAfter(calls, key, -1);
    && (forall i: nat | FirstSinceDelete(a0, calls, key, i) :: reply == calls[i].msg.data)
    && (initial ==> reply == a0[key])
    && (!initial && (forall i: nat :: !FirstSinceDelete(a0, calls, key, i)) ==>
          reply == Text("Error when getting object."))
  }

  /** The abstract map answers a GET with the data of the key's first successful INSERT since its last
      DELETE, or its untouched initial value, or the not-found reply. */
  lemma GetReplies(a0: Abstract, calls: seq<Call>, key: Bytes, fault: Fault)
    requires AllCarried(calls) && KeyString(key)
    ensures RightAnswer(a0, calls, key, Reply(AfterAll(a0, calls), Call(GetMsg(key), fault)))
  {
    forall i: nat | FirstSinceDelete(a0, calls, key, i)
      ensures key in AfterAll(a0, calls) && AfterAll(a0, calls)[key] == calls[i].msg.data
    {
      LiveValue(a0, calls, key, i);
    }
    if key in a0 && !DeletedAfter(calls, key, -1) {
      InitialValue(a0, calls, key);
    } else if key in AfterAll(a0, calls) {
      PresentHasOrigin(a0, calls, key);
    }
  }

  // ---- End to end ----

  ghost predicate AllStreams(streams: seq<seq<Message>>) {
    forall c | 0 <= c < |streams| :: AllSendable(streams[c])
  }

  /** The bytes on the clients' connections. */
  function WiresOf(streams: seq<seq<Message>>): (wires: seq<Bytes>)
    requires AllStreams(streams)
    ensures |wires| == |streams| && forall c | 0 <= c < |streams| :: AllSendable(streams[c]) && wires[c] == SentAll(streams[c])
  {
    seq(|streams|, c requires 0 <= c < |streams| => assert AllSendable(streams[c]); SentAll(streams[c]))
  }

  /** The server started on these connections. */
  function Start(s: LiveStore, streams: seq<seq<Message>>): (w: World)
    requires AllStreams(streams)
  {
    Pipeline.Init(s, WiresOf(streams))
  }

  lemma WiresKept(s: LiveStore, streams: seq<seq<Message>>, acts: seq<Action>)
    requires AllStreams(streams) && CanRun(Start(s, streams), acts)
    ensures WiresInv(RunTo(Start(s, streams), acts), WiresOf(streams))
  {
    var wires := WiresOf(streams);
    forall c | 0 <= c < |wires| ensures HeardSoFar(Start(s, streams), wires, c) {
      assert PduBytes(ByClient([], c)) + Hears(wires[c]).queue == Hears(wires[c]).queue;
    }
    QueueIsHeard(Start(s, streams), wires, acts);
  }

  /** Whatever the threads' interleaving, the queue has been fed by the listeners. */
  lemma QueueIsFed(s: LiveStore, streams: seq<seq<Message>>, acts: seq<Action>)
    requires AllStreams(streams) && CanRun(Start(s, streams), acts)
    ensures FedBy(RunTo(Start(s, streams), acts).inserted, streams)
  {
    var w := RunTo(Start(s, streams), acts);
    WiresKept(s, streams, acts);
    forall c | 0 <= c < |streams| ensures PduBytes(ByClient(w.inserted, c)) <= Hears(SentAll(streams[c])).queue {
      assert HeardSoFar(w, WiresOf(streams), c);
    }
  }

  /** In every interleaving of the server's threads, whatever the clients send and whatever kernel failures
      occur: the replies forwarded so far, as any client connected throughout reads them off its socket, are
      the abstract map's answers to a merge of the clients' requests. */
  lemma InterleavedDelivers(s: LiveStore, a0: Abstract, streams: seq<seq<Message>>, acts: seq<Action>, junk: seq<Byte>)
    returns (w: World, calls: seq<Call>)
    requires Represents(s.kernel.table, a0) && AllStreams(streams) && CanRun(Start(s, streams), acts)
    requires |junk| == |RunTo(Start(s, streams), acts).forwarded|
    ensures w == RunTo(Start(s, streams), acts) && Merges(w.inserted, calls, streams)
    ensures |w.forwarded| <= |calls| && AllCarried(calls) && Short(w.forwarded)
    ensures Answers(a0, Delivered(w.forwarded, junk), calls[..|w.forwarded|])
  {
    w := RepliesMatch(s, WiresOf(streams), acts);
    QueueIsFed(s, streams, acts);
    calls := QueueMerges(w.inserted, streams);
    var n := |w.forwarded|;
    MatchingPrefix(w.inserted, calls, n);
    SessionRefines(s, a0, w.inserted[..n], calls[..n]);
    AnswersShort(a0, w.forwarded, calls[..n]);
  }

  /** So every GET delivers the bytes of its key's first successful INSERT since the key's last DELETE, or the
      value the table started with, or the not-found reply: through building, framing, the threads'
      interleaving, the kernel and the reply path. */
  lemma GetDelivers(s: LiveStore, a0: Abstract, streams: seq<seq<Message>>, acts: seq<Action>, junk: seq<Byte>)
    returns (w: World, calls: seq<Call>)
    requires Represents(s.kernel.table, a0) && AllStreams(streams) && CanRun(Start(s, streams), acts)
    requires |junk| == |RunTo(Start(s, streams), acts).forwarded|
    ensures w == RunTo(Start(s, streams), acts) && Merges(w.inserted, calls, streams)
    ensures |w.forwarded| <= |calls| && AllCarried(calls) && Short(w.forwarded)
    ensures forall i | 0 <= i < |w.forwarded| && calls[i].msg.GetMsg? ::
              RightAnswer(a0, calls[..i], calls[i].msg.key, Delivered(w.forwarded, junk)[i])
  {
    w, calls := InterleavedDelivers(s, a0, streams, acts, junk);
    forall i | 0 <= i < |w.forwarded| && calls[i].msg.GetMsg?
      ensures RightAnswer(a0, calls[..i], calls[i].msg.key, Delivered(w.forwarded, junk)[i])
    {
      GetAnswered(a0, Delivered(w.forwarded, junk), calls, i);
    }
  }

  lemma GetAnswered(a0: Abstract, replies: seq<Bytes>, calls: seq<Call>, i: nat)
    requires AllCarried(calls) && |replies| <= |calls| && Answers(a0, replies, calls[..|replies|])
    requires i < |replies| && calls[i].msg.GetMsg?
    ensures RightAnswer(a0, calls[..i], calls[i].msg.key, replies[i])
  {
    assert Answered(a0, replies, calls[..|replies|], i);
    assert calls[..|replies|][..i] == calls[..i];
    assert Carried(calls[i].msg);
    GetReplies(a0, calls[..i], calls[i].msg.key, calls[i].fault);
  }
}
