/** Which byte streams the framing reads as their sender meant them. */
module Framing {
  import opened CString
  import opened Wire

  /** The length a PDU announces, by its op code and without wrap-around; None for an unknown op code. */
  function Announced(b: Bytes): (n: Option<nat>)
    requires |b| >= HEADERSIZE
  {
    if b[0] == INIT || b[0] == QUIT then Some(HEADERSIZE)
    else if b[0] == INSERT then Some(PREFIX + Value16(b[1], b[2]))
    else if b[0] == GET || b[0] == DELETE then Some(PREFIX)
    else if b[0] == KERNEL || b[0] == JOIN then Some(HEADERSIZE + Value16(b[1], b[2]))
    else None
  }

  /** An INSERT announcing more data than the 16-bit PDU length can hold. */
  predicate Oversized(s: Bytes) {
    |s| >= HEADERSIZE && s[0] == INSERT && Value16(s[1], s[2]) > 65467
  }

  /** Exactly one PDU, as long as it says. */
  predicate Whole(b: Bytes) {
    |b| >= HEADERSIZE && Announced(b) == Some(|b|) && !Oversized(b)
  }

  ghost predicate AllWhole(bs: seq<Bytes>) {
    forall i | 0 <= i < |bs| :: Whole(bs[i])
  }

  /** The PDU as its receiver holds it: KERNEL, JOIN and QUIT without their header. */
  function Held(b: Bytes): (p: Pdu)
    requires Whole(b)
  {
    Pdu(b[0], if b[0] == KERNEL || b[0] == JOIN || b[0] == QUIT then b[HEADERSIZE..] else b)
  }

  /** What client_listener is meant to queue of these PDUs. */
  function Meant(bs: seq<Bytes>): (q: seq<Bytes>)
    requires AllWhole(bs)
  {
    if bs == [] then []
    else
      assert Whole(bs[0]);
      (if bs[0][0] == JOIN || bs[0][0] == QUIT then [] else [Held(bs[0]).data]) + Meant(bs[1..])
  }

  // ---- One PDU ----

  lemma HeadOf(b: Bytes, rest: Bytes)
    requires |b| >= HEADERSIZE
    ensures |b + rest| >= HEADERSIZE && (b + rest)[..HEADERSIZE] == b[..HEADERSIZE]
    ensures forall i | 0 <= i < HEADERSIZE :: (b + rest)[i] == b[i]
    ensures (b + rest)[..|b|] == b && (b + rest)[|b|..] == rest
    ensures (b + rest)[HEADERSIZE..|b|] == b[HEADERSIZE..]
  {
    assert (b + rest)[..|b|] == b && (b + rest)[|b|..] == rest;
  }

  lemma ReceiveWhole(b: Bytes, rest: Bytes)
    requires Whole(b)
    ensures Receive(b + rest) == Got(Held(b), rest)
  {
    HeadOf(b, rest);
  }

  lemma TakenAsAnnounced(s: Bytes)
    requires Receive(s).Got? && !Oversized(s)
    ensures |s| >= HEADERSIZE && Announced(s).Some? && HEADERSIZE <= Announced(s).value <= |s|
    ensures var n := Announced(s).value;
            Receive(s) == Got(Pdu(s[0], if s[0] == KERNEL || s[0] == JOIN || s[0] == QUIT then s[HEADERSIZE..n] else s[..n]),
                              s[n..])
  {
  }

  lemma Front(s: Bytes, n: nat)
    requires HEADERSIZE <= n <= |s|
    ensures var b := s[..n];
            && b[0] == s[0] && b[1] == s[1] && b[2] == s[2] && b[HEADERSIZE..] == s[HEADERSIZE..n]
            && s == b + s[n..] && Announced(b) == Announced(s) && (Oversized(b) <==> Oversized(s))
  {
  }

  lemma ReceivedWhole(s: Bytes)
    requires Receive(s).Got? && !Oversized(s)
    ensures var rest := Receive(s).rest;
            |rest| < |s| && var b := s[..|s| - |rest|];
            Whole(b) && s == b + rest && Receive(s).pdu == Held(b)
  {
    TakenAsAnnounced(s);
    Front(s, Announced(s).value);
    assert |s| - |Receive(s).rest| == Announced(s).value;
  }

  /** An oversized INSERT is taken as a stub of at most 67 bytes, and what follows is read from the middle of
      its key or value; at 65468 announced bytes the stub is empty. */
  lemma OversizedStub(s: Bytes)
    requires Oversized(s) && |s| >= PREFIX
    ensures var n := Value16(s[1], s[2]) - 65468;
            n < PREFIX && Receive(s) == Got(Pdu(INSERT, s[..n]), s[n..]) && !Whole(s[..n])
  {
    var n := Value16(s[1], s[2]) - 65468;
    assert (Value16(s[1], s[2]) + PREFIX) % 0x1_0000 == n;
  }

  // ---- Streams ----

  /** Somewhere on the stream the listener faces an oversized INSERT. */
  predicate MeetsOversized(s: Bytes)
    decreases |s|
  {
    Oversized(s) || (Receive(s).Got? && |Receive(s).rest| < |s| && MeetsOversized(Receive(s).rest))
  }

  lemma WholesHeard(bs: seq<Bytes>)
    requires AllWhole(bs)
    ensures Hears(Flatten(bs)) == Heard(Meant(bs), PeerClosed) && !MeetsOversized(Flatten(bs))
  {
    WholesThen(bs, []);
    assert Flatten(bs) + [] == Flatten(bs) && Meant(bs) + [] == Meant(bs);
  }

  lemma OnTop(s: Bytes, pdu: Pdu, rest: Bytes)
    requires Receive(s) == Got(pdu, rest) && |rest| < |s|
    ensures MeetsOversized(s) <==> Oversized(s) || MeetsOversized(rest)
    ensures Hears(s) == Heard(Kept(pdu) + Hears(rest).queue, Hears(rest).ending)
  {
    HearsStep(s, pdu, rest);
  }

  lemma {:induction false} HeardWholes(s: Bytes) returns (bs: seq<Bytes>)
    requires Hears(s).ending == PeerClosed && !MeetsOversized(s)
    ensures AllWhole(bs) && Flatten(bs) == s
    decreases |s|
  {
    bs := [];
    if s != [] {
      assert Receive(s).Got?;
      ReceivedWhole(s);
      var rest := Receive(s).rest;
      OnTop(s, Receive(s).pdu, rest);
      var more := HeardWholes(rest);
      bs := [s[..|s| - |rest|]] + more;
      assert bs[1..] == more;
    }
  }

  /** The listener reads a stream through to the peer's closing without meeting an oversized INSERT if and
      only if the stream is a concatenation of whole PDUs; and it has then queued exactly what these mean. */
  lemma WholeStreamsIff(s: Bytes)
    ensures Hears(s).ending == PeerClosed && !MeetsOversized(s) <==> exists bs :: AllWhole(bs) && Flatten(bs) == s
    ensures forall bs | AllWhole(bs) && Flatten(bs) == s :: Hears(s).queue == Meant(bs)
  {
    if Hears(s).ending == PeerClosed && !MeetsOversized(s) {
      var bs := HeardWholes(s);
    }
    forall bs | AllWhole(bs) && Flatten(bs) == s
      ensures Hears(s) == Heard(Meant(bs), PeerClosed) && !MeetsOversized(s)
    {
      WholesHeard(bs);
    }
  }

  /** Such a concatenation can be taken apart in only one way. */
  lemma {:induction false} WholesUnique(bs: seq<Bytes>, cs: seq<Bytes>)
    requires AllWhole(bs) && AllWhole(cs) && Flatten(bs) == Flatten(cs)
    ensures bs == cs
    decreases |bs|
  {
    if bs != [] && cs != [] {
      assert Whole(bs[0]) && Whole(cs[0]);
      ReceiveWhole(bs[0], Flatten(bs[1..]));
      ReceiveWhole(cs[0], Flatten(cs[1..]));
      SameStart(bs[0], Flatten(bs[1..]), cs[0], Flatten(cs[1..]));
      WholesUnique(bs[1..], cs[1..]);
      assert bs == [bs[0]] + bs[1..] && cs == [cs[0]] + cs[1..];
    }
  }

  lemma SameStart(b: Bytes, s: Bytes, c: Bytes, t: Bytes)
    requires b + s == c + t && s == t
    ensures b == c
  {
    assert |b| == |c|;
    assert b == (b + s)[..|b|] && c == (c + t)[..|c|];
  }

  /** The bound matters: a 4-byte stream with an INSERT announcing 65472 bytes is read to its end, and a stub
      is queued. */
  lemma StubQueued()
    ensures var s := [INSERT, 192, 255, 0];
            Hears(s) == Heard([s], PeerClosed) && MeetsOversized(s) && !exists bs :: AllWhole(bs) && Flatten(bs) == s
  {
    var s := [INSERT, 192, 255, 0];
    assert s[..4] == s && s[4..] == [];
    assert Receive(s) == Got(Pdu(INSERT, s), []);
    OnTop(s, Pdu(INSERT, s), []);
    WholeStreamsIff(s);
  }

  // ---- Streams that do not end where a PDU does ----

  /** The header of no PDU. */
  predicate Unknown(s: Bytes) {
    |s| >= HEADERSIZE && Announced(s) == None
  }

  /** The beginning of a PDU, cut off in its header or in what the header announces. */
  predicate Partial(s: Bytes) {
    || 0 < |s| < HEADERSIZE
    || (|s| >= HEADERSIZE && Announced(s).Some? && |s| < Announced(s).value && !Oversized(s))
  }

  ghost predicate Splits(s: Bytes, bs: seq<Bytes>, rest: Bytes) {
    AllWhole(bs) && s == Flatten(bs) + rest
  }

  lemma TailHeard(rest: Bytes)
    ensures Unknown(rest) ==> Hears(rest) == Heard([], NullRead)
    ensures Partial(rest) ==> Hears(rest) == Heard([], Starved)
    ensures Unknown(rest) || Partial(rest) ==> !MeetsOversized(rest)
  {
    if Unknown(rest) {
      UnknownTail(rest);
    } else if Partial(rest) {
      PartialTail(rest);
    }
  }

  lemma UnknownTail(rest: Bytes)
    requires Unknown(rest)
    ensures Receive(rest) == Invalid(rest[0]) && !Partial(rest)
    ensures Hears(rest) == Heard([], NullRead) && !MeetsOversized(rest)
  {
  }

  lemma PartialTail(rest: Bytes)
    requires Partial(rest)
    ensures Receive(rest) == Blocked
    ensures Hears(rest) == Heard([], Starved) && !MeetsOversized(rest)
  {
  }

  lemma {:induction false} WholesThen(bs: seq<Bytes>, rest: Bytes)
    requires AllWhole(bs)
    ensures Hears(Flatten(bs) + rest) == Heard(Meant(bs) + Hears(rest).queue, Hears(rest).ending)
    ensures MeetsOversized(Flatten(bs) + rest) <==> MeetsOversized(rest)
  {
    if bs == [] {
      assert Flatten(bs) + rest == rest;
      assert Meant(bs) + Hears(rest).queue == Hears(rest).queue;
    } else {
      Peeled(bs, rest);
      WholesThen(bs[1..], rest);
      WholeInFront(bs[0], Flatten(bs[1..]) + rest);
      Joined(Kept(Held(bs[0])), Meant(bs[1..]), Hears(rest).queue);
    }
  }

  lemma Peeled(bs: seq<Bytes>, rest: Bytes)
    requires bs != [] && AllWhole(bs)
    ensures Whole(bs[0]) && Flatten(bs) + rest == bs[0] + (Flatten(bs[1..]) + rest)
    ensures Meant(bs) == Kept(Held(bs[0])) + Meant(bs[1..])
  {
    assert Whole(bs[0]);
    Joined(bs[0], Flatten(bs[1..]), rest);
  }

  lemma WholeInFront(b: Bytes, rest: Bytes)
    requires Whole(b)
    ensures MeetsOversized(b + rest) <==> MeetsOversized(rest)
    ensures Hears(b + rest) == Heard(Kept(Held(b)) + Hears(rest).queue, Hears(rest).ending)
  {
    ReceiveWhole(b, rest);
    HeadOf(b, rest);
    OnTop(b + rest, Held(b), rest);
  }

  lemma Joined<X>(xs: seq<X>, ys: seq<X>, zs: seq<X>)
    ensures xs + (ys + zs) == xs + ys + zs
  {
  }

  lemma {:induction false} HeardThen(s: Bytes) returns (bs: seq<Bytes>, rest: Bytes)
    requires !MeetsOversized(s)
    ensures Splits(s, bs, rest) && (rest == [] || Unknown(rest) || Partial(rest))
    decreases |s|
  {
    bs, rest := [], s;
    assert Flatten([]) + s == s;
    if Receive(s).Got? {
      ReceivedWhole(s);
      var b, left := s[..|s| - |Receive(s).rest|], Receive(s).rest;
      OnTop(s, Receive(s).pdu, left);
      var more;
      more, rest := HeardThen(left);
      bs := [b] + more;
      assert bs[1..] == more;
      Joined(b, Flatten(more), rest);
    } else {
      NothingTaken(s);
    }
  }

  lemma NothingTaken(s: Bytes)
    requires !Receive(s).Got? && !Oversized(s)
    ensures s == [] || Unknown(s) || Partial(s)
  {
  }

  /** How the listener's loop ends on a stream without oversized INSERTs, from the bytes alone: reading
      through NULL when whole PDUs are followed by an unknown header, starving when they are followed by the
      beginning of one more, at the peer's closing otherwise; and in each case it has queued what the whole
      PDUs mean. */
  lemma EndingIff(s: Bytes)
    requires !MeetsOversized(s)
    ensures Hears(s).ending == NullRead <==> exists bs, rest :: Splits(s, bs, rest) && Unknown(rest)
    ensures Hears(s).ending == Starved <==> exists bs, rest :: Splits(s, bs, rest) && Partial(rest)
    ensures Hears(s).ending == PeerClosed <==> exists bs :: Splits(s, bs, [])
    ensures Hears(s).ending != Spinning
    ensures forall bs, rest | Splits(s, bs, rest) && (rest == [] || Unknown(rest) || Partial(rest)) ::
              Hears(s).queue == Meant(bs)
  {
    var bs0, rest0 := HeardThen(s);
    SplitHeard(s, bs0, rest0);
    forall bs, rest | Splits(s, bs, rest) && (rest == [] || Unknown(rest) || Partial(rest))
      ensures Hears(s) == Heard(Meant(bs), TailEnding(rest))
    {
      SplitHeard(s, bs, rest);
    }
    assert forall bs, rest | Splits(s, bs, rest) && Unknown(rest) :: Hears(s).ending == NullRead;
    assert forall bs, rest | Splits(s, bs, rest) && Partial(rest) :: Hears(s).ending == Starved;
    assert forall bs | Splits(s, bs, []) :: Hears(s).ending == PeerClosed;
  }

  /** And after whole PDUs an INSERT announcing 65468 bytes makes it spin. */
  lemma SpinningHeard(bs: seq<Bytes>, rest: Bytes)
    requires AllWhole(bs) && Oversized(rest) && Value16(rest[1], rest[2]) == 65468
    ensures Hears(Flatten(bs) + rest) == Heard(Meant(bs), Spinning)
  {
    WholesThen(bs, rest);
    SpinsAtOnce(rest);
    assert Meant(bs) + [] == Meant(bs);
  }

  lemma SpinsAtOnce(rest: Bytes)
    requires Oversized(rest) && Value16(rest[1], rest[2]) == 65468
    ensures Hears(rest) == Heard([], Spinning)
  {
    SpinsIff(rest);
  }

  function TailEnding(rest: Bytes): (e: Ending) {
    if rest == [] then PeerClosed else if Unknown(rest) then NullRead else Starved
  }

  lemma SplitHeard(s: Bytes, bs: seq<Bytes>, rest: Bytes)
    requires Splits(s, bs, rest) && (rest == [] || Unknown(rest) || Partial(rest))
    ensures Hears(s) == Heard(Meant(bs), TailEnding(rest))
  {
    WholesThen(bs, rest);
    TailHeard(rest);
    assert Meant(bs) + [] == Meant(bs);
  }

  // ---- Messages ----

  /** What a message says to its receiver: no spare header byte, and no more of a name than is sent. */
  function Essence(m: Message): (e: Message)
    requires Buildable(m)
    ensures Buildable(e)
  {
    match m
    case KernelMsg(_, body) => KernelMsg(0, body)
    case JoinMsg(name) => JoinMsg(if |name| <= MAXMESSLEN then name else name[..MAXMESSLEN + 1])
    case _ => m
  }

  lemma ArrivalDetermines(m: Message, k: Message)
    requires Fits(m) && Fits(k) && Arrival(m) == Arrival(k)
    ensures Essence(m) == Essence(k)
  {
    match m
    case InsertMsg(key, data) =>
      InsertDetermines(key, data, k.key, k.data);
    case GetMsg(key) => KeyDetermines([GET, 0, 0, 0], key, k.key);
    case DeleteMsg(key) => KeyDetermines([DELETE, 0, 0, 0], key, k.key);
    case JoinMsg(name) => NameDetermines(name, k.name);
    case _ =>
  }

  lemma KeyDetermines(header: Bytes, j: Bytes, k: Bytes)
    requires KeyString(j) && KeyString(k) && header + Pad(j, KEY_SIZE) == header + Pad(k, KEY_SIZE)
    ensures j == k
  {
    assert (header + Pad(j, KEY_SIZE))[|header|..] == Pad(j, KEY_SIZE);
    assert (header + Pad(k, KEY_SIZE))[|header|..] == Pad(k, KEY_SIZE);
    PadInjective(j, k, KEY_SIZE);
  }

  lemma InsertDetermines(j: Bytes, d: Bytes, k: Bytes, e: Bytes)
    requires Fits(InsertMsg(j, d)) && Fits(InsertMsg(k, e)) && Encode(InsertMsg(j, d)) == Encode(InsertMsg(k, e))
    ensures j == k && d == e
  {
    var x, y := Encode(InsertMsg(j, d)), Encode(InsertMsg(k, e));
    assert x[HEADERSIZE..PREFIX] == Pad(j, KEY_SIZE) && x[PREFIX..] == d;
    assert y[HEADERSIZE..PREFIX] == Pad(k, KEY_SIZE) && y[PREFIX..] == e;
    PadInjective(j, k, KEY_SIZE);
  }

  lemma NameDetermines(x: Bytes, y: Bytes)
    requires NUL !in x && NUL !in y && JoinBody(x) == JoinBody(y)
    ensures Essence(JoinMsg(x)) == Essence(JoinMsg(y))
  {
    NameBody(x);
    NameBody(y);
    var b, c := JoinBody(x), JoinBody(y);
    assert b[|b| - 1] == c[|c| - 1];
    assert |x| <= MAXMESSLEN <==> |y| <= MAXMESSLEN;
    assert |x| <= MAXMESSLEN ==> x == b[..|b| - 1] && y == c[..|c| - 1];
  }

  lemma NameBody(x: Bytes)
    requires NUL !in x
    ensures JoinBody(x) == if |x| <= MAXMESSLEN then x + [NUL] else x[..MAXMESSLEN + 1]
    ensures |x| <= MAXMESSLEN <==> JoinBody(x)[|JoinBody(x)| - 1] == NUL
  {
  }

  function Essences(ms: seq<Message>): (es: seq<Message>)
    requires AllFit(ms)
  {
    if ms == [] then [] else assert Fits(ms[0]); [Essence(ms[0])] + Essences(ms[1..])
  }

  lemma {:induction false} ArrivalsDetermine(ms: seq<Message>, ns: seq<Message>)
    requires AllFit(ms) && AllFit(ns) && Arrivals(ms) == Arrivals(ns)
    ensures Essences(ms) == Essences(ns)
  {
    if ms != [] {
      assert Fits(ms[0]) && Fits(ns[0]);
      assert Arrivals(ms)[0] == Arrivals(ns)[0];
      assert Arrivals(ms)[1..] == Arrivals(ms[1..]) && Arrivals(ns)[1..] == Arrivals(ns[1..]);
      ArrivalDetermines(ms[0], ns[0]);
      ArrivalsDetermine(ms[1..], ns[1..]);
    }
  }

  /** A stream has one reading: two message sequences that are sent as the same bytes say the same. */
  lemma FramingUnambiguous(ms: seq<Message>, ns: seq<Message>)
    requires AllFit(ms) && AllFit(ns) && SentAll(ms) == SentAll(ns)
    ensures Essences(ms) == Essences(ns)
  {
    FramingRoundTrip(ms);
    FramingRoundTrip(ns);
    ArrivalsDetermine(ms, ns);
  }
}
