/** The PDU wire format: the client's buffer builders and the server's framing of a byte stream. */
module Wire {
  import opened CString

  const HEADERSIZE: nat := 4
  const KEY_SIZE: nat := 64
  const MAXMESSLEN: nat := 50
  const PREFIX: nat := 68  // HEADERSIZE + KEY_SIZE

  const INIT: Byte := 11
  const INSERT: Byte := 12
  const GET: Byte := 13
  const DELETE: Byte := 14
  const KERNEL: Byte := 15
  const JOIN: Byte := 17
  const QUIT: Byte := 18

  /** A uint16_t copied byte by byte on a little-endian machine. */
  function LE16(n: nat): (b: Bytes)
    requires n < 0x1_0000
    ensures |b| == 2 && Value16(b[0], b[1]) == n
  {
    [n % 256, n / 256]
  }

  function Value16(lo: Byte, hi: Byte): (n: nat)
    ensures n < 0x1_0000
  {
    lo + 256 * hi
  }

  /** A message as its sender holds it. `key` is the C string in the sender's key field, `pad` the
      header byte the kernel never writes. */
  datatype Message =
    | InitMsg
    | InsertMsg(key: Bytes, data: Bytes)
    | GetMsg(key: Bytes)
    | DeleteMsg(key: Bytes)
    | KernelMsg(pad: Byte, body: Bytes)
    | JoinMsg(name: Bytes)
    | QuitMsg

  predicate KeyString(key: Bytes) {
    NUL !in key && |key| < KEY_SIZE
  }

  /** What the builders need in order not to run past their buffers. */
  predicate Buildable(m: Message) {
    match m
    case InsertMsg(key, data) => KeyString(key) && |data| < 0x1_0000
    case GetMsg(key) => KeyString(key)
    case DeleteMsg(key) => KeyString(key)
    case KernelMsg(_, body) => |body| < 0x1_0000
    case JoinMsg(name) => NUL !in name
    case _ => true
  }

  function JoinBody(name: Bytes): (b: Bytes)
    ensures 0 < |b| <= MAXMESSLEN + 1
  {
    (name + [NUL])[..(if |name| < MAXMESSLEN then |name| else MAXMESSLEN) + 1]
  }

  function Encode(m: Message): (b: Bytes)
    requires Buildable(m)
    ensures |b| >= HEADERSIZE
  {
    match m
    case InitMsg => [INIT, 0, 0, 0]
    case InsertMsg(key, data) => [INSERT] + LE16(|data|) + [0] + Pad(key, KEY_SIZE) + data
    case GetMsg(key) => [GET, 0, 0, 0] + Pad(key, KEY_SIZE)
    case DeleteMsg(key) => [DELETE, 0, 0, 0] + Pad(key, KEY_SIZE)
    case KernelMsg(pad, body) => [KERNEL] + LE16(|body|) + [pad] + body
    case JoinMsg(name) => [JOIN] + LE16(|JoinBody(name)|) + [0] + JoinBody(name)
    case QuitMsg => [QUIT, 0, 0, 0]
  }

  /** send() is given PDU_struct.data_bytes, a uint16_t: the length of the encoding modulo 2^16. */
  function Sent(m: Message): (b: Bytes)
    requires Buildable(m)
  {
    var b := Encode(m);
    b[..|b| % 0x1_0000]
  }

  // ---- Builders: buffers filled in place ----

  method Memcpy(dst: array<Byte>, off: nat, src: Bytes)
    requires off + |src| <= dst.Length
    modifies dst
    ensures dst[..] == Overlay(old(dst[..]), off, src)
  {
    for i := 0 to |src|
      invariant dst[..] == Overlay(old(dst[..]), off, src[..i])
    {
      dst[off + i] := src[i];
      assert src[..i + 1] == src[..i] + [src[i]];
    }
    assert src[..|src|] == src;
  }

  /** create_INSERT_to_server with create_INSERT_buffer; `key` is the caller's buffer, whose bytes past
      the first NUL are whatever happened to be there. */
  method CreateInsert(key: Bytes, data: Bytes) returns (buf: array<Byte>)
    requires |CStr(key)| < KEY_SIZE <= |key| && |data| < 0x1_0000
    ensures fresh(buf) && buf[..] == Encode(InsertMsg(CStr(key), data))
  {
    var field := key[..KEY_SIZE];
    CStrOfPrefix(key, KEY_SIZE);
    var k := CStr(field);
    var total := |data| + PREFIX;
    var n := |data|;
    buf := new Byte[total](_ => 0);
    PutHeader(buf, INSERT, n);
    ghost var header := [INSERT] + LE16(n) + [0];
    OverlayZeros(header, total - HEADERSIZE, k);
    Memcpy(buf, HEADERSIZE, k);
    KeyLayout(header, k, n);
    OverlayZeros(header + Pad(k, KEY_SIZE), n, data);
    Memcpy(buf, PREFIX, data);
    Trailing(header + Pad(k, KEY_SIZE) + data);
  }

  /** Op code and length into a zeroed buffer. */
  method PutHeader(buf: array<Byte>, op: Byte, n: nat)
    requires buf.Length >= HEADERSIZE && n < 0x1_0000 && buf[..] == Zeros(buf.Length)
    modifies buf
    ensures buf[..] == [op] + LE16(n) + [0] + Zeros(buf.Length - HEADERSIZE)
  {
    var total := buf.Length;
    assert buf[..] == [] + Zeros(total);
    OverlayZeros([], total, [op]);
    Memcpy(buf, 0, [op]);
    assert buf[..] == [op] + Zeros(total - 1);
    OverlayZeros([op], total - 1, LE16(n));
    Memcpy(buf, 1, LE16(n));
    HeaderLayout([op] + LE16(n), total - 3);
  }

  lemma Trailing(b: Bytes)
    ensures b + Zeros(0) == b
  {}

  /** Writing at the end of the part already written. */
  lemma OverlayZeros(done: Bytes, n: nat, src: Bytes)
    requires |src| <= n
    ensures Overlay(done + Zeros(n), |done|, src) == done + src + Zeros(n - |src|)
  {}

  lemma HeaderLayout(start: Bytes, n: nat)
    requires n > 0
    ensures start + Zeros(n) == start + [0] + Zeros(n - 1)
  {}

  lemma KeyLayout(header: Bytes, k: Bytes, n: nat)
    requires |k| <= KEY_SIZE
    ensures header + k + Zeros(KEY_SIZE + n - |k|) == header + Pad(k, KEY_SIZE) + Zeros(n)
  {}

  /** create_GET_to_server and create_DELETE_to_server, which differ only in the op code. */
  method CreateKeyed(op: Byte, key: Bytes) returns (buf: array<Byte>)
    requires op == GET || op == DELETE
    requires |CStr(key)| < KEY_SIZE <= |key|
    ensures fresh(buf)
    ensures op == GET ==> buf[..] == Encode(GetMsg(CStr(key)))
    ensures op == DELETE ==> buf[..] == Encode(DeleteMsg(CStr(key)))
  {
    var field := key[..KEY_SIZE];
    CStrOfPrefix(key, KEY_SIZE);
    buf := new Byte[PREFIX](_ => 0);
    Memcpy(buf, 0, [op]);
    assert buf[..] == [op, 0, 0, 0] + Zeros(KEY_SIZE);
    Memcpy(buf, HEADERSIZE, CStr(field));
    assert buf[..] == [op, 0, 0, 0] + Pad(CStr(field), KEY_SIZE);
  }

  /** setupJOINPDU. */
  method CreateJoin(name: Bytes) returns (buf: array<Byte>)
    requires NUL !in name
    ensures fresh(buf) && buf[..] == Encode(JoinMsg(name))
  {
    var body := JoinBody(name);
    buf := new Byte[HEADERSIZE + |body|](_ => 0);
    PutHeader(buf, JOIN, |body|);
    OverlayZeros([JOIN] + LE16(|body|) + [0], |body|, body);
    Memcpy(buf, HEADERSIZE, body);
    Trailing([JOIN] + LE16(|body|) + [0] + body);
  }

  // ---- Framing ----

  /** A PDU as the receiver holds it: the whole message for requests, the body for KERNEL and JOIN. */
  datatype Pdu = Pdu(op: Byte, data: Bytes)

  /** Outcome of one receive_pdu: the peer closed, the call waits for more bytes, the op code is
      unknown, or one PDU was taken from the stream. */
  datatype Received = Closed | Blocked | Invalid(op: Byte) | Got(pdu: Pdu, rest: Bytes)

  function TakeWhole(s: Bytes, n: nat): (r: Received)
    requires s != []
  {
    if |s| < n then Blocked else Got(Pdu(s[0], s[..n]), s[n..])
  }

  function TakeBody(s: Bytes, n: nat): (r: Received)
    requires |s| >= HEADERSIZE
  {
    if |s| < HEADERSIZE + n then Blocked
    else Got(Pdu(s[0], s[HEADERSIZE..HEADERSIZE + n]), s[HEADERSIZE + n..])
  }

  function Receive(s: Bytes): (r: Received)
  {
    if s == [] then Closed
    else if |s| < HEADERSIZE then Blocked
    else if s[0] == INIT then TakeWhole(s, HEADERSIZE)
    else if s[0] == INSERT then TakeWhole(s, (Value16(s[1], s[2]) + PREFIX) % 0x1_0000)
    else if s[0] == GET || s[0] == DELETE then TakeWhole(s, PREFIX)
    else if s[0] == KERNEL || s[0] == JOIN then TakeBody(s, Value16(s[1], s[2]))
    else if s[0] == QUIT then TakeBody(s, 0)
    else Invalid(s[0])
  }

  /** A connected socket; the stream holds every byte the peer will ever send. */
  class Socket {
    var stream: Bytes

    /** recv of n bytes, delivering all n. */
    method Recv(n: nat) returns (b: Bytes)
      requires n <= |stream|
      modifies this
      ensures b == old(stream)[..n] && stream == old(stream)[n..]
    {
      b := stream[..n];
      stream := stream[n..];
    }

    /** read_INIT, read_GET, read_DELETE, and the second half of read_INSERT. */
    method ReadWhole(op: Byte, n: nat) returns (r: Received)
      requires stream != [] && op == stream[0]
      modifies this
      ensures r == TakeWhole(old(stream), n)
      ensures r.Got? ==> stream == r.rest
    {
      if |stream| < n { return Blocked; }
      var pdu := Recv(n);
      return Got(Pdu(op, pdu), stream);
    }

    /** read_KERNEL and read_JOIN: the header first, then as many bytes as it announces. */
    method ReadHeaderThenBody() returns (r: Received)
      requires |stream| >= HEADERSIZE
      modifies this
      ensures r == TakeBody(old(stream), Value16(old(stream)[1], old(stream)[2]))
      ensures r.Got? ==> stream == r.rest
    {
      var header := Recv(HEADERSIZE);
      var n := Value16(header[1], header[2]);
      if |stream| < n { return Blocked; }
      var body := Recv(n);
      return Got(Pdu(header[0], body), stream);
    }

    /** receive_pdu with read_exactly. */
    method ReceivePdu() returns (r: Received)
      modifies this
      ensures r == Receive(old(stream))
      ensures r.Got? ==> stream == r.rest
      ensures r.Closed? || r.Invalid? ==> stream == old(stream)
    {
      if stream == [] { return Closed; }
      if |stream| < HEADERSIZE { return Blocked; }
      var op := stream[0];
      if op == INIT {
        r := ReadWhole(op, HEADERSIZE);
      } else if op == INSERT {
        var total := (Value16(stream[1], stream[2]) + PREFIX) % 0x1_0000;
        r := ReadWhole(op, total);
      } else if op == GET || op == DELETE {
        r := ReadWhole(op, PREFIX);
      } else if op == KERNEL || op == JOIN {
        r := ReadHeaderThenBody();
      } else if op == QUIT {
        var header := Recv(HEADERSIZE);
        r := Got(Pdu(op, []), stream);
      } else {
        r := Invalid(op);
      }
    }
  }

  /** The PDU a receiver should end up with for a message. */
  function Arrival(m: Message): (p: Pdu)
    requires Buildable(m)
  {
    match m
    case KernelMsg(_, body) => Pdu(KERNEL, body)
    case JoinMsg(name) => Pdu(JOIN, JoinBody(name))
    case QuitMsg => Pdu(QUIT, [])
    case _ => Pdu(Encode(m)[0], Encode(m))
  }

  /** Messages whose length the 16-bit length fields can hold. */
  predicate Fits(m: Message) {
    Buildable(m) && |Encode(m)| < 0x1_0000
  }

  predicate AllFit(ms: seq<Message>) {
    forall i | 0 <= i < |ms| :: Fits(ms[i])
  }

  lemma NoWrap(n: nat)
    requires n < 0x1_0000
    ensures n % 0x1_0000 == n
  {}

  lemma SentWhole(m: Message)
    requires Fits(m)
    ensures Sent(m) == Encode(m) && |Encode(m)| >= HEADERSIZE
  {
    var b := Encode(m);
    NoWrap(|b|);
    assert b[..|b|] == b;
  }

  lemma ReceiveOne(m: Message, rest: Bytes)
    requires Fits(m)
    ensures Receive(Sent(m) + rest) == Got(Arrival(m), rest)
  {
    var b := Encode(m);
    SentWhole(m);
    match m
    case InsertMsg(_, _) => ReceiveInsert(m, rest);
    case KernelMsg(pad, body) => BodyTaken(b[..HEADERSIZE], body, rest);
    case JoinMsg(name) => BodyTaken(b[..HEADERSIZE], JoinBody(name), rest);
    case QuitMsg => BodyTaken(b, [], rest);
    case _ => WholeTaken(b, rest);
  }

  lemma ReceiveInsert(m: Message, rest: Bytes)
    requires m.InsertMsg? && Fits(m)
    ensures Receive(Encode(m) + rest) == Got(Arrival(m), rest)
  {
    var b := Encode(m);
    var s := b + rest;
    assert s[0] == INSERT && s[1] == b[1] == LE16(|m.data|)[0] && s[2] == b[2] == LE16(|m.data|)[1];
    assert |b| == PREFIX + |m.data|;
    WholeTaken(b, rest);
  }

  lemma WholeTaken(b: Bytes, rest: Bytes)
    requires b != []
    ensures (b + rest)[0] == b[0]
    ensures TakeWhole(b + rest, |b|) == Got(Pdu(b[0], b), rest)
  {
    assert (b + rest)[..|b|] == b && (b + rest)[|b|..] == rest;
  }

  lemma BodyTaken(header: Bytes, body: Bytes, rest: Bytes)
    requires |header| == HEADERSIZE
    ensures TakeBody(header + body + rest, |body|) == Got(Pdu(header[0], body), rest)
  {
    var s := header + body + rest;
    assert s[HEADERSIZE..HEADERSIZE + |body|] == body && s[HEADERSIZE + |body|..] == rest;
  }

  /** An INSERT arrives whole exactly when its value has at most 65467 bytes: beyond that the 16-bit
      PDU length wraps on both sides of the socket. */
  lemma InsertArrivesIff(key: Bytes, data: Bytes, rest: Bytes)
    requires Buildable(InsertMsg(key, data))
    ensures Receive(Sent(InsertMsg(key, data)) + rest) == Got(Arrival(InsertMsg(key, data)), rest)
            <==> |data| <= 65467
  {
    var m := InsertMsg(key, data);
    if |data| <= 65467 {
      ReceiveOne(m, rest);
    } else {
      assert |Sent(m)| == |data| + PREFIX - 0x1_0000;
      if Receive(Sent(m) + rest) == Got(Arrival(m), rest) {
        TakenLength(Sent(m) + rest);
      }
    }
  }

  lemma TakenLength(s: Bytes)
    ensures var r := Receive(s);
            r.Got? && r.pdu.op in {INIT, INSERT, GET, DELETE} ==> |r.pdu.data| + |r.rest| == |s|
  {}

  function SentAll(ms: seq<Message>): (s: Bytes)
    requires AllFit(ms)
  {
    if ms == [] then [] else Sent(ms[0]) + SentAll(ms[1..])
  }

  function Arrivals(ms: seq<Message>): (ps: seq<Pdu>)
    requires AllFit(ms)
  {
    if ms == [] then [] else [Arrival(ms[0])] + Arrivals(ms[1..])
  }

  /** Streams that receive_pdu can consume to the end, each call making progress. */
  predicate Clean(s: Bytes)
    decreases |s|
  {
    match Receive(s)
    case Closed => true
    case Got(_, rest) => |rest| < |s| && Clean(rest)
    case _ => false
  }

  /** The PDUs successive receive_pdu calls return on a clean stream. */
  function Pdus(s: Bytes): (ps: seq<Pdu>)
    requires Clean(s)
    decreases |s|
  {
    match Receive(s)
    case Closed => []
    case Got(pdu, rest) => [pdu] + Pdus(rest)
  }

  lemma PdusStep(s: Bytes, pdu: Pdu, rest: Bytes)
    requires Receive(s) == Got(pdu, rest) && |rest| < |s|
    ensures Clean(s) <==> Clean(rest)
    ensures Clean(s) ==> Pdus(s) == [pdu] + Pdus(rest)
  {}

  /** Framing: however many messages of whatever kinds are sent back to back, the receiver gets
      exactly those messages, in order, and consumes the stream exactly. */
  lemma {:induction false} FramingRoundTrip(ms: seq<Message>)
    requires AllFit(ms)
    ensures Clean(SentAll(ms)) && Pdus(SentAll(ms)) == Arrivals(ms)
  {
    if ms != [] {
      var rest := SentAll(ms[1..]);
      FramingRoundTrip(ms[1..]);
      assert Fits(ms[0]);
      ReceiveOne(ms[0], rest);
      SentWhole(ms[0]);
      PdusStep(Sent(ms[0]) + rest, Arrival(ms[0]), rest);
    }
  }

  /** client_listener queues everything but JOIN and QUIT. */
  function Kept(p: Pdu): (q: seq<Bytes>) {
    if p.op == JOIN || p.op == QUIT then [] else [p.data]
  }

  function Queued(ps: seq<Pdu>): (qs: seq<Bytes>) {
    if ps == [] then [] else Kept(ps[0]) + Queued(ps[1..])
  }

  lemma QueuedStep(p: Pdu, ps: seq<Pdu>)
    ensures Queued([p] + ps) == Kept(p) + Queued(ps)
  {
    assert ([p] + ps)[1..] == ps;
  }

  /** How the loop of client_listener ends: the peer closed, it waits for bytes that never come, receive_pdu
      returned NULL for an unknown op code and the loop reads through it, or a PDU of length 0 is taken
      again and again without consuming anything. */
  datatype Ending = PeerClosed | Starved | NullRead | Spinning

  datatype Heard = Heard(queue: seq<Bytes>, ending: Ending)

  /** What the loop queues off any stream at all, and how it ends. */
  function Hears(s: Bytes): (h: Heard)
    decreases |s|
  {
    match Receive(s)
    case Closed => Heard([], PeerClosed)
    case Blocked => Heard([], Starved)
    case Invalid(_) => Heard([], NullRead)
    case Got(pdu, rest) =>
      if |rest| >= |s| then Heard([], Spinning)
      else Heard(Kept(pdu) + Hears(rest).queue, Hears(rest).ending)
  }

  /** The loop runs to the peer's closing exactly on the clean streams, and there it queues their requests. */
  lemma {:induction false} HearsClean(s: Bytes)
    ensures Hears(s).ending == PeerClosed <==> Clean(s)
    ensures Clean(s) ==> Hears(s).queue == Queued(Pdus(s))
    decreases |s|
  {
    var r := Receive(s);
    if r.Got? && |r.rest| < |s| {
      HearsClean(r.rest);
      PdusStep(s, r.pdu, r.rest);
      if Clean(s) {
        QueuedStep(r.pdu, Pdus(r.rest));
      }
    }
  }

  /** It can only spin on an INSERT announcing 65468 data bytes, whose total length wraps to 0. */
  lemma SpinsIff(s: Bytes)
    ensures Receive(s).Got? && |Receive(s).rest| >= |s|
            <==> |s| >= HEADERSIZE && s[0] == INSERT && Value16(s[1], s[2]) == 65468
  {
  }

  lemma HearsStep(s: Bytes, pdu: Pdu, rest: Bytes)
    requires Receive(s) == Got(pdu, rest) && |rest| < |s|
    ensures Hears(s) == Heard(Kept(pdu) + Hears(rest).queue, Hears(rest).ending)
  {
  }

  lemma Requeued(q: seq<Bytes>, kept: seq<Bytes>, more: seq<Bytes>)
    ensures q + (kept + more) == q + kept + more
  {
  }

  /** The loop of client_listener, on every stream; a loop that spins is left when it starts to. */
  method ClientListener(sock: Socket, senderList: seq<Bytes>) returns (queue: seq<Bytes>, ending: Ending)
    modifies sock
    ensures queue == senderList + Hears(old(sock.stream)).queue
    ensures ending == Hears(old(sock.stream)).ending
    ensures ending == PeerClosed ==> sock.stream == []
  {
    queue := senderList;
    while true
      invariant Hears(sock.stream).ending == Hears(old(sock.stream)).ending
      invariant queue + Hears(sock.stream).queue == senderList + Hears(old(sock.stream)).queue
      decreases |sock.stream|
    {
      ghost var before := sock.stream;
      var left := |sock.stream|;
      var r := sock.ReceivePdu();
      if r.Got? && |r.rest| < left {
        HearsStep(before, r.pdu, r.rest);
        Requeued(queue, Kept(r.pdu), Hears(r.rest).queue);
        if r.pdu.op != QUIT && r.pdu.op != JOIN {
          queue := queue + [r.pdu.data];
        } else {
          assert queue + [] == queue;
        }
      } else {
        assert Hears(before).queue == [] && queue + [] == queue;
        match r
        case Closed => return queue, PeerClosed;
        case Blocked => return queue, Starved;
        case Invalid(_) => return queue, NullRead;
        case Got(_, _) => return queue, Spinning;
      }
    }
  }
}
