/** The kernel module: decoding a netlink payload and serving it from the hash table. */
module Kernel {
  import opened CString
  import opened Wire

  const MAX_PAYLOAD: nat := 1024

  function Ascii(s: string): (b: Bytes)
    ensures |b| == |s|
  {
    seq(|s|, i requires 0 <= i < |s| => (s[i] as int) % 256)
  }

  /** A reply text with the terminating NUL that strnlen(...) + 1 counts in. */
  function Text(s: string): (b: Bytes)
    ensures |b| == |s| + 1
  {
    Ascii(s) + [NUL]
  }

  const DELETED: string := "Successful deleting object from rhashtable."

  /** strncmp(reply, "Error", 5) == 0, the test store_data makes. */
  predicate IsError(reply: Bytes) {
    |reply| >= 5 && reply[..5] == Ascii("Error")
  }

  datatype Request =
    | Init
    | Insert(key: Bytes, data: Bytes)
    | Get(key: Bytes)
    | Delete(key: Bytes)
    | Unknown(op: Byte)

  // ---- Decoding ----

  /** The key copied out of a request: strlen bytes into a zeroed 65-byte array whose last byte is then
      cleared; the table compares its first 64 bytes. None when the copy overruns the array. */
  function KeyOf(payload: Bytes): (k: Option<Bytes>)
    requires |payload| == MAX_PAYLOAD
    ensures k.Some? ==> |k.value| == KEY_SIZE
  {
    var s := payload[HEADERSIZE..];
    var n := Find(s, NUL);
    if n > KEY_SIZE + 1 then None else Some(Pad(s[..n], KEY_SIZE + 1)[..KEY_SIZE])
  }

  /** read_exactly_from_user's reading of the payload; None when it would leave its buffers. */
  function Decode(payload: Bytes): (r: Option<Request>)
    requires |payload| == MAX_PAYLOAD
  {
    var op := payload[0];
    if op == INIT then Some(Init)
    else if op == INSERT then
      var n := Value16(payload[1], payload[2]);
      if KeyOf(payload) == None || PREFIX + n > MAX_PAYLOAD then None
      else Some(Insert(KeyOf(payload).value, payload[PREFIX..PREFIX + n]))
    else if op == GET then
      if KeyOf(payload) == None then None else Some(Get(KeyOf(payload).value))
    else if op == DELETE then
      if KeyOf(payload) == None then None else Some(Delete(KeyOf(payload).value))
    else Some(Unknown(op))
  }

  /** A PDU of the kind receive_pdu queues: complete, and small enough for the netlink buffer. */
  predicate WholeRequest(m: Bytes) {
    && HEADERSIZE <= |m| <= MAX_PAYLOAD
    && (m[0] == INIT ==> |m| == HEADERSIZE)
    && (m[0] == GET || m[0] == DELETE ==> |m| == PREFIX)
    && (m[0] == INSERT ==> |m| == PREFIX + Value16(m[1], m[2]))
    && m[0] in {INIT, GET, DELETE, INSERT}
  }

  predicate KeyTerminated(m: Bytes)
    requires WholeRequest(m)
  {
    m[0] != INIT ==> NUL in m[HEADERSIZE..PREFIX]
  }

  /** The request a terminated PDU stands for. */
  function RequestOf(m: Bytes): (r: Request)
    requires WholeRequest(m) && KeyTerminated(m)
  {
    if m[0] == INIT then Init
    else
      var key := Pad(CStr(m[HEADERSIZE..PREFIX]), KEY_SIZE);
      if m[0] == INSERT then Insert(key, m[PREFIX..])
      else if m[0] == GET then Get(key)
      else Delete(key)
  }

  /** What the kernel makes of a client's INSERT. */
  lemma InsertPdu(key: Bytes, data: Bytes)
    requires KeyString(key) && PREFIX + |data| <= MAX_PAYLOAD
    ensures var m := Encode(InsertMsg(key, data));
      && |m| == PREFIX + |data| && m[HEADERSIZE..PREFIX] == Pad(key, KEY_SIZE) && m[PREFIX..] == data
      && WholeRequest(m) && KeyTerminated(m) && RequestOf(m) == Insert(Pad(key, KEY_SIZE), data)
  {
    var m := Encode(InsertMsg(key, data));
    assert m[1..3] == LE16(|data|);
    assert m[HEADERSIZE..PREFIX] == Pad(key, KEY_SIZE);
    assert m[PREFIX..] == data;
    assert Pad(key, KEY_SIZE)[|key|] == NUL;
    PadThenCStr(key, KEY_SIZE);
  }

  /** What the kernel makes of a client's GET and DELETE. */
  lemma KeyedPdu(key: Bytes)
    requires KeyString(key)
    ensures var m := Encode(GetMsg(key));
      && |m| == PREFIX && m[HEADERSIZE..PREFIX] == Pad(key, KEY_SIZE)
      && WholeRequest(m) && KeyTerminated(m) && RequestOf(m) == Get(Pad(key, KEY_SIZE))
    ensures var m := Encode(DeleteMsg(key));
      && |m| == PREFIX && m[HEADERSIZE..PREFIX] == Pad(key, KEY_SIZE)
      && WholeRequest(m) && KeyTerminated(m) && RequestOf(m) == Delete(Pad(key, KEY_SIZE))
  {
    var g, d := Encode(GetMsg(key)), Encode(DeleteMsg(key));
    assert g[HEADERSIZE..PREFIX] == Pad(key, KEY_SIZE);
    assert d[HEADERSIZE..PREFIX] == Pad(key, KEY_SIZE);
    assert Pad(key, KEY_SIZE)[|key|] == NUL;
    PadThenCStr(key, KEY_SIZE);
  }

  /** The netlink send buffer is never cleared, yet the kernel reads the same request out of it
      whatever an earlier, longer request left behind. */
  lemma StaleBytesIrrelevant(stale: Bytes, m: Bytes)
    requires |stale| == MAX_PAYLOAD && WholeRequest(m) && KeyTerminated(m)
    ensures Decode(Overlay(stale, 0, m)) == Some(RequestOf(m))
  {
    var p := Overlay(stale, 0, m);
    OverlayFront(stale, m);
    if m[0] != INIT {
      SameSlice(p, m, HEADERSIZE, PREFIX);
      SameSlice(p, m, PREFIX, |m|);
      SplitKey(p);
      KeyOfField(p, m[HEADERSIZE..PREFIX]);
    }
  }

  lemma SameSlice(p: Bytes, m: Bytes, i: nat, j: nat)
    requires |m| <= |p| && p[..|m|] == m && i <= j <= |m|
    ensures p[i..j] == m[i..j] && p[i..|m|] == m[i..]
  {
    assert forall k | 0 <= k < |m| :: p[k] == p[..|m|][k];
  }

  lemma SplitKey(p: Bytes)
    requires |p| >= PREFIX
    ensures p[HEADERSIZE..] == p[HEADERSIZE..PREFIX] + p[PREFIX..]
  {}

  lemma KeyOfField(p: Bytes, field: Bytes)
    requires |p| == MAX_PAYLOAD && |field| == KEY_SIZE && NUL in field
    requires p[HEADERSIZE..] == field + p[PREFIX..]
    ensures KeyOf(p) == Some(Pad(CStr(field), KEY_SIZE))
  {
    CStrExtends(field, p[PREFIX..]);
    assert p[HEADERSIZE..][..Find(field, NUL)] == CStr(field);
    assert Pad(CStr(field), KEY_SIZE + 1)[..KEY_SIZE] == Pad(CStr(field), KEY_SIZE);
  }

  /** That is exactly the requests without a key, those with a NUL somewhere after the header, and the
      INSERTs long enough to overrun the key array on their own: any other key ends where the leftovers
      happen to have a NUL. */
  lemma StaleBytesIrrelevantIff(m: Bytes)
    requires WholeRequest(m)
    ensures (forall stale: Bytes | |stale| == MAX_PAYLOAD ::
               Decode(Overlay(stale, 0, m)) == Decode(Pad(m, MAX_PAYLOAD)))
            <==> m[0] == INIT || NUL in m[HEADERSIZE..] || |m| >= PREFIX + 2
  {
    var zeros := Zeros(MAX_PAYLOAD);
    assert Overlay(zeros, 0, m) == Pad(m, MAX_PAYLOAD);
    if m[0] == INIT || NUL in m[HEADERSIZE..] || |m| >= PREFIX + 2 {
      forall stale: Bytes | |stale| == MAX_PAYLOAD
        ensures Decode(Overlay(stale, 0, m)) == Decode(Pad(m, MAX_PAYLOAD))
      {
        SameDecoding(stale, zeros, m);
      }
    } else {
      LeftoversDecide(m);
    }
  }

  lemma SameDecoding(stale: Bytes, stale': Bytes, m: Bytes)
    requires |stale| == |stale'| == MAX_PAYLOAD && WholeRequest(m)
    requires m[0] == INIT || NUL in m[HEADERSIZE..] || |m| >= PREFIX + 2
    ensures Decode(Overlay(stale, 0, m)) == Decode(Overlay(stale', 0, m))
  {
    var p, p' := Overlay(stale, 0, m), Overlay(stale', 0, m);
    OverlayFront(stale, m);
    OverlayFront(stale', m);
    assert p[0] == m[0] == p'[0] && p[1] == m[1] == p'[1] && p[2] == m[2] == p'[2];
    if m[0] != INIT {
      SameKey(p, m);
      SameKey(p', m);
      SameSlice(p, m, PREFIX, |m|);
      SameSlice(p', m, PREFIX, |m|);
    }
  }

  /** The key as the request alone determines it. */
  function OwnKey(tail: Bytes): (k: Option<Bytes>) {
    if NUL !in tail || |CStr(tail)| > KEY_SIZE + 1 then None else Some(Pad(CStr(tail), KEY_SIZE + 1)[..KEY_SIZE])
  }

  lemma SameKey(p: Bytes, m: Bytes)
    requires |p| == MAX_PAYLOAD && WholeRequest(m) && m[0] != INIT && p[..|m|] == m
    requires NUL in m[HEADERSIZE..] || |m| >= PREFIX + 2
    ensures KeyOf(p) == OwnKey(m[HEADERSIZE..])
  {
    var tail, s := m[HEADERSIZE..], p[HEADERSIZE..];
    assert s == tail + p[|m|..];
    if NUL in tail {
      CStrExtends(tail, p[|m|..]);
      assert s[..Find(s, NUL)] == CStr(tail);
    } else {
      assert s[..|tail|] == tail;
      assert forall i | 0 <= i < KEY_SIZE + 2 :: s[i] == tail[i];
      assert Find(s, NUL) > KEY_SIZE + 1;
    }
  }

  /** A zeroed buffer ends the key; one full of ones makes the copy overrun its array. */
  lemma LeftoversDecide(m: Bytes)
    requires WholeRequest(m) && m[0] != INIT && NUL !in m[HEADERSIZE..] && |m| < PREFIX + 2
    ensures exists stale: Bytes ::
              |stale| == MAX_PAYLOAD && Decode(Overlay(stale, 0, m)) != Decode(Pad(m, MAX_PAYLOAD))
  {
    var ones: Bytes := seq(MAX_PAYLOAD, _ => 1);
    OnesOverrun(ones, m);
    ZerosEndTheKey(m);
  }

  lemma OnesOverrun(ones: Bytes, m: Bytes)
    requires |ones| == MAX_PAYLOAD && NUL !in ones
    requires WholeRequest(m) && m[0] != INIT && NUL !in m[HEADERSIZE..]
    ensures Decode(Overlay(ones, 0, m)) == None
  {
    var full := Overlay(ones, 0, m);
    OverlayFront(ones, m);
    var s := m[HEADERSIZE..] + ones[|m|..];
    assert full[HEADERSIZE..] == s;
    FindIs(s, NUL, |s|);
  }

  lemma OverlayFront(stale: Bytes, m: Bytes)
    requires |m| <= |stale| && |m| >= HEADERSIZE
    ensures var p := Overlay(stale, 0, m);
            p == m + stale[|m|..] && p[..|m|] == m && p[HEADERSIZE..] == m[HEADERSIZE..] + stale[|m|..]
  {
  }

  lemma PadFront(m: Bytes, n: nat)
    requires HEADERSIZE <= |m| <= n
    ensures var p := Pad(m, n);
            p == m + Zeros(n - |m|) && p[..|m|] == m && p[HEADERSIZE..] == m[HEADERSIZE..] + Zeros(n - |m|)
  {
  }

  lemma ZerosEndTheKey(m: Bytes)
    requires WholeRequest(m) && m[0] != INIT && NUL !in m[HEADERSIZE..] && |m| < PREFIX + 2
    ensures Decode(Pad(m, MAX_PAYLOAD)).Some?
  {
    var blank, tail := Pad(m, MAX_PAYLOAD), m[HEADERSIZE..];
    PadFront(m, MAX_PAYLOAD);
    EndsAtZeros(tail, MAX_PAYLOAD - |m|);
    assert KeyOf(blank).Some?;
    assert blank[0] == m[0] && blank[1] == m[1] && blank[2] == m[2];
  }

  lemma EndsAtZeros(tail: Bytes, n: nat)
    requires NUL !in tail && n > 0
    ensures Find(tail + Zeros(n), NUL) == |tail|
  {
    FindIs(tail + Zeros(n), NUL, |tail|);
  }

  // ---- Serving ----

  datatype State = State(initialized: bool, table: map<Bytes, Bytes>)

  /** Allocation and table failures, which the environment decides. */
  datatype Fault = NoFault | KmallocFails | TableFails

  datatype Outcome = Outcome(state: State, reply: Bytes)

  /** Every request but INIT dereferences the table, which INIT creates. */
  predicate Servable(k: State, r: Request) {
    r.Init? || r.Unknown? || k.initialized
  }

  function Serve(k: State, r: Request, fault: Fault): (o: Outcome)
    requires Servable(k, r)
  {
    match r
    case Init =>
      if k.initialized then Outcome(k, Text("Hashtable already initialized."))
      else Outcome(State(true, map[]), Text("Initialized hashtable."))
    case Insert(key, data) =>
      if fault == KmallocFails then Outcome(k, Text("Error when kmalloc."))
      else if key in k.table then Outcome(k, Text("Error, duplicated key."))
      else if fault == TableFails then Outcome(k, Text("Error when insert to rhashtable."))
      else Outcome(k.(table := k.table[key := data]), Text("Inserted object to rhashtable"))
    case Get(key) =>
      if key in k.table then Outcome(k, k.table[key])
      else Outcome(k, Text("Error when getting object."))
    case Delete(key) =>
      if key in k.table then
        Outcome(k.(table := k.table - {key}), Text(DELETED))
      else Outcome(k, Text("Error when getting object."))
    case Unknown(_) => Outcome(k, Text("Error wrong OP_code to kernel"))
  }

  /** The reply prefix the user side relies on: on INSERT and DELETE, "Error" marks exactly the requests
      that left the table as it was. */
  lemma ErrorMarksUnchanged(k: State, r: Request, fault: Fault)
    requires k.initialized && (r.Insert? || r.Delete?)
    ensures IsError(Serve(k, r, fault).reply) <==> Serve(k, r, fault).state == k
  {
    assert Ascii("Inserted object to rhashtable")[0] == 'I' as int;
    assert DELETED[0] == 'S';
    assert Ascii("Error")[0] == 'E' as int;
    if r.Insert? {
      var t := k.table[r.key := r.data];
      assert r.key in t.Keys;
    } else {
      var t := k.table - {r.key};
      assert r.key !in t.Keys;
    }
    ErrorTexts();
  }

  lemma ErrorTexts()
    ensures IsError(Text("Error when kmalloc."))
    ensures IsError(Text("Error, duplicated key."))
    ensures IsError(Text("Error when insert to rhashtable."))
    ensures IsError(Text("Error when getting object."))
    ensures IsError(Text("Error wrong OP_code to kernel"))
  {
    assert Text("Error wrong OP_code to kernel")[..5] == Ascii("Error");
    assert Text("Error when kmalloc.")[..5] == Ascii("Error");
    assert Text("Error, duplicated key.")[..5] == Ascii("Error");
    assert Text("Error when insert to rhashtable.")[..5] == Ascii("Error");
    assert Text("Error when getting object.")[..5] == Ascii("Error");
  }

  /** strlen of what starts at `off`. */
  method Strlen(a: array<Byte>, off: nat) returns (n: nat)
    requires off <= a.Length && NUL in a[off..]
    ensures n == Find(a[off..], NUL)
  {
    ghost var s := a[off..];
    assert exists i :: 0 <= i < |s| && s[i] == NUL;
    n := 0;
    while a[off + n] != NUL
      invariant off + n < a.Length && forall i | 0 <= i < n :: s[i] != NUL
      invariant n <= Find(s, NUL) < |s|
      decreases |s| - n
    {
      assert s[n] == a[off + n];
      n := n + 1;
    }
    assert s[n] == a[off + n];
    FindIs(s, NUL, n);
  }

  /** The key copy that opens read_INSERT_struct, read_GET_struct and read_DELETE_struct: strlen bytes into
      65 zeroed ones, the last of which is then cleared. */
  method CopyKey(request: array<Byte>) returns (key: array<Byte>)
    requires request.Length == MAX_PAYLOAD && KeyOf(request[..]).Some?
    ensures fresh(key) && key.Length == KEY_SIZE + 1 && key[KEY_SIZE] == NUL
    ensures key[..KEY_SIZE] == KeyOf(request[..]).value
  {
    key := new Byte[KEY_SIZE + 1](_ => 0);
    assert key[..] == Zeros(KEY_SIZE + 1);
    assert request[..][HEADERSIZE..] == request[HEADERSIZE..];
    var n := Strlen(request, HEADERSIZE);
    ghost var s := request[HEADERSIZE..][..n];
    assert request[HEADERSIZE..HEADERSIZE + n] == s;
    Memcpy(key, 0, request[HEADERSIZE..HEADERSIZE + n]);
    assert key[..] == Pad(s, KEY_SIZE + 1);
    key[KEY_SIZE] := 0;
    assert key[..KEY_SIZE] == Pad(s, KEY_SIZE + 1)[..KEY_SIZE];
  }

  /** A payload of the given kind that the kernel can read without leaving its buffers. */
  predicate Decodable(request: array<Byte>, op: Byte)
    reads request
  {
    request.Length == MAX_PAYLOAD && request[0] == op && Decode(request[..]).Some?
  }

  lemma ErrorMeansRefused(k: State, r: Request, fault: Fault)
    requires k.initialized && r.Insert?
    ensures Serve(k, r, fault).state == k <==> fault != NoFault || r.key in k.table
  {
    if r.key !in k.table {
      assert r.key in k.table[r.key := r.data].Keys;
    }
  }

  class Module {
    var initialized: bool
    var table: map<Bytes, Bytes>

    constructor ()
      ensures !initialized && table == map[]
    {
      initialized := false;
      table := map[];
    }

    function View(): State
      reads this
    {
      State(initialized, table)
    }

    method ReadInit() returns (reply: Bytes)
      modifies this
      ensures initialized && table == (if old(initialized) then old(table) else map[])
      ensures Outcome(View(), reply) == Serve(old(View()), Init, NoFault)
    {
      if initialized {
        return Text("Hashtable already initialized.");
      }
      table := map[];
      initialized := true;
      reply := Text("Initialized hashtable.");
    }

    /** read_INSERT_struct on the raw payload. The reply says "Error" exactly when nothing was stored; otherwise
        a key that was absent now has exactly the announced data bytes, and no other key changes. */
    method ReadInsert(request: array<Byte>, fault: Fault) returns (reply: Bytes)
      requires initialized && Decodable(request, INSERT)
      modifies this
      ensures initialized
      ensures var r := Decode(request[..]).value;
              && (IsError(reply) <==> fault != NoFault || r.key in old(table))
              && (IsError(reply) <==> table == old(table))
              && (!IsError(reply) ==> r.key in table && table[r.key] == r.data)
              && (forall k | k != r.key :: (k in table <==> k in old(table)))
              && (forall k | k in old(table) :: k in table && table[k] == old(table)[k])
      ensures Outcome(View(), reply) == Serve(old(View()), Decode(request[..]).value, fault)
    {
      ghost var r := Decode(request[..]).value;
      ErrorMarksUnchanged(View(), r, fault);
      ErrorMeansRefused(View(), r, fault);
      if fault == KmallocFails {
        return Text("Error when kmalloc.");
      }
      var n := Value16(request[1], request[2]);
      var keyArray := CopyKey(request);
      var key, data := keyArray[..KEY_SIZE], request[PREFIX..PREFIX + n];
      assert request[..][PREFIX..PREFIX + n] == data;
      if key in table {
        reply := Text("Error, duplicated key.");
      } else if fault == TableFails {
        reply := Text("Error when insert to rhashtable.");
      } else {
        table := table[key := data];
        reply := Text("Inserted object to rhashtable");
      }
    }

    /** read_GET_struct: the stored bytes, unchanged, or an "Error" reply when the key is absent. */
    method ReadGet(request: array<Byte>) returns (reply: Bytes)
      requires initialized && Decodable(request, GET)
      ensures var k := Decode(request[..]).value.key;
              if k in table then reply == table[k] else IsError(reply)
      ensures Outcome(View(), reply) == Serve(View(), Decode(request[..]).value, NoFault)
    {
      ErrorTexts();
      var keyArray := CopyKey(request);
      var key := keyArray[..KEY_SIZE];
      if key !in table {
        return Text("Error when getting object.");
      }
      reply := table[key];
    }

    /** read_DELETE_struct: afterwards the key is absent, every other key is as before, and the reply says
        "Error" exactly when it was absent already. */
    method ReadDelete(request: array<Byte>) returns (reply: Bytes)
      requires initialized && Decodable(request, DELETE)
      modifies this
      ensures initialized
      ensures var r := Decode(request[..]).value;
              && r.key !in table && (IsError(reply) <==> r.key !in old(table))
              && (IsError(reply) <==> table == old(table))
              && forall k | k != r.key :: (k in table <==> k in old(table)) && (k in table ==> table[k] == old(table)[k])
      ensures Outcome(View(), reply) == Serve(old(View()), Decode(request[..]).value, NoFault)
    {
      ErrorMarksUnchanged(View(), Decode(request[..]).value, NoFault);
      var keyArray := CopyKey(request);
      var key := keyArray[..KEY_SIZE];
      if key !in table {
        return Text("Error when getting object.");
      }
      table := table - {key};
      reply := Text(DELETED);
    }

    /** read_exactly_from_user: the raw payload in place of a decoded request. */
    method Handle(request: array<Byte>, fault: Fault) returns (reply: Bytes)
      requires request.Length == MAX_PAYLOAD && Decode(request[..]).Some?
      requires Servable(View(), Decode(request[..]).value)
      modifies this
      ensures Outcome(View(), reply) == Serve(old(View()), Decode(request[..]).value, fault)
      ensures request[0] !in {INIT, INSERT, GET, DELETE} ==> View() == old(View()) && IsError(reply)
      ensures request[0] == INIT ==> initialized && table == if old(initialized) then old(table) else map[]
      ensures request[0] == GET ==> View() == old(View())
    {
      ErrorTexts();
      var op := request[0];
      if op == INIT {
        reply := ReadInit();
      } else if op == INSERT {
        reply := ReadInsert(request, fault);
      } else if op == GET {
        reply := ReadGet(request);
      } else if op == DELETE {
        reply := ReadDelete(request);
      } else {
        reply := Text("Error wrong OP_code to kernel");
      }
    }
  }

  // ---- The reply path ----

  /** PDU_to_buffer_kernel: kmalloc'ed storage, so header byte 3 keeps whatever was in it. */
  method PduToBuffer(body: Bytes, junk: Byte) returns (buf: array<Byte>)
    requires |body| < 0x1_0000
    ensures fresh(buf) && buf[..] == Encode(KernelMsg(junk, body))
  {
    buf := new Byte[|body| + HEADERSIZE](_ => junk);
    Memcpy(buf, 0, [KERNEL]);
    assert buf[0] == KERNEL && buf[HEADERSIZE - 1] == junk;
    Memcpy(buf, 1, LE16(|body|));
    assert buf[0] == KERNEL && buf[1..3] == LE16(|body|) && buf[HEADERSIZE - 1] == junk;
    assert buf[..HEADERSIZE] == [KERNEL] + LE16(|body|) + [junk];
    Memcpy(buf, HEADERSIZE, body);
  }

  /** read_exactly_from_kernel: the header's length decides how much of the receive buffer counts. */
  function FromKernel(buf: Bytes): (pdu: Bytes)
    requires |buf| == MAX_PAYLOAD && Value16(buf[1], buf[2]) + HEADERSIZE <= MAX_PAYLOAD
  {
    buf[..Value16(buf[1], buf[2]) + HEADERSIZE]
  }

  /** The receive buffer is reused too, and again the leftovers do not matter. */
  lemma ReplyRoundTrip(stale: Bytes, pad: Byte, body: Bytes)
    requires |stale| == MAX_PAYLOAD && |body| <= MAX_PAYLOAD - HEADERSIZE
    ensures var m := Encode(KernelMsg(pad, body));
            var buf := Overlay(stale, 0, m);
            Value16(buf[1], buf[2]) == |body| && FromKernel(buf) == m
  {
    var m := Encode(KernelMsg(pad, body));
    assert Overlay(stale, 0, m) == m + stale[|m|..];
    assert m[1..3] == LE16(|body|);
  }
}
