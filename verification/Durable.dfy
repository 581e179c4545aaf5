/** The durable store as one value: the kernel's table together with the file, and what requests and
    restarts do to the pair. */
module Durable {
  import opened CString
  import opened Wire
  import opened Kernel
  import opened StoreFile

  datatype Store = Store(kernel: State, file: Bytes)

  datatype Processed = Processed(store: Store, reply: Bytes)

  /** PDUs that kernel_communication can carry through kernel and file: complete, with a terminated
      key, and (for INSERT) with at least one data byte. */
  predicate Acceptable(m: Bytes) {
    WholeRequest(m) && KeyTerminated(m) && (m[0] == INSERT ==> |m| > PREFIX)
  }

  function KeyIn(m: Bytes): (k: Bytes)
    requires Acceptable(m) && m[0] != INIT
    ensures KeyString(k)
  {
    var field := m[HEADERSIZE..PREFIX];
    CStrExtends(field, []);
    CStr(field)
  }

  /** The file after store_data saw this request and this reply. */
  function Stored(file: Bytes, m: Bytes, reply: Bytes): (f: Bytes)
    requires Acceptable(m)
  {
    if IsError(reply) then file
    else if m[0] == INSERT then file + InsertLine(KeyIn(m), m[PREFIX..])
    else if m[0] == DELETE then Flatten(OtherLines(Lines(file), KeyIn(m)))
    else file
  }

  /** Whether store_data, seeing this request and reply, gets through the file. */
  predicate Tokenisable(file: Bytes, m: Bytes, reply: Bytes)
    requires Acceptable(m)
  {
    m[0] == DELETE && !IsError(reply) ==> AllKeyed(Lines(file))
  }

  /** One turn of kernel_communication. */
  function Process(s: Store, m: Bytes, fault: Fault): (p: Processed)
    requires Acceptable(m) && s.kernel.initialized
    ensures p.store.kernel.initialized
  {
    var o := Serve(s.kernel, RequestOf(m), fault);
    Processed(Store(o.state, Stored(s.file, m, o.reply)), o.reply)
  }

  /** The failure the next replayed INSERT meets; when the list has run out there are none. */
  function Next(fs: seq<Fault>): (f: Fault) {
    if fs == [] then NoFault else fs[0]
  }

  function Rest(fs: seq<Fault>): (r: seq<Fault>)
    ensures fs == [] ==> r == []
  {
    if fs == [] then [] else fs[1..]
  }

  /** The INSERTs load_stored_values sends, one after the other; it does not look at the replies. */
  function Replay(k: State, rs: seq<Request>, fs: seq<Fault>): (k': State)
    requires k.initialized
    ensures k'.initialized
    decreases |rs|
  {
    if rs == [] then k else Replay(Serve(k, rs[0], Next(fs)).state, rs[1..], Rest(fs))
  }

  /** Starting the server: INIT, then the replay of the file with whatever failures it meets. */
  function Boot(s: Store, fs: seq<Fault>): (s': Store)
    ensures s'.kernel.initialized && s'.file == s.file
  {
    Store(Replay(Serve(s.kernel, Init, NoFault).state, Replayed(Lines(s.file)), fs), s.file)
  }

  // ---- Runs ----

  datatype Op = InitOp | InsertOp(key: Bytes, val: Bytes) | GetOp(key: Bytes) | DeleteOp(key: Bytes)

  predicate WfOp(op: Op) {
    match op
    case InitOp => true
    case InsertOp(key, val) => WfKey(key) && WfVal(val)
    case GetOp(key) => WfKey(key)
    case DeleteOp(key) => WfKey(key)
  }

  /** The message a client builds for an operation; a value travels with its terminator. */
  function MessageOf(op: Op): (m: Message)
    requires WfOp(op)
    ensures Fits(m)
  {
    match op
    case InitOp => InitMsg
    case InsertOp(key, val) => InsertMsg(key, val + [NUL])
    case GetOp(key) => GetMsg(key)
    case DeleteOp(key) => DeleteMsg(key)
  }

  /** What can happen to the store: a request (with the kernel failure it meets, if any), a restart of
      the server alone, or a restart of server and kernel module together, each with the failures that its
      replay meets. */
  datatype Event = Request(op: Op, fault: Fault) | RestartServer(faults: seq<Fault>) | RestartAll(faults: seq<Fault>)

  predicate WfEvent(e: Event) {
    e.Request? ==> WfOp(e.op)
  }

  predicate WfEvents(es: seq<Event>) {
    forall i | 0 <= i < |es| :: WfEvent(es[i])
  }

  /** The kernel request an operation amounts to. */
  function RequestFor(op: Op): (r: Kernel.Request)
    requires WfOp(op)
  {
    match op
    case InitOp => Init
    case InsertOp(key, val) => Insert(Pad(key, KEY_SIZE), val + [NUL])
    case GetOp(key) => Get(Pad(key, KEY_SIZE))
    case DeleteOp(key) => Delete(Pad(key, KEY_SIZE))
  }

  lemma OpAcceptable(op: Op)
    requires WfOp(op)
    ensures var m := Encode(MessageOf(op));
      && Acceptable(m)
      && RequestOf(m) == RequestFor(op)
      && (!op.InitOp? ==> KeyIn(m) == op.key)
      && (op.InsertOp? ==> m[PREFIX..] == op.val + [NUL])
  {
    match op
    case InitOp =>
    case InsertOp(key, val) =>
      InsertPdu(key, val + [NUL]);
      PadThenCStr(key, KEY_SIZE);
    case _ =>
      KeyedPdu(op.key);
      PadThenCStr(op.key, KEY_SIZE);
  }

  function Apply(s: Store, e: Event): (s': Store)
    requires s.kernel.initialized && WfEvent(e)
    ensures s'.kernel.initialized
  {
    match e
    case Request(op, fault) => OpAcceptable(op); Process(s, Encode(MessageOf(op)), fault).store
    case RestartServer(faults) => Boot(s, faults)
    case RestartAll(faults) => Boot(Store(State(false, map[]), s.file), faults)
  }

  function Run(s: Store, es: seq<Event>): (s': Store)
    requires s.kernel.initialized && WfEvents(es)
    ensures s'.kernel.initialized
    decreases |es|
  {
    if es == [] then s else Run(Apply(s, es[0]), es[1..])
  }

  // ---- The abstract store: the entries in the file and those in the table ----

  predicate HasKey(es: seq<Entry>, key: Bytes) {
    es != [] && (es[0].key == key || HasKey(es[1..], key))
  }

  predicate Distinct(es: seq<Entry>) {
    es == [] || (!HasKey(es[1..], es[0].key) && Distinct(es[1..]))
  }

  ghost predicate Good(es: seq<Entry>) {
    AllWf(es) && Distinct(es)
  }

  /** The table's copy of a value: a reloaded one carries the newline getline left on it. */
  function TableBytes(e: Entry): (b: Bytes)
  {
    e.val + (if e.reloaded then [NEWLINE, NUL] else [NUL])
  }

  function TableOf(es: seq<Entry>): (t: map<Bytes, Bytes>)
    requires AllWf(es)
  {
    if es == [] then map[]
    else assert WfEntry(es[0]); TableOf(es[1..])[Pad(es[0].key, KEY_SIZE) := TableBytes(es[0])]
  }

  datatype Books = Books(lines: seq<Entry>, table: seq<Entry>)

  predicate SamePair(x: Entry, y: Entry) {
    x.key == y.key && x.val == y.val
  }

  ghost predicate OnFile(lines: seq<Entry>, e: Entry) {
    exists j :: 0 <= j < |lines| && SamePair(lines[j], e)
  }

  /** Every pair in the table is on some line. */
  ghost predicate Covered(lines: seq<Entry>, table: seq<Entry>) {
    forall i | 0 <= i < |table| :: OnFile(lines, table[i])
  }

  ghost predicate Sound(b: Books) {
    AllWf(b.lines) && Good(b.table) && Covered(b.lines, b.table)
  }

  /** File and table hold the same pairs in the same order. */
  predicate Agree(b: Books) {
    |b.lines| == |b.table| && forall i | 0 <= i < |b.lines| :: SamePair(b.lines[i], b.table[i])
  }

  /** The concrete store the books stand for. */
  function Concrete(b: Books): (s: Store)
    requires AllWf(b.lines) && AllWf(b.table)
  {
    Store(State(true, TableOf(b.table)), Serialize(b.lines))
  }

  function Reloaded(es: seq<Entry>): (r: seq<Entry>)
    ensures |r| == |es| && forall i | 0 <= i < |es| :: r[i] == es[i].(reloaded := true)
  {
    if es == [] then [] else [es[0].(reloaded := true)] + Reloaded(es[1..])
  }

  /** A replayed INSERT gets into the table unless it fails or the key is there already. */
  function Absorbed(table: seq<Entry>, e: Entry, fault: Fault): (r: seq<Entry>) {
    if fault == NoFault && !HasKey(table, e.key) then table + [e.(reloaded := true)] else table
  }

  /** The table after the replay of the lines. */
  function Absorb(table: seq<Entry>, lines: seq<Entry>, fs: seq<Fault>): (r: seq<Entry>)
    decreases |lines|
  {
    if lines == [] then table else Absorb(Absorbed(table, lines[0], Next(fs)), lines[1..], Rest(fs))
  }

  function AbsApply(b: Books, e: Event): (r: Books)
  {
    match e
    case Request(InsertOp(key, val), fault) =>
      if fault != NoFault || HasKey(b.table, key) then b
      else Books(b.lines + [Entry(key, val, false)], b.table + [Entry(key, val, false)])
    case Request(DeleteOp(key), _) =>
      if HasKey(b.table, key) then Books(Without(b.lines, key), Without(b.table, key)) else b
    case Request(_, _) => b
    case RestartServer(faults) => Books(b.lines, Absorb(b.table, b.lines, faults))
    case RestartAll(faults) => Books(b.lines, Absorb([], b.lines, faults))
  }

  function AbsRun(b: Books, evs: seq<Event>): (r: Books)
    decreases |evs|
  {
    if evs == [] then b else AbsRun(AbsApply(b, evs[0]), evs[1..])
  }

  // ---- Facts about entry lists ----

  lemma {:induction false} TableHasKey(es: seq<Entry>, key: Bytes)
    requires AllWf(es) && WfKey(key)
    ensures Pad(key, KEY_SIZE) in TableOf(es) <==> HasKey(es, key)
  {
    if es != [] {
      assert WfEntry(es[0]);
      TableHasKey(es[1..], key);
      PadInjective(es[0].key, key, KEY_SIZE);
    }
  }

  lemma {:induction false} TableAppend(es: seq<Entry>, e: Entry)
    requires AllWf(es) && WfEntry(e) && !HasKey(es, e.key)
    ensures AllWf(es + [e])
    ensures TableOf(es + [e]) == TableOf(es)[Pad(e.key, KEY_SIZE) := TableBytes(e)]
  {
    if es == [] {
      assert es + [e] == [e];
      assert [e][1..] == es;
    } else {
      assert WfEntry(es[0]);
      TableAppend(es[1..], e);
      assert (es + [e])[1..] == es[1..] + [e];
      PadInjective(es[0].key, e.key, KEY_SIZE);
    }
  }

  lemma {:induction false} DistinctAppend(es: seq<Entry>, e: Entry)
    requires Distinct(es) && !HasKey(es, e.key)
    ensures Distinct(es + [e])
    ensures forall k :: HasKey(es + [e], k) <==> HasKey(es, k) || k == e.key
  {
    if es == [] {
      assert es + [e] == [e];
      assert [e][1..] == es;
    } else {
      DistinctAppend(es[1..], e);
      assert (es + [e])[1..] == es[1..] + [e];
    }
  }

  lemma WithoutCons(es: seq<Entry>, key: Bytes)
    requires es != []
    ensures es[0].key == key ==> Without(es, key) == Without(es[1..], key)
    ensures es[0].key != key ==> Without(es, key) == [es[0]] + Without(es[1..], key)
                                 && Without(es, key)[1..] == Without(es[1..], key)
  {}

  lemma {:induction false} TableWithout(es: seq<Entry>, key: Bytes)
    requires AllWf(es) && WfKey(key)
    ensures AllWf(Without(es, key))
    ensures TableOf(Without(es, key)) == TableOf(es) - {Pad(key, KEY_SIZE)}
  {
    WithoutWf(es, key);
    if es != [] {
      assert WfEntry(es[0]);
      TableWithout(es[1..], key);
      PadInjective(es[0].key, key, KEY_SIZE);
      WithoutCons(es, key);
      MapWithout(TableOf(es[1..]), Pad(es[0].key, KEY_SIZE), TableBytes(es[0]), Pad(key, KEY_SIZE));
    }
  }

  lemma MapWithout(t: map<Bytes, Bytes>, k: Bytes, v: Bytes, p: Bytes)
    ensures t[k := v] - {p} == if k == p then t - {p} else (t - {p})[k := v]
  {}

  lemma {:induction false} WithoutWf(es: seq<Entry>, key: Bytes)
    requires AllWf(es)
    ensures AllWf(Without(es, key))
  {
    if es != [] {
      assert WfEntry(es[0]);
      WithoutWf(es[1..], key);
      WithoutCons(es, key);
    }
  }

  lemma {:induction false} DistinctWithout(es: seq<Entry>, key: Bytes)
    requires Distinct(es)
    ensures Distinct(Without(es, key))
    ensures forall k :: HasKey(Without(es, key), k) <==> HasKey(es, k) && k != key
  {
    if es != [] {
      DistinctWithout(es[1..], key);
      WithoutCons(es, key);
    }
  }

  lemma {:induction false} WithoutAbsent(es: seq<Entry>, key: Bytes)
    requires !HasKey(es, key)
    ensures Without(es, key) == es
  {
    if es != [] {
      WithoutAbsent(es[1..], key);
    }
  }

  lemma {:induction false} ReloadedKeepsKeys(es: seq<Entry>)
    requires AllWf(es)
    ensures AllWf(Reloaded(es)) && EntryLines(Reloaded(es)) == EntryLines(es)
    ensures forall k :: HasKey(Reloaded(es), k) <==> HasKey(es, k)
    ensures Distinct(es) ==> Distinct(Reloaded(es))
    ensures Reloaded(Reloaded(es)) == Reloaded(es)
  {
    if es != [] {
      ReloadedKeepsKeys(es[1..]);
      assert Reloaded(es)[1..] == Reloaded(es[1..]);
    }
    forall i | 0 <= i < |es| ensures WfEntry(Reloaded(es)[i]) {
      assert WfEntry(es[i]);
    }
  }

  // ---- Replay ----

  lemma ReplayedEntry(e: Entry, rest: seq<Bytes>)
    requires WfEntry(e)
    ensures Replayed([LineOf(e.key, e.val)] + rest)
            == [Insert(Pad(e.key, KEY_SIZE), TableBytes(e.(reloaded := true)))] + Replayed(rest)
  {
    ParseLine(e.key, e.val);
    assert ([LineOf(e.key, e.val)] + rest)[1..] == rest;
  }

  lemma ReplayStep(done: seq<Entry>, e: Entry, rs: seq<Kernel.Request>, fs: seq<Fault>)
    requires Good(done) && WfEntry(e)
    ensures Good(Absorbed(done, e, Next(fs)))
    ensures Replay(State(true, TableOf(done)), [Insert(Pad(e.key, KEY_SIZE), TableBytes(e.(reloaded := true)))] + rs, fs)
            == Replay(State(true, TableOf(Absorbed(done, e, Next(fs)))), rs, Rest(fs))
  {
    TableHasKey(done, e.key);
    if !HasKey(done, e.key) {
      TableAppend(done, e.(reloaded := true));
      DistinctAppend(done, e.(reloaded := true));
    }
    var all := [Insert(Pad(e.key, KEY_SIZE), TableBytes(e.(reloaded := true)))] + rs;
    assert all[1..] == rs;
  }

  /** Whatever the table held and whatever failures it meets, the replay of a file of entries does to the
      table what Absorb does. */
  lemma {:induction false} ReplayAbsorbs(done: seq<Entry>, lines: seq<Entry>, fs: seq<Fault>)
    requires Good(done) && AllWf(lines)
    ensures Good(Absorb(done, lines, fs))
    ensures Replay(State(true, TableOf(done)), Replayed(EntryLines(lines)), fs)
            == State(true, TableOf(Absorb(done, lines, fs)))
    decreases |lines|
  {
    if lines != [] {
      assert WfEntry(lines[0]);
      ReplayedEntry(lines[0], EntryLines(lines[1..]));
      ReplayStep(done, lines[0], Replayed(EntryLines(lines[1..])), fs);
      ReplayAbsorbs(Absorbed(done, lines[0], Next(fs)), lines[1..], Rest(fs));
    }
  }

  /** Nothing gets into the table but what a line says. */
  lemma {:induction false} AbsorbCovered(all: seq<Entry>, k: nat, done: seq<Entry>, fs: seq<Fault>)
    requires k <= |all| && Covered(all, done)
    ensures Covered(all, Absorb(done, all[k..], fs))
    decreases |all| - k
  {
    if k < |all| {
      var next := Absorbed(done, all[k], Next(fs));
      forall i | 0 <= i < |next| ensures OnFile(all, next[i]) {
        assert i < |done| ==> OnFile(all, done[i]);
        assert SamePair(all[k], all[k].(reloaded := true));
      }
      AbsorbCovered(all, k + 1, next, Rest(fs));
      assert all[k..][1..] == all[k + 1..];
    }
  }

  /** The failure line i of the file meets. */
  function FaultAt(fs: seq<Fault>, i: nat): (f: Fault) {
    if i < |fs| then fs[i] else NoFault
  }

  ghost predicate GotThrough(lines: seq<Entry>, fs: seq<Fault>, key: Bytes) {
    exists i: nat :: i < |lines| && lines[i].key == key && FaultAt(fs, i) == NoFault
  }

  /** A key is in the table after the replay if and only if it was there before or one of its lines met no
      failure. */
  lemma {:induction false} AbsorbedIff(done: seq<Entry>, lines: seq<Entry>, fs: seq<Fault>, key: Bytes)
    requires Distinct(done)
    ensures HasKey(Absorb(done, lines, fs), key) <==> HasKey(done, key) || GotThrough(lines, fs, key)
    decreases |lines|
  {
    if lines != [] {
      var next := Absorbed(done, lines[0], Next(fs));
      if next != done {
        DistinctAppend(done, lines[0].(reloaded := true));
      }
      AbsorbedIff(next, lines[1..], Rest(fs), key);
      ThroughCons(lines, fs, key);
    }
  }

  lemma ThroughCons(lines: seq<Entry>, fs: seq<Fault>, key: Bytes)
    requires lines != []
    ensures GotThrough(lines, fs, key)
            <==> (lines[0].key == key && Next(fs) == NoFault) || GotThrough(lines[1..], Rest(fs), key)
  {
    if i: nat :| i < |lines[1..]| && lines[1..][i].key == key && FaultAt(Rest(fs), i) == NoFault {
      assert lines[i + 1].key == key && FaultAt(fs, i + 1) == NoFault;
    }
    if i: nat :| i < |lines| && lines[i].key == key && FaultAt(fs, i) == NoFault {
      if i > 0 {
        assert lines[1..][i - 1].key == key && FaultAt(Rest(fs), i - 1) == NoFault;
      }
    }
    assert FaultAt(fs, 0) == Next(fs) && lines[0].key == lines[0].key;
  }

  /** The entries that come back when the replay meets the failures `fs`. */
  function Loaded(es: seq<Entry>, fs: seq<Fault>): (r: seq<Entry>) {
    if es == [] then []
    else (if Next(fs) == NoFault then [es[0].(reloaded := true)] else []) + Loaded(es[1..], Rest(fs))
  }

  lemma {:induction false} LoadedKeys(es: seq<Entry>, fs: seq<Fault>)
    requires Good(es)
    ensures Good(Loaded(es, fs)) && |Loaded(es, fs)| <= |es|
    ensures forall k | HasKey(Loaded(es, fs), k) :: HasKey(es, k)
    ensures |Loaded(es, fs)| == |es| <==> forall i | 0 <= i < |es| && i < |fs| :: fs[i] == NoFault
    decreases |es|
  {
    if es != [] {
      assert WfEntry(es[0]);
      FreshTail([], es);
      LoadedKeys(es[1..], Rest(fs));
      var r := Loaded(es, fs);
      if Next(fs) == NoFault {
        assert r[1..] == Loaded(es[1..], Rest(fs));
        assert r[0] == es[0].(reloaded := true);
      } else {
        assert r == Loaded(es[1..], Rest(fs));
      }
      NoFaultsStep(fs, |es|);
    }
  }

  lemma NoFaultsStep(fs: seq<Fault>, n: nat)
    requires n > 0
    ensures (forall i | 0 <= i < n && i < |fs| :: fs[i] == NoFault)
            <==> Next(fs) == NoFault && forall i | 0 <= i < n - 1 && i < |Rest(fs)| :: Rest(fs)[i] == NoFault
  {
    if fs != [] && forall i | 0 <= i < n - 1 && i < |Rest(fs)| :: Rest(fs)[i] == NoFault {
      assert forall i | 0 < i < n && i < |fs| :: fs[i] == Rest(fs)[i - 1];
    }
  }

  lemma {:induction false} LoadedWithoutFaults(es: seq<Entry>)
    ensures Loaded(es, []) == Reloaded(es)
  {
    if es != [] {
      LoadedWithoutFaults(es[1..]);
    }
  }

  /** On lines with distinct new keys Absorb adds exactly those that meet no failure. */
  lemma {:induction false} AbsorbLoads(done: seq<Entry>, rest: seq<Entry>, fs: seq<Fault>)
    requires Good(done) && Good(rest) && forall i | 0 <= i < |rest| :: !HasKey(done, rest[i].key)
    ensures Absorb(done, rest, fs) == done + Loaded(rest, fs)
    decreases |rest|
  {
    if rest == [] {
      assert done + Loaded(rest, fs) == done;
    } else {
      FreshTail(done, rest);
      assert !HasKey(done, rest[0].key);
      AbsorbLoads(Absorbed(done, rest[0], Next(fs)), rest[1..], Rest(fs));
      LoadedCons(done, rest, fs);
    }
  }

  lemma FreshTail(done: seq<Entry>, rest: seq<Entry>)
    requires rest != [] && Good(done) && Good(rest) && forall i | 0 <= i < |rest| :: !HasKey(done, rest[i].key)
    ensures var e := rest[0].(reloaded := true);
            && Good(done + [e]) && Good(rest[1..])
            && (forall i | 0 <= i < |rest[1..]| :: !HasKey(done + [e], rest[1..][i].key))
            && (forall i | 0 <= i < |rest[1..]| :: !HasKey(done, rest[1..][i].key))
  {
    var e, tail := rest[0].(reloaded := true), rest[1..];
    assert WfEntry(rest[0]);
    DistinctAppend(done, e);
    forall i | 0 <= i < |tail| ensures !HasKey(done + [e], tail[i].key) && !HasKey(done, tail[i].key) {
      assert tail[i] == rest[i + 1];
      HasKeyAt(tail, i);
    }
  }

  lemma LoadedCons(done: seq<Entry>, rest: seq<Entry>, fs: seq<Fault>)
    requires rest != []
    ensures done + Loaded(rest, fs)
            == (if Next(fs) == NoFault then done + [rest[0].(reloaded := true)] else done) + Loaded(rest[1..], Rest(fs))
  {
    var more := Loaded(rest[1..], Rest(fs));
    assert [] + more == more;
  }

  lemma {:induction false} HasKeyAt(es: seq<Entry>, i: nat)
    requires i < |es|
    ensures HasKey(es, es[i].key)
  {
    if i > 0 {
      HasKeyAt(es[1..], i - 1);
    }
  }

  /** Lines whose keys are all taken change nothing. */
  lemma {:induction false} AbsorbNothing(done: seq<Entry>, rest: seq<Entry>, fs: seq<Fault>)
    requires forall i | 0 <= i < |rest| :: HasKey(done, rest[i].key)
    ensures Absorb(done, rest, fs) == done
    decreases |rest|
  {
    if rest != [] {
      assert HasKey(done, rest[0].key);
      AbsorbNothing(done, rest[1..], Rest(fs));
    }
  }

  /** Whatever failures the replay meets, a fresh kernel module booted from the file of any store holds
      exactly the entries whose own INSERT met none; the file is untouched. */
  lemma PartialRecovery(es: seq<Entry>, junk: map<Bytes, Bytes>, fs: seq<Fault>)
    requires Good(es)
    ensures AllWf(Loaded(es, fs))
    ensures Boot(Store(State(false, junk), Serialize(es)), fs) == Concrete(Books(es, Loaded(es, fs)))
  {
    LinesOfSerialize(es);
    ReplayAbsorbs([], es, fs);
    AbsorbLoads([], es, fs);
    assert [] + Loaded(es, fs) == Loaded(es, fs);
  }

  /** Recovery: a fresh kernel module booted from the file of any store holds exactly the same keys,
      each value with one trailing newline; the file is untouched. */
  lemma Recovery(es: seq<Entry>, junk: map<Bytes, Bytes>)
    requires Good(es)
    ensures AllWf(Reloaded(es))
    ensures Boot(Store(State(false, junk), Serialize(es)), []) == Concrete(Books(es, Reloaded(es)))
  {
    PartialRecovery(es, junk, []);
    LoadedWithoutFaults(es);
    ReloadedKeepsKeys(es);
  }

  lemma AgreeingKeys(b: Books)
    requires Agree(b) && Good(b.table)
    ensures forall i | 0 <= i < |b.lines| :: HasKey(b.table, b.lines[i].key)
  {
    forall i | 0 <= i < |b.lines| ensures HasKey(b.table, b.lines[i].key) {
      assert SamePair(b.lines[i], b.table[i]);
      HasKeyAt(b.table, i);
    }
  }

  /** Restarting the server against a live module is the identity as long as every line's key is in the
      table. */
  lemma LiveRestart(b: Books, fs: seq<Fault>)
    requires Sound(b) && Agree(b)
    ensures Boot(Concrete(b), fs) == Concrete(b)
  {
    ServerRestartRefines(b, fs);
    AgreeingKeys(b);
    AbsorbNothing(b.table, b.lines, fs);
  }

  lemma ServerRestartRefines(b: Books, fs: seq<Fault>)
    requires Sound(b)
    ensures var b' := Books(b.lines, Absorb(b.table, b.lines, fs));
            Sound(b') && Boot(Concrete(b), fs) == Concrete(b')
  {
    LinesOfSerialize(b.lines);
    ReplayAbsorbs(b.table, b.lines, fs);
    AbsorbCovered(b.lines, 0, b.table, fs);
    assert b.lines[0..] == b.lines;
  }

  lemma FullRestartRefines(lines: seq<Entry>, fs: seq<Fault>)
    requires AllWf(lines)
    ensures var b' := Books(lines, Absorb([], lines, fs));
            Sound(b') && Boot(Store(State(false, map[]), Serialize(lines)), fs) == Concrete(b')
  {
    LinesOfSerialize(lines);
    ReplayAbsorbs([], lines, fs);
    AbsorbCovered(lines, 0, [], fs);
    assert lines[0..] == lines;
  }

  // ---- The refinement ----

  lemma InsertRefines(b: Books, key: Bytes, val: Bytes, fault: Fault)
    requires Sound(b) && WfKey(key) && WfVal(val)
    ensures var e := Request(InsertOp(key, val), fault);
            Sound(AbsApply(b, e)) && Apply(Concrete(b), e) == Concrete(AbsApply(b, e))
  {
    TableHasKey(b.table, key);
    ProcessInsert(Concrete(b), InsertOp(key, val), fault);
    if fault == NoFault && !HasKey(b.table, key) {
      var e := Entry(key, val, false);
      TableAppend(b.table, e);
      DistinctAppend(b.table, e);
      SerializeAppend(b.lines, e);
      CoveredAppend(b.lines, b.table, e);
    }
  }

  lemma CoveredAppend(lines: seq<Entry>, table: seq<Entry>, e: Entry)
    requires AllWf(lines) && WfEntry(e) && Covered(lines, table)
    ensures AllWf(lines + [e]) && Covered(lines + [e], table + [e])
  {
    var all := lines + [e];
    forall i | 0 <= i <= |table| ensures OnFile(all, (table + [e])[i]) {
      if i < |table| {
        assert OnFile(lines, table[i]);
        var j :| 0 <= j < |lines| && SamePair(lines[j], table[i]);
        assert SamePair(all[j], table[i]);
      } else {
        assert SamePair(all[|lines|], e);
      }
    }
  }

  /** Table and file move together: an INSERT either adds its pair to both or to neither. */
  lemma ProcessInsert(s: Store, op: Op, fault: Fault)
    requires s.kernel.initialized && WfOp(op) && op.InsertOp?
    ensures var key := Pad(op.key, KEY_SIZE);
            Apply(s, Request(op, fault)) ==
            if fault != NoFault || key in s.kernel.table then s
            else Store(State(true, s.kernel.table[key := op.val + [NUL]]), s.file + LineOf(op.key, op.val))
  {
    OpAcceptable(op);
    var key, data := Pad(op.key, KEY_SIZE), op.val + [NUL];
    var o := Serve(s.kernel, Insert(key, data), fault);
    InsertOutcome(s.kernel, key, data, fault);
    if o.state != s.kernel {
      PlainInsertLine(op.key, op.val);
    }
  }

  lemma InsertOutcome(k: State, key: Bytes, data: Bytes, fault: Fault)
    requires k.initialized
    ensures var o := Serve(k, Insert(key, data), fault);
            && (IsError(o.reply) <==> o.state == k) && (o.state == k <==> fault != NoFault || key in k.table)
            && (o.state != k ==> o.state == State(true, k.table[key := data]))
  {
    ErrorMarksUnchanged(k, Insert(key, data), fault);
    if key !in k.table {
      NewKeyChanges(k.table, key, data);
    }
  }

  lemma NewKeyChanges(t: map<Bytes, Bytes>, k: Bytes, v: Bytes)
    requires k !in t
    ensures t[k := v] != t
  {
    assert k in t[k := v].Keys;
  }

  lemma PlainInsertLine(key: Bytes, val: Bytes)
    requires NUL !in val
    ensures InsertLine(key, val + [NUL]) == LineOf(key, val)
  {
    assert (val + [NUL])[..|val|] == val;
    FindIs(val, NUL, |val|);
    assert CStr(val) == val;
  }

  lemma DeleteOutcome(k: State, key: Bytes, fault: Fault)
    requires k.initialized
    ensures var o := Serve(k, Delete(key), fault);
            (IsError(o.reply) <==> key !in k.table) && o.state == State(true, k.table - {key})
  {
    ErrorMarksUnchanged(k, Delete(key), fault);
    var t := k.table - {key};
    assert key !in t.Keys;
    assert key !in k.table ==> t == k.table;
  }

  lemma DeleteRefines(b: Books, key: Bytes, fault: Fault)
    requires Sound(b) && WfKey(key)
    ensures var e := Request(DeleteOp(key), fault);
            Sound(AbsApply(b, e)) && Apply(Concrete(b), e) == Concrete(AbsApply(b, e))
  {
    OpAcceptable(DeleteOp(key));
    TableHasKey(b.table, key);
    DeleteOutcome(State(true, TableOf(b.table)), Pad(key, KEY_SIZE), fault);
    TableWithout(b.table, key);
    DistinctWithout(b.table, key);
    if HasKey(b.table, key) {
      LinesOfSerialize(b.lines);
      DeleteRemovesEntry(b.lines, key);
      TableWithout(b.lines, key);
      CoveredWithout(b.lines, b.table, key);
    } else {
      WithoutAbsent(b.table, key);
    }
  }

  /** What Without keeps. */
  lemma {:induction false} WithoutKeeps(es: seq<Entry>, key: Bytes, e: Entry)
    ensures OnFile(Without(es, key), e) <==> OnFile(es, e) && e.key != key
  {
    if es != [] {
      WithoutKeeps(es[1..], key, e);
      WithoutCons(es, key);
      OnFileCons(es, e);
      if es[0].key != key {
        OnFileCons(Without(es, key), e);
      }
    }
  }

  lemma OnFileCons(es: seq<Entry>, e: Entry)
    requires es != []
    ensures OnFile(es, e) <==> SamePair(es[0], e) || OnFile(es[1..], e)
  {
    if j :| 0 <= j < |es[1..]| && SamePair(es[1..][j], e) {
      assert SamePair(es[j + 1], e);
    }
    if j :| 0 <= j < |es| && SamePair(es[j], e) {
      assert j > 0 ==> SamePair(es[1..][j - 1], e);
    }
  }

  lemma CoveredWithout(lines: seq<Entry>, table: seq<Entry>, key: Bytes)
    requires Covered(lines, table)
    ensures Covered(Without(lines, key), Without(table, key))
  {
    var kept := Without(table, key);
    forall i | 0 <= i < |kept| ensures OnFile(Without(lines, key), kept[i]) {
      assert SamePair(kept[i], kept[i]);
      WithoutKeeps(table, key, kept[i]);
      var j :| 0 <= j < |table| && SamePair(table[j], kept[i]);
      assert OnFile(lines, table[j]);
      var l :| 0 <= l < |lines| && SamePair(lines[l], table[j]);
      assert SamePair(lines[l], kept[i]);
      WithoutKeeps(lines, key, kept[i]);
    }
  }

  lemma QuietOpRefines(b: Books, op: Op, fault: Fault)
    requires Sound(b) && WfOp(op) && (op.GetOp? || op.InitOp?)
    ensures Apply(Concrete(b), Request(op, fault)) == Concrete(b)
  {
    OpAcceptable(op);
  }

  /** One event on the concrete store is the same event on the books. */
  lemma ApplyRefines(b: Books, e: Event)
    requires Sound(b) && WfEvent(e)
    ensures Sound(AbsApply(b, e)) && Apply(Concrete(b), e) == Concrete(AbsApply(b, e))
  {
    match e
    case Request(op, fault) =>
      match op {
        case InsertOp(key, val) => InsertRefines(b, key, val, fault);
        case DeleteOp(key) => DeleteRefines(b, key, fault);
        case _ => QuietOpRefines(b, op, fault);
      }
    case RestartServer(faults) => ServerRestartRefines(b, faults);
    case RestartAll(faults) => FullRestartRefines(b.lines, faults);
  }

  /** Every run of requests, restarts and replays, with whatever failures, on the table and the file is the
      run of the same events on the books. */
  lemma {:induction false} RunRefines(b: Books, evs: seq<Event>)
    requires Sound(b) && WfEvents(evs)
    ensures Sound(AbsRun(b, evs)) && Run(Concrete(b), evs) == Concrete(AbsRun(b, evs))
    decreases |evs|
  {
    if evs != [] {
      ApplyRefines(b, evs[0]);
      RunRefines(AbsApply(b, evs[0]), evs[1..]);
    }
  }
}
