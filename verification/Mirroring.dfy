/** What the refinement to the books means for file and table: when one mirrors the other, what holds when a
    replay has failed, and what restarts leave. */
module Mirroring {
  import opened CString
  import opened Wire
  import opened Kernel
  import opened StoreFile
  import opened Durable

  // ---- When file and table agree ----

  /** A full restart whose replay fails nowhere, or any other event. */
  predicate Untroubled(e: Event) {
    e.RestartAll? ==> forall i | 0 <= i < |e.faults| :: e.faults[i] == NoFault
  }

  ghost predicate AllUntroubled(evs: seq<Event>) {
    forall i | 0 <= i < |evs| :: Untroubled(evs[i])
  }

  lemma {:induction false} AgreeingDistinct(b: Books)
    requires Agree(b) && Distinct(b.table)
    ensures Distinct(b.lines) && forall k :: HasKey(b.lines, k) <==> HasKey(b.table, k)
    decreases |b.lines|
  {
    if b.lines != [] {
      assert SamePair(b.lines[0], b.table[0]);
      var rest := Books(b.lines[1..], b.table[1..]);
      assert forall i | 0 <= i < |rest.lines| :: rest.lines[i] == b.lines[i + 1] && rest.table[i] == b.table[i + 1];
      AgreeingDistinct(rest);
    }
  }

  lemma {:induction false} AgreeingWithout(b: Books, key: Bytes)
    requires Agree(b)
    ensures Agree(Books(Without(b.lines, key), Without(b.table, key)))
    decreases |b.lines|
  {
    if b.lines != [] {
      assert SamePair(b.lines[0], b.table[0]);
      var rest := Books(b.lines[1..], b.table[1..]);
      assert forall i | 0 <= i < |rest.lines| :: rest.lines[i] == b.lines[i + 1] && rest.table[i] == b.table[i + 1];
      AgreeingWithout(rest, key);
      WithoutCons(b.lines, key);
      WithoutCons(b.table, key);
    }
  }

  lemma ApplyKeepsAgreement(b: Books, e: Event)
    requires Sound(b) && Agree(b) && Untroubled(e)
    ensures Agree(AbsApply(b, e))
  {
    match e
    case Request(InsertOp(key, val), _) => AgreeingAppend(b, Entry(key, val, false));
    case Request(DeleteOp(key), _) => AgreeingWithout(b, key);
    case Request(_, _) =>
    case RestartServer(fs) =>
      AgreeingKeys(b);
      AbsorbNothing(b.table, b.lines, fs);
    case RestartAll(fs) => AgreeingReload(b, fs);
  }

  lemma AgreeingAppend(b: Books, e: Entry)
    requires Agree(b)
    ensures Agree(Books(b.lines + [e], b.table + [e]))
  {
    var lines, table := b.lines + [e], b.table + [e];
    forall i | 0 <= i < |lines| ensures SamePair(lines[i], table[i]) {
      assert i < |b.lines| ==> SamePair(b.lines[i], b.table[i]);
    }
  }

  lemma AgreeingReload(b: Books, fs: seq<Fault>)
    requires Sound(b) && Agree(b) && forall i | 0 <= i < |fs| :: fs[i] == NoFault
    ensures Agree(Books(b.lines, Absorb([], b.lines, fs)))
  {
    AgreeingDistinct(b);
    AbsorbLoads([], b.lines, fs);
    LoadedKeys(b.lines, fs);
    LoadedInFull(b.lines, fs);
    assert [] + Loaded(b.lines, fs) == Loaded(b.lines, fs);
  }

  lemma {:induction false} RunKeepsAgreement(b: Books, evs: seq<Event>)
    requires Sound(b) && Agree(b) && WfEvents(evs) && AllUntroubled(evs)
    ensures Agree(AbsRun(b, evs))
    decreases |evs|
  {
    if evs != [] {
      assert Untroubled(evs[0]) && WfEvent(evs[0]);
      ApplyRefines(b, evs[0]);
      ApplyKeepsAgreement(b, evs[0]);
      RunKeepsAgreement(AbsApply(b, evs[0]), evs[1..]);
    }
  }

  // ---- What that means for file and table ----

  /** The table entry of a key agrees with its line up to one newline. */
  ghost predicate LineAgrees(line: Bytes, table: map<Bytes, Bytes>) {
    exists key: Bytes, val: Bytes ::
      && line == LineOf(key, val) && WfKey(key) && Pad(key, KEY_SIZE) in table
      && table[Pad(key, KEY_SIZE)] in {val + [NUL], val + [NEWLINE, NUL]}
  }

  /** The file and the table hold the same pairs: as many lines as keys, no key on two lines, and every
      line's pair in the table. */
  ghost predicate Mirrors(s: Store) {
    var ls := Lines(s.file);
    && |ls| == |s.kernel.table|
    && (forall i, j | 0 <= i < j < |ls| :: FirstField(ls[i]) != FirstField(ls[j]))
    && (forall i | 0 <= i < |ls| :: LineAgrees(ls[i], s.kernel.table))
  }

  lemma {:induction false} TableAt(es: seq<Entry>, i: nat)
    requires Good(es) && i < |es|
    ensures WfEntry(es[i])
    ensures Pad(es[i].key, KEY_SIZE) in TableOf(es) && TableOf(es)[Pad(es[i].key, KEY_SIZE)] == TableBytes(es[i])
  {
    assert WfEntry(es[0]) && WfEntry(es[i]);
    if i > 0 {
      TableAt(es[1..], i - 1);
      HasKeyAt(es[1..], i - 1);
      PadInjective(es[0].key, es[i].key, KEY_SIZE);
    }
  }

  lemma {:induction false} TableSize(es: seq<Entry>)
    requires Good(es)
    ensures |TableOf(es)| == |es|
  {
    if es != [] {
      assert WfEntry(es[0]);
      TableSize(es[1..]);
      TableHasKey(es[1..], es[0].key);
    }
  }

  lemma {:induction false} DistinctAt(es: seq<Entry>, i: nat, j: nat)
    requires Distinct(es) && i < j < |es|
    ensures es[i].key != es[j].key
  {
    if i == 0 {
      HasKeyAt(es[1..], j - 1);
    } else {
      DistinctAt(es[1..], i - 1, j - 1);
    }
  }

  lemma {:induction false} AgreeingLines(b: Books)
    requires Agree(b)
    ensures EntryLines(b.lines) == EntryLines(b.table)
  {
    forall i | 0 <= i < |b.lines| ensures EntryLines(b.lines)[i] == EntryLines(b.table)[i] {
      assert SamePair(b.lines[i], b.table[i]);
    }
  }

  lemma AgreeingStoresMirror(b: Books)
    requires Sound(b) && Agree(b)
    ensures Mirrors(Concrete(b))
  {
    var es := b.table;
    var ls := EntryLines(es);
    AgreeingLines(b);
    LinesOfSerialize(es);
    TableSize(es);
    forall i, j | 0 <= i < j < |ls| ensures FirstField(ls[i]) != FirstField(ls[j]) {
      assert WfEntry(es[i]) && WfEntry(es[j]);
      FirstFieldOfLine(es[i].key, es[i].val);
      FirstFieldOfLine(es[j].key, es[j].val);
      DistinctAt(es, i, j);
    }
    forall i | 0 <= i < |ls| ensures LineAgrees(ls[i], TableOf(es)) {
      TableAt(es, i);
      assert ls[i] == LineOf(es[i].key, es[i].val);
    }
  }

  /** The table's binding is on the line, up to one newline. */
  ghost predicate LineBacks(line: Bytes, k: Bytes, data: Bytes) {
    exists key: Bytes, val: Bytes ::
      line == LineOf(key, val) && WfKey(key) && k == Pad(key, KEY_SIZE) && data in {val + [NUL], val + [NEWLINE, NUL]}
  }

  /** Nothing is in the table that is not in the file. */
  ghost predicate Backed(s: Store) {
    forall k | k in s.kernel.table ::
      exists i :: 0 <= i < |Lines(s.file)| && LineBacks(Lines(s.file)[i], k, s.kernel.table[k])
  }

  lemma {:induction false} TableFrom(es: seq<Entry>, k: Bytes) returns (i: nat)
    requires Good(es) && k in TableOf(es)
    ensures i < |es| && k == Pad(es[i].key, KEY_SIZE) && TableOf(es)[k] == TableBytes(es[i])
  {
    assert WfEntry(es[0]);
    if k == Pad(es[0].key, KEY_SIZE) {
      i := 0;
    } else {
      i := TableFrom(es[1..], k);
      i := i + 1;
    }
  }

  lemma SoundStoresBacked(b: Books)
    requires Sound(b)
    ensures Backed(Concrete(b))
  {
    var ls, t := EntryLines(b.lines), TableOf(b.table);
    LinesOfSerialize(b.lines);
    forall k | k in t ensures exists i :: 0 <= i < |ls| && LineBacks(ls[i], k, t[k]) {
      var i := TableFrom(b.table, k);
      assert OnFile(b.lines, b.table[i]) && WfEntry(b.table[i]);
      var j :| 0 <= j < |b.lines| && SamePair(b.lines[j], b.table[i]);
      assert LineBacks(ls[j], k, t[k]);
    }
  }

  /** After a start-up against a fresh module the file mirrors the table exactly when no INSERT of the
      replay failed: the server does not look at the replies. */
  lemma MirrorsAfterBootIff(es: seq<Entry>, junk: map<Bytes, Bytes>, fs: seq<Fault>)
    requires Good(es)
    ensures Mirrors(Boot(Store(State(false, junk), Serialize(es)), fs))
            <==> forall i | 0 <= i < |es| && i < |fs| :: fs[i] == NoFault
  {
    PartialRecovery(es, junk, fs);
    LoadedKeys(es, fs);
    TableSize(Loaded(es, fs));
    LinesOfSerialize(es);
    if |Loaded(es, fs)| == |es| {
      LoadedInFull(es, fs);
      PairsCovered(es);
      AgreeingStoresMirror(Books(es, Reloaded(es)));
    }
  }

  lemma {:induction false} LoadedInFull(es: seq<Entry>, fs: seq<Fault>)
    requires Good(es) && |Loaded(es, fs)| == |es|
    ensures Loaded(es, fs) == Reloaded(es)
    decreases |es|
  {
    if es != [] {
      FreshTail([], es);
      LoadedKeys(es[1..], Rest(fs));
      LoadedInFull(es[1..], Rest(fs));
    }
  }

  lemma PairsCovered(es: seq<Entry>)
    requires Good(es)
    ensures Sound(Books(es, Reloaded(es))) && Agree(Books(es, Reloaded(es)))
  {
    ReloadedKeepsKeys(es);
    forall i | 0 <= i < |es| ensures OnFile(es, Reloaded(es)[i]) {
      assert SamePair(es[i], Reloaded(es)[i]);
    }
  }

  function FirstStart(): (s: Store)
    ensures s.kernel.initialized
  {
    Boot(Store(State(false, map[]), []), [])
  }

  /** From a first start on an empty file, whatever fails: nothing is ever in the table that is not in the
      file. */
  lemma EveryRunBacked(evs: seq<Event>)
    requires WfEvents(evs)
    ensures Backed(Run(FirstStart(), evs))
  {
    Recovery([], map[]);
    RunRefines(Books([], []), evs);
    SoundStoresBacked(AbsRun(Books([], []), evs));
  }

  /** And as long as no full restart has a failing replay, the file mirrors the table after every event. */
  lemma EveryRunMirrors(evs: seq<Event>)
    requires WfEvents(evs) && AllUntroubled(evs)
    ensures Mirrors(Run(FirstStart(), evs))
  {
    Recovery([], map[]);
    var b := Books([], []);
    RunRefines(b, evs);
    RunKeepsAgreement(b, evs);
    AgreeingStoresMirror(AbsRun(b, evs));
  }

  /** A key that a replay lost can be inserted again, and then has two lines. */
  lemma LostKeyTwice(key: Bytes, val: Bytes, other: Bytes)
    requires WfKey(key) && WfVal(val) && WfVal(other)
    ensures var evs := [Request(InsertOp(key, val), NoFault), RestartAll([TableFails]),
                        Request(InsertOp(key, other), NoFault)];
            WfEvents(evs) && Lines(Run(FirstStart(), evs).file) == [LineOf(key, val), LineOf(key, other)]
  {
    var evs := [Request(InsertOp(key, val), NoFault), RestartAll([TableFails]), Request(InsertOp(key, other), NoFault)];
    assert WfEvent(evs[0]) && WfEvent(evs[1]) && WfEvent(evs[2]);
    Recovery([], map[]);
    RunRefines(Books([], []), evs);
    var x, y := Entry(key, val, false), Entry(key, other, false);
    TwiceOnTheBooks(x, y);
    LinesOfSerialize([x, y]);
    assert EntryLines([x, y]) == [LineOf(key, val), LineOf(key, other)];
  }

  lemma TwiceOnTheBooks(x: Entry, y: Entry)
    requires x.key == y.key && !x.reloaded && !y.reloaded
    ensures AbsRun(Books([], []), [Request(InsertOp(x.key, x.val), NoFault), RestartAll([TableFails]),
                                   Request(InsertOp(y.key, y.val), NoFault)])
            == Books([x, y], [y])
  {
    var e1, e2, e3 :=
      Request(InsertOp(x.key, x.val), NoFault), RestartAll([TableFails]), Request(InsertOp(y.key, y.val), NoFault);
    assert [] + [x] == [x] && [] + [y] == [y] && [x] + [y] == [x, y] && [x][1..] == [];
    assert AbsApply(Books([], []), e1) == Books([x], [x]);
    assert Next([TableFails]) == TableFails && Absorb([], [x], [TableFails]) == [];
    assert AbsApply(Books([x], [x]), e2) == Books([x], []);
    assert AbsApply(Books([x], []), e3) == Books([x, y], [y]);
    assert [e1, e2, e3][1..] == [e2, e3] && [e2, e3][1..] == [e3] && [e3][1..] == [];
    assert AbsRun(Books([x], []), [e3]) == Books([x, y], [y]);
    assert AbsRun(Books([x], [x]), [e2, e3]) == Books([x, y], [y]);
  }

  /** Any positive number of full restarts equals one, from every reachable store: the newline never
      compounds. */
  lemma {:induction false} RestartsCollapse(b: Books, n: nat)
    requires Sound(b)
    ensures Run(Concrete(b), seq(n + 1, _ => RestartAll([]))) == Apply(Concrete(b), RestartAll([]))
    decreases n
  {
    var evs := seq(n + 1, _ => RestartAll([]));
    ApplyRefines(b, RestartAll([]));
    if n > 0 {
      assert evs[1..] == seq(n, _ => RestartAll([]));
      RestartsCollapse(AbsApply(b, RestartAll([])), n - 1);
    } else {
      assert evs[1..] == [];
    }
  }

  /** On a file whose lines have distinct keys that is every value with one newline. */
  lemma RestartsReload(es: seq<Entry>, n: nat)
    requires Good(es)
    ensures AllWf(Reloaded(es))
    ensures Run(Concrete(Books(es, es)), seq(n + 1, _ => RestartAll([]))) == Concrete(Books(es, Reloaded(es)))
  {
    assert Sound(Books(es, es)) by {
      forall i | 0 <= i < |es| ensures OnFile(es, es[i]) {
        assert SamePair(es[i], es[i]);
      }
    }
    RestartsCollapse(Books(es, es), n);
    Recovery(es, map[]);
  }
}
