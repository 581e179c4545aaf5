/** Which requests keep the store file readable, for DELETE's tokenising and for start-up's loading: every
    run of complete requests, well-formed or not. */
module FileSafety {
  import opened CString
  import opened Wire
  import opened Kernel
  import opened StoreFile
  import opened Durable
  import opened Pipeline

  // ---- What strtok needs of a line ----

  /** A byte other than ':' with a ':' somewhere after it. */
  ghost predicate HasField(s: Bytes) {
    exists i, j :: 0 <= i < j < |s| && s[i] != COLON && s[j] == COLON
  }

  lemma {:induction false} FirstFieldIff(l: Bytes)
    ensures FirstField(l).Some? <==> HasField(l)
  {
    if l != [] {
      if l[0] == COLON {
        FirstFieldIff(l[1..]);
        HasFieldCons(l);
      } else {
        var n := Find(l, COLON);
        assert n < |l| ==> 0 < n && l[0] != COLON && l[n] == COLON;
      }
    }
  }

  lemma HasFieldCons(l: Bytes)
    requires l != [] && l[0] == COLON
    ensures HasField(l[1..]) <==> HasField(l)
  {
    var t := l[1..];
    if HasField(t) {
      var i, j :| 0 <= i < j < |t| && t[i] != COLON && t[j] == COLON;
      assert l[i + 1] != COLON && l[j + 1] == COLON;
    }
    if HasField(l) {
      var i, j :| 0 <= i < j < |l| && l[i] != COLON && l[j] == COLON;
      assert t[i - 1] != COLON && t[j - 1] == COLON;
    }
  }

  lemma FieldBeforeNewline(s: Bytes)
    ensures HasField(s + [NEWLINE]) <==> HasField(s)
  {
    var l := s + [NEWLINE];
    if HasField(s) {
      var i, j :| 0 <= i < j < |s| && s[i] != COLON && s[j] == COLON;
      assert l[i] != COLON && l[j] == COLON;
    }
    if HasField(l) {
      var i, j :| 0 <= i < j < |l| && l[i] != COLON && l[j] == COLON;
      assert s[i] != COLON && s[j] == COLON;
    }
  }

  /** Every newline-separated piece has a field. */
  ghost predicate Fielded(s: Bytes)
    decreases |s|
  {
    var n := Find(s, NEWLINE);
    HasField(s[..n]) && (n < |s| ==> Fielded(s[n + 1..]))
  }

  lemma LineThenRest(a: Bytes, rest: Bytes)
    requires NEWLINE !in a
    ensures Lines((a + [NEWLINE]) + rest) == [a + [NEWLINE]] + Lines(rest)
    ensures AllKeyed(Lines((a + [NEWLINE]) + rest)) <==> HasField(a) && AllKeyed(Lines(rest))
  {
    var l := a + [NEWLINE];
    assert l[..|a|] == a;
    LinesStep(l, rest, true);
    OtherStep(l, Lines(rest), []);
    FirstFieldIff(l);
    FieldBeforeNewline(a);
  }

  lemma Regroup<X>(xs: seq<X>, ys: seq<X>, zs: seq<X>)
    ensures xs + (ys + zs) == xs + ys + zs
  {}

  lemma {:induction false} LinesFielded(s: Bytes)
    ensures AllKeyed(Lines(s + [NEWLINE])) <==> Fielded(s)
    decreases |s|
  {
    var n := Find(s, NEWLINE);
    var a := s[..n];
    if n < |s| {
      var t := s[n + 1..];
      assert s == a + [NEWLINE] + t;
      Regroup(a + [NEWLINE], t, [NEWLINE]);
      LineThenRest(a, t + [NEWLINE]);
      LinesFielded(t);
    } else {
      assert s == a && (a + [NEWLINE]) + [] == a + [NEWLINE];
      LineThenRest(a, []);
    }
  }

  /** The line of an INSERT can be tokenised exactly when every line of `key:value` has a field. */
  lemma InsertLineKeyedIff(key: Bytes, val: Bytes)
    ensures AllKeyed(Lines(LineOf(key, val))) <==> Fielded(key + [COLON] + val)
  {
    LinesFielded(key + [COLON] + val);
  }

  /** Without newlines: when the key has a byte other than ':', or the value a field of its own. */
  lemma OneLineFieldedIff(key: Bytes, val: Bytes)
    requires NEWLINE !in key && NEWLINE !in val
    ensures Fielded(key + [COLON] + val) <==> (exists i :: 0 <= i < |key| && key[i] != COLON) || HasField(val)
  {
    var s := key + [COLON] + val;
    FindIs(s, NEWLINE, |s|);
    assert s[..|s|] == s;
    if i :| 0 <= i < |key| && key[i] != COLON {
      assert s[i] != COLON && s[|key|] == COLON;
    } else {
      FieldInValue(key, val);
    }
  }

  lemma {:induction false} FieldInValue(key: Bytes, val: Bytes)
    requires forall i | 0 <= i < |key| :: key[i] == COLON
    ensures HasField(key + [COLON] + val) <==> HasField(val)
    decreases |key|
  {
    var s := key + [COLON] + val;
    if key == [] {
      assert s == [COLON] + val && s[1..] == val;
      HasFieldCons(s);
    } else {
      FieldInValue(key[1..], val);
      assert s[1..] == key[1..] + [COLON] + val;
      HasFieldCons(s);
    }
  }

  // ---- What start-up needs of a line ----

  function FieldLen(l: Bytes, i: nat): (n: nat) {
    if i < |Tokens(l)| then |Tokens(l)[i]| else 0
  }

  /** At most 63 bytes of key and 955 of value, newline included, if there is a ':' at all. */
  predicate LineFits(l: Bytes) {
    COLON in l ==> FieldLen(l, 0) <= 63 && FieldLen(l, 1) <= 955
  }

  lemma LineFitsIff(l: Bytes)
    requires NUL !in l
    ensures LineFits(l) <==> (COLON in l ==> Loadable(l))
  {
    var ts := Tokens(l);
    if ts != [] {
      if NUL in ts[0] {
        TokenBytes(l, 0, NUL);
      }
      assert |ts[0]| < KEY_SIZE ==> TokenKey(l)[|ts[0]|] == NUL;
      assert |ts[0]| >= KEY_SIZE ==> TokenKey(l) == ts[0][..KEY_SIZE];
    } else {
      assert TokenKey(l)[0] == NUL;
    }
  }

  /** Every newline-separated piece fits, newline added. */
  predicate Measured(s: Bytes)
    decreases |s|
  {
    var n := Find(s, NEWLINE);
    LineFits(s[..n] + [NEWLINE]) && (n < |s| ==> Measured(s[n + 1..]))
  }

  lemma FitThenRest(a: Bytes, rest: Bytes)
    requires NEWLINE !in a && NUL !in a
    ensures AllLoadable(Lines((a + [NEWLINE]) + rest)) <==> LineFits(a + [NEWLINE]) && AllLoadable(Lines(rest))
  {
    LineThenRest(a, rest);
    LineFitsIff(a + [NEWLINE]);
    assert ([a + [NEWLINE]] + Lines(rest))[1..] == Lines(rest);
  }

  lemma {:induction false} LinesMeasured(s: Bytes)
    requires NUL !in s
    ensures AllLoadable(Lines(s + [NEWLINE])) <==> Measured(s)
    decreases |s|
  {
    var n := Find(s, NEWLINE);
    var a := s[..n];
    if n < |s| {
      var t := s[n + 1..];
      assert s == a + [NEWLINE] + t;
      Regroup(a + [NEWLINE], t, [NEWLINE]);
      FitThenRest(a, t + [NEWLINE]);
      LinesMeasured(t);
    } else {
      assert s == a && (a + [NEWLINE]) + [] == a + [NEWLINE];
      FitThenRest(a, []);
    }
  }

  /** The line of an INSERT can be loaded exactly when every line of `key:value` fits. */
  lemma InsertLineLoadableIff(key: Bytes, val: Bytes)
    requires NUL !in key && NUL !in val
    ensures AllLoadable(Lines(LineOf(key, val))) <==> Measured(key + [COLON] + val)
  {
    LinesMeasured(key + [COLON] + val);
  }

  lemma TokensAfterKey(k: Bytes, rest: Bytes)
    requires k != [] && COLON !in k
    ensures Tokens(k + [COLON] + rest) == [k] + Tokens(rest)
  {
    var s := k + [COLON] + rest;
    FindAfter(k, COLON, rest);
    assert s[0] == k[0] && s[..|k|] == k;
    var t := s[|k|..];
    assert t == [COLON] + rest && t[1..] == rest;
  }

  /** In terms of key and value: under a key without ':' and newline, a value without newline can be loaded
      exactly when its first field, with the newline, has at most 955 bytes. */
  lemma OneLineMeasuredIff(key: Bytes, val: Bytes)
    requires key != [] && |key| < KEY_SIZE && COLON !in key && NEWLINE !in key && NEWLINE !in val
    ensures Measured(key + [COLON] + val) <==> FieldLen(val + [NEWLINE], 0) <= 955
  {
    var s := key + [COLON] + val;
    FindIs(s, NEWLINE, |s|);
    assert s[..|s|] == s;
    assert s + [NEWLINE] == key + [COLON] + (val + [NEWLINE]);
    TokensAfterKey(key, val + [NEWLINE]);
    assert (s + [NEWLINE])[|key|] == COLON;
  }

  // ---- The two readers of the file ----

  datatype Use = Deleting | Starting

  ghost predicate Readable(u: Use, ls: seq<Bytes>) {
    if u.Deleting? then AllKeyed(ls) else AllLoadable(ls)
  }

  /** A condition on what an INSERT prints, up to its final newline. */
  ghost predicate Printable(u: Use, text: Bytes) {
    if u.Deleting? then Fielded(text) else Measured(text)
  }

  lemma PrintableIff(u: Use, text: Bytes)
    requires NUL !in text
    ensures Readable(u, Lines(text + [NEWLINE])) <==> Printable(u, text)
  {
    LinesFielded(text);
    LinesMeasured(text);
  }

  lemma {:induction false} ReadableAppend(u: Use, xs: seq<Bytes>, ys: seq<Bytes>)
    ensures Readable(u, xs + ys) <==> Readable(u, xs) && Readable(u, ys)
  {
    if xs == [] {
      assert xs + ys == ys;
    } else {
      assert (xs + ys)[1..] == xs[1..] + ys;
      ReadableAppend(u, xs[1..], ys);
    }
  }

  lemma {:induction false} ReadableOthers(u: Use, ls: seq<Bytes>, key: Bytes)
    requires Readable(u, ls)
    ensures Readable(u, OtherLines(ls, key))
  {
    if ls != [] {
      ReadableOthers(u, ls[1..], key);
      var kept := OtherLines(ls[1..], key);
      assert ([ls[0]] + kept)[1..] == kept && [] + kept == kept;
    }
  }

  // ---- Files that end in a newline ----

  predicate Closed(f: Bytes) {
    f == [] || Terminated(f)
  }

  predicate AllTerminated(ls: seq<Bytes>) {
    ls == [] || (Terminated(ls[0]) && AllTerminated(ls[1..]))
  }

  lemma {:induction false} LinesAppend(f: Bytes, g: Bytes)
    requires Closed(f)
    ensures Lines(f + g) == Lines(f) + Lines(g)
    decreases |f|
  {
    if f == [] {
      assert f + g == g;
    } else {
      var n := LineLen(f);
      var l, rest := f[..n], f[n..];
      ClosedRest(f);
      LinesAppend(rest, g);
      LinesStep(l, rest, true);
      LinesStep(l, rest + g, true);
      Regroup(l, rest, g);
      Regroup([l], Lines(rest), Lines(g));
    }
  }

  lemma ClosedRest(f: Bytes)
    requires Closed(f) && f != []
    ensures var n := LineLen(f); OneLine(f[..n]) && Terminated(f[..n]) && Closed(f[n..]) && f == f[..n] + f[n..]
  {
    var n := LineLen(f);
    assert n < |f| ==> f[n..][|f| - n - 1] == f[|f| - 1];
  }

  lemma {:induction false} LinesTerminated(f: Bytes)
    requires Closed(f)
    ensures AllTerminated(Lines(f))
    decreases |f|
  {
    if f != [] {
      ClosedRest(f);
      LinesTerminated(f[LineLen(f)..]);
    }
  }

  lemma {:induction false} OthersClosed(ls: seq<Bytes>, key: Bytes)
    requires AllTerminated(ls)
    ensures Closed(Flatten(OtherLines(ls, key)))
  {
    if ls != [] {
      OthersClosed(ls[1..], key);
      var kept := OtherLines(ls[1..], key);
      assert ls == [ls[0]] + ls[1..];
      OtherStep(ls[0], ls[1..], key);
      assert ([ls[0]] + kept)[1..] == kept && [] + kept == kept;
    }
  }

  // ---- One request ----

  /** Files that only store_data has written to. */
  ghost predicate Written(f: Bytes) {
    NUL !in f && Closed(f)
  }

  /** What store_data prints for an INSERT, up to its final newline. */
  function Printed(m: Bytes): (s: Bytes)
    requires Acceptable(m) && m[0] == INSERT
  {
    KeyIn(m) + [COLON] + CStr(m[PREFIX..][..|m| - PREFIX - 1])
  }

  /** The request makes store_data append a line: an INSERT of an absent key that meets no failure. */
  predicate Appends(s: LiveStore, r: Req) {
    r.pdu[0] == INSERT && r.fault == NoFault && Pad(KeyIn(r.pdu), KEY_SIZE) !in s.kernel.table
  }

  lemma AppendsIff(s: LiveStore, r: Req)
    requires r.pdu[0] == INSERT
    ensures Appends(s, r) <==> !IsError(Process(s, r.pdu, r.fault).reply)
  {
    InsertOutcome(s.kernel, Pad(KeyIn(r.pdu), KEY_SIZE), r.pdu[PREFIX..], r.fault);
  }

  lemma AppendedLine(m: Bytes)
    requires Acceptable(m) && m[0] == INSERT
    ensures InsertLine(KeyIn(m), m[PREFIX..]) == Printed(m) + [NEWLINE] && NUL !in Printed(m)
  {
  }

  lemma FileAfter(s: LiveStore, r: Req)
    ensures var f := Process(s, r.pdu, r.fault).store.file;
            f == if Appends(s, r) then s.file + (Printed(r.pdu) + [NEWLINE])
                 else if r.pdu[0] == DELETE && !IsError(Process(s, r.pdu, r.fault).reply)
                      then Flatten(OtherLines(Lines(s.file), KeyIn(r.pdu)))
                 else s.file
  {
    if r.pdu[0] == INSERT {
      AppendsIff(s, r);
      AppendedLine(r.pdu);
    }
  }

  /** Only an INSERT can spoil a file for either reader, and it does so exactly when what it prints is not
      printable. */
  lemma ReadableStep(u: Use, s: LiveStore, r: Req)
    requires Written(s.file) && Readable(u, Lines(s.file))
    ensures var f := Process(s, r.pdu, r.fault).store.file;
            Written(f) && (Readable(u, Lines(f)) <==> (Appends(s, r) ==> Printable(u, Printed(r.pdu))))
  {
    FileAfter(s, r);
    if Appends(s, r) {
      AppendedLine(r.pdu);
      AppendReadable(u, s.file, Printed(r.pdu));
    } else if r.pdu[0] == DELETE {
      DeleteReadable(u, s.file, KeyIn(r.pdu));
    }
  }

  lemma AppendReadable(u: Use, f: Bytes, text: Bytes)
    requires Written(f) && Readable(u, Lines(f)) && NUL !in text
    ensures var g := f + (text + [NEWLINE]);
            Written(g) && (Readable(u, Lines(g)) <==> Printable(u, text))
  {
    LinesAppend(f, text + [NEWLINE]);
    ReadableAppend(u, Lines(f), Lines(text + [NEWLINE]));
    PrintableIff(u, text);
    assert (f + (text + [NEWLINE]))[|f| + |text|] == NEWLINE;
  }

  lemma DeleteReadable(u: Use, f: Bytes, key: Bytes)
    requires Written(f) && Readable(u, Lines(f))
    ensures var g := Flatten(OtherLines(Lines(f), key));
            Written(g) && Readable(u, Lines(g))
  {
    LinesTerminated(f);
    OthersClosed(Lines(f), key);
    LinesAreLines(f);
    OtherLinesStayLines(Lines(f), key);
    LinesOfFlatten(OtherLines(Lines(f), key));
    LinesFlatten(f);
    OthersNulFree(Lines(f), key);
    ReadableOthers(u, Lines(f), key);
  }

  lemma {:induction false} OthersNulFree(ls: seq<Bytes>, key: Bytes)
    requires NUL !in Flatten(ls)
    ensures NUL !in Flatten(OtherLines(ls, key))
  {
    if ls != [] {
      OthersNulFree(ls[1..], key);
      assert ls == [ls[0]] + ls[1..];
      OtherStep(ls[0], ls[1..], key);
    }
  }

  // ---- Every run of complete requests ----

  /** Every file along the run can be read. */
  ghost predicate ReadableThroughout(u: Use, s: LiveStore, rs: seq<Req>) {
    Readable(u, Lines(Sequential(s, rs).store.file)) && (rs != [] ==> ReadableThroughout(u, s, rs[..|rs| - 1]))
  }

  /** Everything the run's INSERTs print is printable. */
  ghost predicate PrintsThroughout(u: Use, s: LiveStore, rs: seq<Req>) {
    rs != [] ==>
      var n := |rs| - 1;
      && PrintsThroughout(u, s, rs[..n])
      && (Appends(Sequential(s, rs[..n]).store, rs[n]) ==> Printable(u, Printed(rs[n].pdu)))
  }

  /** From a readable file, every file along a run is readable, for DELETE or for start-up, exactly when
      every INSERT that gets stored prints what is printable. */
  lemma {:induction false} RunReadableIff(u: Use, s: LiveStore, rs: seq<Req>)
    requires Written(s.file) && Readable(u, Lines(s.file))
    ensures ReadableThroughout(u, s, rs) <==> PrintsThroughout(u, s, rs)
    ensures PrintsThroughout(u, s, rs) ==>
              var f := Sequential(s, rs).store.file; Written(f) && Readable(u, Lines(f))
    decreases |rs|
  {
    if rs != [] {
      var n := |rs| - 1;
      RunReadableIff(u, s, rs[..n]);
      if PrintsThroughout(u, s, rs[..n]) {
        ReadableStep(u, Sequential(s, rs[..n]).store, rs[n]);
        SequentialLast(s, rs);
      }
    }
  }

  lemma {:induction false} PrintsPrefix(u: Use, s: LiveStore, rs: seq<Req>, k: nat)
    requires PrintsThroughout(u, s, rs) && k <= |rs|
    ensures PrintsThroughout(u, s, rs[..k])
    decreases |rs|
  {
    if k == |rs| {
      assert rs[..k] == rs;
    } else {
      PrintsPrefix(u, s, rs[..|rs| - 1], k);
      PrefixOfPrefix(rs, |rs| - 1, k);
    }
  }

  /** At every moment of every interleaving the file is that of some beginning of the queue's history. */
  lemma FileOfPrefix(s0: LiveStore, wires: seq<Bytes>, acts: seq<Pipeline.Action>) returns (w: World, n: nat)
    requires CanRun(Pipeline.Init(s0, wires), acts)
    ensures w == RunTo(Pipeline.Init(s0, wires), acts) && n <= |w.inserted|
    ensures w.store.file == Sequential(s0, w.inserted[..n]).store.file
    ensures w.pc.Lost? ==> !AllKeyed(Lines(w.store.file))
  {
    w := RunTo(Pipeline.Init(s0, wires), acts);
    RunInv(Pipeline.Init(s0, wires), acts, s0);
    n := if InFlight(w.pc) then |w.handed| - 1 else |w.handed|;
    HandedIsPrefix(w, 0);
    FileOfTurn(w, s0, n);
  }

  lemma FileOfTurn(w: World, s0: LiveStore, n: nat)
    requires if InFlight(w.pc) then FlightInv(w, s0) && n == |w.handed| - 1 else IdleInv(w, s0) && n == |w.handed|
    ensures w.store.file == Sequential(s0, w.handed[..n]).store.file
    ensures w.pc.Lost? ==> !AllKeyed(Lines(w.store.file))
  {
    assert w.handed[..|w.handed|] == w.handed;
  }

  /** In every interleaving of the server's threads, at every moment: as long as the queue's INSERTs print
      what is printable for DELETE, store_data never goes astray; as long as they do for start-up, a server
      started from the file as it is stays inside its buffers. */
  lemma ConcurrentlyReadable(u: Use, s0: LiveStore, wires: seq<Bytes>, acts: seq<Pipeline.Action>) returns (w: World)
    requires CanRun(Pipeline.Init(s0, wires), acts) && Written(s0.file) && Readable(u, Lines(s0.file))
    requires PrintsThroughout(u, s0, RunTo(Pipeline.Init(s0, wires), acts).inserted)
    ensures w == RunTo(Pipeline.Init(s0, wires), acts) && Written(w.store.file) && Readable(u, Lines(w.store.file))
    ensures u.Deleting? ==> !w.pc.Lost?
  {
    var n;
    w, n := FileOfPrefix(s0, wires, acts);
    PrintsPrefix(u, s0, w.inserted, n);
    RunReadableIff(u, s0, w.inserted[..n]);
  }

  /** What an INSERT under a new key appends. */
  lemma AppendedFile(s: LiveStore, key: Bytes, data: Bytes)
    requires KeyString(key) && 1 <= |data| <= MAX_PAYLOAD - PREFIX && Pad(key, KEY_SIZE) !in s.kernel.table
    ensures var m := Encode(InsertMsg(key, data));
            Acceptable(m) && Process(s, m, NoFault).store.file == s.file + InsertLine(key, data)
  {
    InsertPdu(key, data);
    PadThenCStr(key, KEY_SIZE);
    InsertOutcome(s.kernel, Pad(key, KEY_SIZE), data, NoFault);
    NewKeyChanges(s.kernel.table, Pad(key, KEY_SIZE), data);
  }

  /** A complete INSERT that spoils the file: key "k", value "a", newline, "b". */
  lemma SpoilingInsert()
    ensures var m := Encode(InsertMsg([107], [97, NEWLINE, 98, NUL]));
            && Acceptable(m)
            && var f := Process(Store(State(true, map[]), []), m, NoFault).store.file;
               f == [107, COLON, 97, NEWLINE, 98] + [NEWLINE] && !AllKeyed(Lines(f))
  {
    var key, data := [107], [97, NEWLINE, 98, NUL];
    AppendedFile(Store(State(true, map[]), []), key, data);
    SpoilingLine();
    SpoiledLines([107, COLON, 97, NEWLINE, 98]);
    LinesFielded([107, COLON, 97, NEWLINE, 98]);
  }

  lemma SpoilingLine()
    ensures InsertLine([107], [97, NEWLINE, 98, NUL]) == [107, COLON, 97, NEWLINE, 98] + [NEWLINE]
  {
    var val, data := [97, NEWLINE, 98], [97, NEWLINE, 98, NUL];
    assert data[..3] == val && val[..3] == val;
    FindIs(val, NUL, 3);
  }

  lemma SpoiledLines(s: Bytes)
    requires s == [107, COLON, 97, NEWLINE, 98]
    ensures !Fielded(s)
  {
    FindIs(s, NEWLINE, 3);
    var t := s[4..];
    assert t == [98];
    FindIs(t, NEWLINE, 1);
    assert t[..1] == t;
  }

  /** So does every INSERT under the key the shipped client sends for an empty input line. */
  lemma NewlineKeySpoils(val: Bytes)
    ensures !AllKeyed(Lines(LineOf([NEWLINE], val)))
  {
    var s := [NEWLINE] + [COLON] + val;
    FindIs(s, NEWLINE, 0);
    InsertLineKeyedIff([NEWLINE], val);
  }

  /** A complete INSERT after which start-up overruns its buffer: key "k" and any 955 plain bytes, stored as
      956 with their NUL; replayed with the newline they make a PDU of 1025 bytes. */
  lemma OverlongInsert(val: Bytes)
    requires Plain(val) && |val| == 955
    ensures var m := Encode(InsertMsg([107], val + [NUL]));
            && Acceptable(m)
            && !AllLoadable(Lines(Process(Store(State(true, map[]), []), m, NoFault).store.file))
  {
    var data := val + [NUL];
    AppendedFile(Store(State(true, map[]), []), [107], data);
    PlainInsertLine([107], val);
    assert [] + LineOf([107], val) == LineOf([107], val);
    InsertLineLoadableIff([107], val);
    OneLineMeasuredIff([107], val);
    WholeField(val + [NEWLINE]);
  }

  /** A value with a ':' is stored whole, mirrored whole, and back after a full restart only up to the ':'. */
  lemma ColonLost(key: Bytes, v: Bytes, rest: Bytes)
    requires WfKey(key) && v != [] && COLON !in v && NUL !in v && NEWLINE !in v && NUL !in rest && NEWLINE !in rest
    requires |v + [COLON] + rest| < MAX_PAYLOAD - PREFIX
    ensures var val := v + [COLON] + rest;
            var m := Encode(InsertMsg(key, val + [NUL]));
            && Acceptable(m)
            && var s := Process(Store(State(true, map[]), []), m, NoFault).store;
               && s.file == LineOf(key, val)
               && Boot(Store(State(false, map[]), s.file), []).kernel.table == map[Pad(key, KEY_SIZE) := v + [NUL]]
  {
    var val := v + [COLON] + rest;
    AppendedFile(Store(State(true, map[]), []), key, val + [NUL]);
    PlainInsertLine(key, val);
    assert [] + LineOf(key, val) == LineOf(key, val);
    ColonCuts(key, v, rest);
    BootOne(LineOf(key, val), Pad(key, KEY_SIZE), v + [NUL]);
  }

  lemma BootOne(file: Bytes, k: Bytes, d: Bytes)
    requires Replayed(Lines(file)) == [Insert(k, d)]
    ensures Boot(Store(State(false, map[]), file), []).kernel.table == map[k := d]
  {
    var r := Insert(k, d);
    assert [r][1..] == [];
    assert Kernel.Serve(State(true, map[]), r, NoFault).state == State(true, map[k := d]);
    assert Replay(State(true, map[]), [r], []) == State(true, map[k := d]);
  }

  lemma WholeField(s: Bytes)
    requires s != [] && COLON !in s
    ensures Tokens(s) == [s]
  {
    FindIs(s, COLON, |s|);
    assert s[..|s|] == s && s[|s|..] == [];
    assert Tokens(s) == [s] + Tokens([]);
  }
}
