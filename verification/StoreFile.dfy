/** The text file behind the table: what store_data writes to it and what load_stored_values reads. */
module StoreFile {
  import opened CString
  import opened Wire
  import opened Kernel

  // ---- Entries and their lines ----

  /** One stored pair. `val` has no terminator; `reloaded` says that the table's copy came from the file. */
  datatype Entry = Entry(key: Bytes, val: Bytes, reloaded: bool)

  predicate Plain(s: Bytes) {
    NUL !in s && COLON !in s && NEWLINE !in s
  }

  predicate WfKey(k: Bytes) {
    k != [] && |k| < KEY_SIZE && Plain(k)
  }

  /** Values whose data_bytes is in 1..955, so that a reloaded copy (one byte longer) still fits. */
  predicate WfVal(v: Bytes) {
    |v| + 2 <= MAX_PAYLOAD - PREFIX && Plain(v)
  }

  predicate WfEntry(e: Entry) {
    WfKey(e.key) && WfVal(e.val)
  }

  function LineOf(key: Bytes, val: Bytes): (l: Bytes)
  {
    key + [COLON] + val + [NEWLINE]
  }

  function EntryLines(es: seq<Entry>): (ls: seq<Bytes>)
    ensures |ls| == |es|
    ensures forall i | 0 <= i < |es| :: ls[i] == LineOf(es[i].key, es[i].val)
  {
    if es == [] then [] else [LineOf(es[0].key, es[0].val)] + EntryLines(es[1..])
  }

  function Serialize(es: seq<Entry>): (f: Bytes)
  {
    Flatten(EntryLines(es))
  }

  ghost predicate AllWf(es: seq<Entry>) {
    forall i | 0 <= i < |es| :: WfEntry(es[i])
  }

  lemma SerializeAppend(es: seq<Entry>, e: Entry)
    ensures Serialize(es + [e]) == Serialize(es) + LineOf(e.key, e.val)
  {
    assert EntryLines(es + [e]) == EntryLines(es) + [LineOf(e.key, e.val)];
    FlattenAppend(EntryLines(es), [LineOf(e.key, e.val)]);
    assert Flatten([LineOf(e.key, e.val)]) == LineOf(e.key, e.val) + Flatten([]);
  }

  lemma {:induction false} EntryLinesAreLines(es: seq<Entry>)
    requires AllWf(es)
    ensures LineSeq(EntryLines(es))
  {
    if es != [] {
      assert WfEntry(es[0]);
      var l := EntryLines(es)[0];
      assert l[..|l| - 1] == es[0].key + [COLON] + es[0].val;
      EntryLinesAreLines(es[1..]);
      assert EntryLines(es)[1..] == EntryLines(es[1..]);
    }
  }

  lemma LinesOfSerialize(es: seq<Entry>)
    requires AllWf(es)
    ensures Lines(Serialize(es)) == EntryLines(es)
  {
    EntryLinesAreLines(es);
    LinesOfFlatten(EntryLines(es));
  }

  lemma {:induction false} SerializeHasNoNul(es: seq<Entry>)
    requires AllWf(es)
    ensures NUL !in Serialize(es)
  {
    if es != [] {
      assert WfEntry(es[0]);
      SerializeHasNoNul(es[1..]);
      assert EntryLines(es)[1..] == EntryLines(es[1..]);
    }
  }

  // ---- DELETE: the two-pass rewrite ----

  /** strtok's first token of a line copied without a terminator; None when no ':' ends it inside the
      copy. */
  function FirstField(line: Bytes): (t: Option<Bytes>)
  {
    if line == [] then None
    else if line[0] == COLON then FirstField(line[1..])
    else
      var n := Find(line, COLON);
      if n == |line| then None else Some(line[..n])
  }

  /** Files every line of which the DELETE pass can tokenise. */
  ghost predicate Rewritable(f: Bytes) {
    NUL !in f && AllKeyed(Lines(f))
  }

  predicate AllKeyed(ls: seq<Bytes>) {
    ls == [] || (FirstField(ls[0]).Some? && AllKeyed(ls[1..]))
  }

  /** What the DELETE pass still has to write when `f` is the unread part of the file. */
  ghost function Pending(f: Bytes, key: Bytes): Bytes {
    Flatten(OtherLines(Lines(f), key))
  }

  /** The field is strtok's first token. */
  lemma {:induction false} FirstFieldIsToken(l: Bytes)
    ensures FirstField(l).Some? ==> Tokens(l) != [] && Tokens(l)[0] == FirstField(l).value
  {
    if l != [] && l[0] == COLON {
      FirstFieldIsToken(l[1..]);
    }
  }

  /** The lines whose first token is not the key. */
  function NotStarting(ls: seq<Bytes>, key: Bytes): (kept: seq<Bytes>) {
    if ls == [] then []
    else (if Tokens(ls[0]) != [] && Tokens(ls[0])[0] == key then [] else [ls[0]]) + NotStarting(ls[1..], key)
  }

  lemma {:induction false} OthersNotStarting(ls: seq<Bytes>, key: Bytes)
    requires AllKeyed(ls)
    ensures OtherLines(ls, key) == NotStarting(ls, key)
  {
    if ls != [] {
      FirstFieldIsToken(ls[0]);
      OthersNotStarting(ls[1..], key);
    }
  }

  function OtherLines(ls: seq<Bytes>, key: Bytes): (kept: seq<Bytes>)
  {
    if ls == [] then []
    else (if FirstField(ls[0]) == Some(key) then [] else [ls[0]]) + OtherLines(ls[1..], key)
  }

  lemma {:induction false} OtherLinesStayLines(ls: seq<Bytes>, key: Bytes)
    requires LineSeq(ls)
    ensures LineSeq(OtherLines(ls, key))
  {
    if ls != [] {
      OtherLinesStayLines(ls[1..], key);
      var kept := OtherLines(ls[1..], key);
      assert kept != [] ==> ls[1..] != [];
      assert ([ls[0]] + kept)[1..] == kept;
      assert [] + kept == kept;
    }
  }

  /** One getline at a read position before the end of the file. */
  method GetLine(f: Bytes, pos: nat) returns (line: Bytes, next: nat)
    requires pos < |f|
    ensures next == pos + LineLen(f[pos..]) && line == f[pos..next]
  {
    next := pos + LineLen(f[pos..]);
    line := f[pos..next];
  }

  lemma NextLine(f: Bytes, pos: nat, next: nat) returns (line: Bytes, rest: seq<Bytes>)
    requires pos < |f| && next == pos + LineLen(f[pos..])
    ensures line == f[pos..next] && rest == Lines(f[next..]) && Lines(f[pos..]) == [line] + rest
  {
    var unread, n := f[pos..], LineLen(f[pos..]);
    assert unread[..n] == f[pos..next] && unread[n..] == f[next..];
    line, rest := f[pos..next], Lines(f[next..]);
  }

  /** store_data's DELETE: every line whose first token is not the key is copied to the temporary file,
      which is then copied back. The new file's lines are exactly those lines, in order. None when
      strtok finds no token ended by ':' in the copy of some line and runs out of it. */
  method RewriteWithout(file: Bytes, key: Bytes) returns (newFile: Option<Bytes>)
    requires NUL !in file
    ensures newFile.Some? <==> AllKeyed(Lines(file))
    ensures newFile.Some? ==> newFile.value == Flatten(OtherLines(Lines(file), key)) && NUL !in newFile.value
    ensures newFile.Some? ==> Lines(newFile.value) == OtherLines(Lines(file), key) == NotStarting(Lines(file), key)
  {
    var temp := KeepOthers(file, key);
    if temp.None? { return None; }
    var copied := CopyBack(temp.value);
    newFile := Some(copied);
    OthersNotStarting(Lines(file), key);
    LinesAreLines(file);
    OtherLinesStayLines(Lines(file), key);
    LinesOfFlatten(OtherLines(Lines(file), key));
  }

  /** First pass: source file to temporary file. */
  method KeepOthers(file: Bytes, key: Bytes) returns (kept: Option<Bytes>)
    requires NUL !in file
    ensures kept.Some? <==> AllKeyed(Lines(file))
    ensures kept.Some? ==> kept.value == Flatten(OtherLines(Lines(file), key)) && NUL !in kept.value
  {
    var pos, temp := 0, [];
    assert file[0..] == file;
    while pos < |file|
      invariant pos <= |file| && (AllKeyed(Lines(file)) <==> AllKeyed(Lines(file[pos..])))
      invariant temp + Pending(file[pos..], key) == Pending(file, key)
      invariant NUL !in temp
    {
      var line, next := GetLine(file, pos);
      PendingStep(file, pos, next, key, temp);
      CStrOfLine(file, pos, next);
      var token := FirstField(line);
      if token.None? { return None; }
      if token.value != key {
        temp := temp + CStr(line);
      }
      pos := next;
    }
    assert file[pos..] == [];
    assert temp + [] == temp;
    kept := Some(temp);
  }

  /** Second pass: temporary file back to the source file. */
  method CopyBack(temp: Bytes) returns (newFile: Bytes)
    requires NUL !in temp
    ensures newFile == temp
  {
    var pos := 0;
    newFile := [];
    while pos < |temp|
      invariant pos <= |temp| && newFile == temp[..pos]
    {
      var line, next := GetLine(temp, pos);
      CStrOfLine(temp, pos, next);
      newFile := newFile + CStr(line);
      pos := next;
    }
  }

  lemma CStrOfLine(f: Bytes, pos: nat, next: nat)
    requires pos <= next <= |f| && NUL !in f
    ensures CStr(f[pos..next]) == f[pos..next] && NUL !in f[pos..next]
  {
    var l := f[pos..next];
    FindIs(l, NUL, |l|);
    assert l[..|l|] == l;
  }

  lemma PendingStep(f: Bytes, pos: nat, next: nat, key: Bytes, temp: Bytes)
    requires pos < |f| && next == pos + LineLen(f[pos..])
    ensures AllKeyed(Lines(f[pos..])) <==> FirstField(f[pos..next]).Some? && AllKeyed(Lines(f[next..]))
    ensures temp + Pending(f[pos..], key)
            == (if FirstField(f[pos..next]) == Some(key) then temp else temp + f[pos..next]) + Pending(f[next..], key)
  {
    var line, rest := NextLine(f, pos, next);
    OtherStep(line, rest, key);
    Regrouped(temp, line, Pending(f[next..], key), FirstField(line) == Some(key), Pending(f[pos..], key));
  }

  lemma Regrouped(temp: Bytes, line: Bytes, more: Bytes, dropped: bool, pending: Bytes)
    requires pending == (if dropped then [] else line) + more
    ensures temp + pending == (if dropped then temp else temp + line) + more
  {
    assert [] + more == more && temp + (line + more) == temp + line + more;
  }

  lemma OtherStep(l: Bytes, rest: seq<Bytes>, key: Bytes)
    ensures AllKeyed([l] + rest) <==> FirstField(l).Some? && AllKeyed(rest)
    ensures Flatten(OtherLines([l] + rest, key))
            == (if FirstField(l) == Some(key) then [] else l) + Flatten(OtherLines(rest, key))
  {
    var ls, kept := [l] + rest, OtherLines(rest, key);
    assert ls[1..] == rest;
    if FirstField(l) == Some(key) {
      assert OtherLines(ls, key) == kept;
    } else {
      assert OtherLines(ls, key) == [l] + kept && ([l] + kept)[1..] == kept;
    }
  }

  // ---- On well-formed files ----

  function Without(es: seq<Entry>, key: Bytes): (r: seq<Entry>)
  {
    if es == [] then []
    else (if es[0].key == key then [] else [es[0]]) + Without(es[1..], key)
  }

  lemma FirstFieldOfLine(key: Bytes, val: Bytes)
    requires WfKey(key)
    ensures FirstField(LineOf(key, val)) == Some(key)
  {
    var l := LineOf(key, val);
    assert l == key + [COLON] + (val + [NEWLINE]);
    FindAfter(key, COLON, val + [NEWLINE]);
    assert l[0] == key[0] && l[..|key|] == key;
  }

  lemma {:induction false} EntryLinesKeyed(es: seq<Entry>)
    requires AllWf(es)
    ensures AllKeyed(EntryLines(es))
  {
    if es != [] {
      assert WfEntry(es[0]);
      FirstFieldOfLine(es[0].key, es[0].val);
      EntryLinesKeyed(es[1..]);
      assert EntryLines(es)[1..] == EntryLines(es[1..]);
    }
  }

  lemma SerializedIsRewritable(es: seq<Entry>)
    requires AllWf(es)
    ensures Rewritable(Serialize(es))
  {
    LinesOfSerialize(es);
    SerializeHasNoNul(es);
    EntryLinesKeyed(es);
  }

  /** On a well-formed file the rewrite removes the key's entry and nothing else. */
  lemma {:induction false} DeleteRemovesEntry(es: seq<Entry>, key: Bytes)
    requires AllWf(es)
    ensures Flatten(OtherLines(EntryLines(es), key)) == Serialize(Without(es, key))
  {
    if es != [] {
      var e := es[0];
      assert WfEntry(e);
      FirstFieldOfLine(e.key, e.val);
      DeleteRemovesEntry(es[1..], key);
      assert EntryLines(es) == [LineOf(e.key, e.val)] + EntryLines(es[1..]);
      OtherStep(LineOf(e.key, e.val), EntryLines(es[1..]), key);
      if e.key != key {
        var w := Without(es, key);
        assert w == [e] + Without(es[1..], key) && w[1..] == Without(es[1..], key);
        assert EntryLines(w)[1..] == EntryLines(w[1..]);
      } else {
        assert Without(es, key) == Without(es[1..], key);
      }
    }
  }

  // ---- Replay: what load_stored_values sends for a line ----

  /** The struct's key field after strncpy of the first token. */
  function TokenKey(line: Bytes): (k: Bytes)
    ensures |k| == KEY_SIZE
  {
    var ts := Tokens(line);
    if ts == [] then Zeros(KEY_SIZE)
    else if |ts[0]| <= KEY_SIZE then Pad(ts[0], KEY_SIZE)
    else ts[0][..KEY_SIZE]
  }

  /** The struct's data after strncpy of the second token with its terminator. */
  function TokenData(line: Bytes): (d: Bytes)
  {
    var ts := Tokens(line);
    if |ts| < 2 then [] else ts[1] + [NUL]
  }

  /** What start-up takes from a line, by parts: the first field cut or padded to 64 bytes, the second, and
      nothing of the others. */
  lemma LineParts(colons: Bytes, k: Bytes, between: Bytes, v: Bytes, rest: Bytes)
    requires AllColons(colons) && k != [] && COLON !in k && between != [] && AllColons(between)
    requires v != [] && COLON !in v && (rest != [] ==> rest[0] == COLON)
    ensures var l := colons + k + (between + v + rest);
            && TokenKey(l) == (if |k| <= KEY_SIZE then Pad(k, KEY_SIZE) else k[..KEY_SIZE])
            && TokenData(l) == v + [NUL]
  {
    TokensOfParts(colons, k, between + v + rest);
    TokensOfParts(between, v, rest);
  }

  /** With one field there is no value, with none the key is empty as well. */
  lemma LineWithoutValue(colons: Bytes, k: Bytes, after: Bytes)
    requires AllColons(colons) && k != [] && COLON !in k && AllColons(after)
    ensures TokenData(colons + k + after) == [] && TokenData(colons) == [] && TokenKey(colons) == Zeros(KEY_SIZE)
    ensures TokenKey(colons + k + after) == if |k| <= KEY_SIZE then Pad(k, KEY_SIZE) else k[..KEY_SIZE]
  {
    TokensOfParts(colons, k, after);
    TokensNone(after);
    TokensNone(colons);
  }

  /** Lines whose INSERT the loader can build and hand to the kernel. */
  predicate Loadable(line: Bytes) {
    NUL in TokenKey(line) && PREFIX + |TokenData(line)| <= MAX_PAYLOAD
  }

  ghost predicate AllLoadable(ls: seq<Bytes>) {
    ls == [] || ((COLON in ls[0] ==> Loadable(ls[0])) && AllLoadable(ls[1..]))
  }

  /** The regular expression ".*:.*" picks the lines holding a colon; each becomes one INSERT. */
  function Replayed(ls: seq<Bytes>): (rs: seq<Request>)
  {
    if ls == [] then []
    else (if COLON in ls[0] then [Insert(TokenKey(ls[0]), TokenData(ls[0]))] else []) + Replayed(ls[1..])
  }

  /** A line without ':' sends nothing, any other one INSERT; and the lines are dealt with one by one. */
  lemma LineSends(l: Bytes)
    ensures Replayed([l]) == if COLON in l then [Insert(TokenKey(l), TokenData(l))] else []
  {
    assert [l][1..] == [];
  }

  lemma {:induction false} ReplayedAppend(xs: seq<Bytes>, ys: seq<Bytes>)
    ensures Replayed(xs + ys) == Replayed(xs) + Replayed(ys)
  {
    if xs == [] {
      assert xs + ys == ys;
    } else {
      assert (xs + ys)[0] == xs[0] && (xs + ys)[1..] == xs[1..] + ys;
      ReplayedAppend(xs[1..], ys);
    }
  }

  lemma ParseLine(key: Bytes, val: Bytes)
    requires WfKey(key) && WfVal(val)
    ensures var l := LineOf(key, val);
            && COLON in l && Loadable(l)
            && TokenKey(l) == Pad(key, KEY_SIZE) && TokenData(l) == val + [NEWLINE, NUL]
  {
    var l := LineOf(key, val);
    assert l == key + [COLON] + (val + [NEWLINE]);
    TokensOfPair(key, val + [NEWLINE]);
    assert Tokens(l)[0] == key && Tokens(l)[1] == val + [NEWLINE];
    assert TokenKey(l)[|key|] == NUL;
    assert l[|key|] == COLON;
    assert TokenData(l) == val + [NEWLINE, NUL];
  }

  // ---- Which pairs survive the file at all ----

  lemma {:induction false} TokenNewlines(s: Bytes)
    requires s != [] ==> NEWLINE !in s[..|s| - 1]
    ensures |Tokens(s)| >= 2 ==> NEWLINE !in Tokens(s)[0]
    ensures forall i | 0 <= i < |Tokens(s)| :: OneLine(Tokens(s)[i])
    decreases |s|
  {
    if s != [] {
      if s[0] == COLON {
        if |s| > 1 {
          assert s[1..][..|s| - 2] == s[..|s| - 1][1..];
        }
        TokenNewlines(s[1..]);
      } else {
        var n := Find(s, COLON);
        if n < |s| {
          assert s[n..][..|s| - n - 1] == s[..|s| - 1][n..];
          assert s[..n] == s[..|s| - 1][..n];
        }
        TokenNewlines(s[n..]);
        assert s[..n][..n - 1] == s[..|s| - 1][..n - 1];
      }
    }
  }

  lemma {:induction false} TokenBytes(s: Bytes, i: nat, b: Byte)
    requires i < |Tokens(s)| && b in Tokens(s)[i]
    ensures b in s
    decreases |s|
  {
    if s[0] == COLON {
      TokenBytes(s[1..], i, b);
    } else if i > 0 {
      TokenBytes(s[Find(s, COLON)..], i - 1, b);
    }
  }

  lemma {:induction false} ReplayedLine(ls: seq<Bytes>) returns (j: nat)
    requires Replayed(ls) != []
    ensures j < |ls| && COLON in ls[j] && Replayed(ls)[0] == Insert(TokenKey(ls[j]), TokenData(ls[j]))
  {
    if COLON in ls[0] {
      j := 0;
    } else {
      j := ReplayedLine(ls[1..]);
      j := j + 1;
    }
  }

  /** What store_data appends for an INSERT of `data` under `key`. */
  function InsertLine(key: Bytes, data: Bytes): (l: Bytes)
    requires data != []
  {
    LineOf(key, CStr(data[..|data| - 1]))
  }

  /** By position: the data up to their first NUL, but never their last byte. */
  lemma InsertLineIs(key: Bytes, data: Bytes, m: nat)
    requires m < |data| && NUL !in data[..m] && (m < |data| - 1 ==> data[m] == NUL)
    ensures InsertLine(key, data) == key + [COLON] + data[..m] + [NEWLINE]
  {
    var d := data[..|data| - 1];
    assert d[..m] == data[..m];
    assert forall i | 0 <= i < m :: d[i] == data[..m][i];
    FindIs(d, NUL, m);
  }

  /** A stored value as getline hands it back: a newline before its last byte. */
  function WithNewline(data: Bytes): (d: Bytes)
    requires data != []
  {
    data[..|data| - 1] + [NEWLINE] + data[|data| - 1..]
  }

  /** The line store_data writes for a pair makes start-up send exactly that pair back, its value with one
      newline, in a PDU that fits the netlink buffer. */
  ghost predicate Survives(key: Bytes, data: Bytes)
    requires data != [] && KeyString(key)
  {
    var ls := Lines(InsertLine(key, data));
    Replayed(ls) == [Insert(Pad(key, KEY_SIZE), WithNewline(data))] && AllLoadable(ls)
  }

  /** Of all the pairs a complete INSERT can bring, exactly these survive: the key is not empty, the data
      end in NUL and are at most 955 bytes, and neither key nor value holds a NUL, a colon or a newline. */
  lemma SurvivesIff(key: Bytes, data: Bytes)
    requires KeyString(key) && 1 <= |data| <= MAX_PAYLOAD - PREFIX
    ensures Survives(key, data)
            <==> WfKey(key) && data[|data| - 1] == NUL && WfVal(data[..|data| - 1])
  {
    var val := data[..|data| - 1];
    var ls := Lines(InsertLine(key, data));
    assert data == val + [data[|data| - 1]];
    if WfKey(key) && data[|data| - 1] == NUL && WfVal(val) {
      PlainReloads(key, val);
      FindIs(val, NUL, |val|);
      assert CStr(val) == val;
      assert WithNewline(data) == val + [NEWLINE, NUL];
    }
    if Survives(key, data) {
      var j := ReplayedLine(ls);
      assert TokenData(ls[j]) == WithNewline(data);
      assert data[|data| - 1] == WithNewline(data)[|data|] == NUL;
      assert WithNewline(data) == val + [NEWLINE, NUL];
      LoadableAt(ls, j);
      ReloadNeedsPlain(key, val, InsertLine(key, data));
    }
  }

  lemma {:induction false} LoadableAt(ls: seq<Bytes>, j: nat)
    requires AllLoadable(ls) && j < |ls| && COLON in ls[j]
    ensures Loadable(ls[j])
  {
    if j > 0 {
      LoadableAt(ls[1..], j - 1);
    }
  }

  lemma PlainReloads(key: Bytes, val: Bytes)
    requires WfKey(key) && WfVal(val)
    ensures Replayed(Lines(LineOf(key, val))) == [Insert(Pad(key, KEY_SIZE), val + [NEWLINE, NUL])]
    ensures AllLoadable(Lines(LineOf(key, val)))
  {
    var l := LineOf(key, val);
    SingleLine(key, val);
    ParseLine(key, val);
    var ls := [l];
    assert ls[1..] == [];
  }

  /** What start-up sends for a stored value whatever ':'s it holds: under a plain key, the value's first field,
      which has getline's newline only if no ':' follows it. */
  lemma ValueReloads(key: Bytes, val: Bytes)
    requires WfKey(key) && NUL !in val && NEWLINE !in val
    ensures var fields := Tokens(val + [NEWLINE]);
            fields != [] && Replayed(Lines(LineOf(key, val))) == [Insert(Pad(key, KEY_SIZE), fields[0] + [NUL])]
  {
    var l := LineOf(key, val);
    OneValueLine(key, val);
    TokenOfValue(val);
    TokensOfLine(key, val);
    assert l[|key|] == COLON;
    var ls := [l];
    assert ls[1..] == [];
  }

  lemma TokensOfLine(key: Bytes, val: Bytes)
    requires key != [] && COLON !in key
    ensures Tokens(LineOf(key, val)) == [key] + Tokens(val + [NEWLINE])
  {
    var rest := [COLON] + (val + [NEWLINE]);
    assert LineOf(key, val) == [] + key + rest;
    TokensOfParts([], key, rest);
    assert rest[1..] == val + [NEWLINE];
  }

  lemma {:induction false} TokenOfValue(val: Bytes)
    ensures Tokens(val + [NEWLINE]) != []
  {
    var s := val + [NEWLINE];
    if val != [] && val[0] == COLON {
      assert s[1..] == val[1..] + [NEWLINE];
      TokenOfValue(val[1..]);
    }
  }

  lemma OneValueLine(key: Bytes, val: Bytes)
    requires NEWLINE !in key && NEWLINE !in val
    ensures Lines(LineOf(key, val)) == [LineOf(key, val)]
  {
    var body := key + [COLON] + val;
    FindAfter(body, NEWLINE, []);
    var l := LineOf(key, val);
    assert body + [NEWLINE] + [] == l;
    assert l[..|body| + 1] == l && l[|body| + 1..] == [];
  }

  /** A value with a ':' comes back cut before it. */
  lemma ColonCuts(key: Bytes, v: Bytes, rest: Bytes)
    requires WfKey(key) && v != [] && COLON !in v
    requires NUL !in v && NEWLINE !in v && NUL !in rest && NEWLINE !in rest
    ensures Replayed(Lines(LineOf(key, v + [COLON] + rest))) == [Insert(Pad(key, KEY_SIZE), v + [NUL])]
  {
    ValueReloads(key, v + [COLON] + rest);
    FirstOfValue(v, rest);
  }

  lemma FirstOfValue(v: Bytes, rest: Bytes)
    requires v != [] && COLON !in v
    ensures Tokens(v + [COLON] + rest + [NEWLINE]) != [] && Tokens(v + [COLON] + rest + [NEWLINE])[0] == v
  {
    assert v + [COLON] + rest + [NEWLINE] == [] + v + ([COLON] + rest + [NEWLINE]);
    TokensOfParts([], v, [COLON] + rest + [NEWLINE]);
  }

  lemma SingleLine(key: Bytes, val: Bytes)
    requires Plain(key) && Plain(val)
    ensures Lines(LineOf(key, val)) == [LineOf(key, val)]
  {
    OneValueLine(key, val);
  }

  lemma ReloadNeedsPlain(key: Bytes, val: Bytes, file: Bytes)
    requires KeyString(key) && |val| + 2 <= MAX_PAYLOAD - PREFIX
    requires file == LineOf(key, CStr(val))
    requires Replayed(Lines(file)) == [Insert(Pad(key, KEY_SIZE), val + [NEWLINE, NUL])]
    ensures WfKey(key) && WfVal(val)
  {
    var ls := Lines(file);
    var j := ReplayedLine(ls);
    var l := ls[j];
    LinesAreLines(file);
    LineSeqAt(ls, j);
    TokenNewlines(l);
    var ts := Tokens(l);
    DataOfToken(l, val);
    TokenIsClean(file, l, 0);
    TokenIsClean(file, l, 1);
    TokenKeyIs(l, key);
  }

  lemma DataOfToken(l: Bytes, val: Bytes)
    requires TokenData(l) == val + [NEWLINE, NUL]
    ensures |Tokens(l)| >= 2 && Tokens(l)[1] == val + [NEWLINE] && Tokens(l)[1][..|val|] == val
  {
    var d := TokenData(l);
    assert |d| == |val| + 2;
    assert d[..|val| + 1] == val + [NEWLINE];
    assert |Tokens(l)| >= 2 && d[..|val| + 1] == Tokens(l)[1];
  }

  lemma TokenIsClean(file: Bytes, l: Bytes, i: nat)
    requires NUL !in file && l in Lines(file) && i < |Tokens(l)|
    ensures NUL !in Tokens(l)[i] && COLON !in Tokens(l)[i] && Tokens(l)[i] != []
  {
    assert Tokens(l)[i] in Tokens(l);
    if NUL in Tokens(l)[i] {
      TokenBytes(l, i, NUL);
      LineBytes(file, l, NUL);
    }
  }

  lemma TokenKeyIs(l: Bytes, key: Bytes)
    requires Tokens(l) != [] && NUL !in Tokens(l)[0] && KeyString(key)
    requires TokenKey(l) == Pad(key, KEY_SIZE)
    ensures Tokens(l)[0] == key
  {
    var t := Tokens(l)[0];
    assert TokenKey(l)[|key|] == NUL;
    assert |t| <= KEY_SIZE;
    PadInjective(t, key, KEY_SIZE);
  }
}
