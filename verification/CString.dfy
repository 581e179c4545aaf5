/** Bytes, C strings and the C library scanners the service relies on: strlen, getline and strtok. */
module CString {

  type Byte = b: int | 0 <= b < 256
  type Bytes = seq<Byte>

  const NUL: Byte := 0
  const NEWLINE: Byte := 10
  const COLON: Byte := 58

  datatype Option<+T> = None | Some(value: T)

  /** Index of the first `b` in `s`, or |s| when there is none. */
  function Find(s: Bytes, b: Byte): (n: nat)
    ensures n <= |s|
    ensures forall i | 0 <= i < n :: s[i] != b
    ensures n < |s| ==> s[n] == b
  {
    if s == [] || s[0] == b then 0 else 1 + Find(s[1..], b)
  }

  /** A position with no `b` before it and a `b` (or the end) at it is the one `Find` returns. */
  lemma FindIs(s: Bytes, b: Byte, n: nat)
    requires n <= |s| && forall i | 0 <= i < n :: s[i] != b
    requires n < |s| ==> s[n] == b
    ensures Find(s, b) == n
  {
  }

  lemma FindAfter(a: Bytes, b: Byte, rest: Bytes)
    requires b !in a
    ensures Find(a + [b] + rest, b) == |a|
  {
    var s := a + [b] + rest;
    assert s[..|a|] == a;
    FindIs(s, b, |a|);
  }

  /** The C string starting at the front of `s`: everything before the first NUL. */
  function CStr(s: Bytes): (r: Bytes)
    ensures NUL !in r && |r| <= |s|
  {
    s[..Find(s, NUL)]
  }

  lemma CStrOfPadded(k: Bytes, rest: Bytes)
    requires NUL !in k
    requires rest != [] ==> rest[0] == NUL
    ensures CStr(k + rest) == k
  {
    var s := k + rest;
    assert s[..|k|] == k;
    FindIs(s, NUL, |k|);
  }

  lemma CStrOfPrefix(s: Bytes, n: nat)
    requires |CStr(s)| < n <= |s|
    ensures CStr(s[..n]) == CStr(s)
  {
    var m := Find(s, NUL);
    assert s[..n][..m] == s[..m];
    FindIs(s[..n], NUL, m);
  }

  lemma CStrExtends(s: Bytes, rest: Bytes)
    requires NUL in s
    ensures CStr(s + rest) == CStr(s)
    ensures Find(s + rest, NUL) == Find(s, NUL) < |s|
  {
    var n := Find(s, NUL);
    assert (s + rest)[..n] == s[..n];
    FindIs(s + rest, NUL, n);
  }

  function Zeros(n: nat): (z: Bytes)
    ensures |z| == n && forall i | 0 <= i < n :: z[i] == NUL
  {
    seq(n, _ => NUL)
  }

  /** calloc'ed storage of n bytes with `s` copied to its front. */
  function Pad(s: Bytes, n: nat): (p: Bytes)
    requires |s| <= n
    ensures |p| == n && p[..|s|] == s
  {
    s + Zeros(n - |s|)
  }

  lemma PadThenCStr(k: Bytes, n: nat)
    requires NUL !in k && |k| <= n
    ensures CStr(Pad(k, n)) == k
  {
    CStrOfPadded(k, Zeros(n - |k|));
  }

  lemma PadInjective(j: Bytes, k: Bytes, n: nat)
    requires NUL !in j && |j| <= n && NUL !in k && |k| <= n
    ensures Pad(j, n) == Pad(k, n) <==> j == k
  {
    PadThenCStr(j, n);
    PadThenCStr(k, n);
  }

  /** Bytes written over a buffer at an offset (memcpy into the middle of a buffer). */
  function Overlay(buf: Bytes, off: nat, src: Bytes): (r: Bytes)
    requires off + |src| <= |buf|
    ensures |r| == |buf|
    ensures r[..off] == buf[..off] && r[off..off + |src|] == src && r[off + |src|..] == buf[off + |src|..]
  {
    buf[..off] + src + buf[off + |src|..]
  }

  /** Length of the line at the front of `f`, newline included when there is one. */
  function LineLen(f: Bytes): (n: nat)
    requires f != []
    ensures 0 < n <= |f|
  {
    var n := Find(f, NEWLINE);
    if n == |f| then n else n + 1
  }

  /** Repeated getline until end of file: each line keeps its newline; the last one may lack it. */
  function Lines(f: Bytes): (ls: seq<Bytes>)
    decreases |f|
  {
    if f == [] then [] else [f[..LineLen(f)]] + Lines(f[LineLen(f)..])
  }

  function Flatten(ls: seq<Bytes>): (f: Bytes)
  {
    if ls == [] then [] else ls[0] + Flatten(ls[1..])
  }

  lemma {:induction false} FlattenAppend(xs: seq<Bytes>, ys: seq<Bytes>)
    ensures Flatten(xs + ys) == Flatten(xs) + Flatten(ys)
  {
    if xs == [] {
      assert xs + ys == ys;
    } else {
      assert (xs + ys)[1..] == xs[1..] + ys;
      FlattenAppend(xs[1..], ys);
    }
  }

  /** getline loses nothing: the lines of any file concatenate back to it. */
  lemma {:induction false} LinesFlatten(f: Bytes)
    ensures Flatten(Lines(f)) == f
    decreases |f|
  {
    if f != [] {
      var n := LineLen(f);
      LinesFlatten(f[n..]);
      assert Lines(f) == [f[..n]] + Lines(f[n..]);
      assert Lines(f)[1..] == Lines(f[n..]);
      assert f == f[..n] + f[n..];
    }
  }

  predicate OneLine(l: Bytes) {
    l != [] && NEWLINE !in l[..|l| - 1]
  }

  predicate Terminated(l: Bytes) {
    l != [] && l[|l| - 1] == NEWLINE
  }

  /** What getline can return: no newline inside a line, and one at the end of every line but the last. */
  predicate LineSeq(ls: seq<Bytes>) {
    ls == [] || (OneLine(ls[0]) && (|ls| > 1 ==> Terminated(ls[0])) && LineSeq(ls[1..]))
  }

  lemma {:induction false} LineSeqAt(ls: seq<Bytes>, i: nat)
    requires LineSeq(ls) && i < |ls|
    ensures OneLine(ls[i])
  {
    if i > 0 {
      LineSeqAt(ls[1..], i - 1);
    }
  }

  lemma {:induction false} LinesAreLines(f: Bytes)
    ensures LineSeq(Lines(f))
    decreases |f|
  {
    if f != [] {
      var n := LineLen(f);
      LinesAreLines(f[n..]);
      assert OneLine(f[..n]);
      assert n < |f| ==> Terminated(f[..n]);
      assert Lines(f)[1..] == Lines(f[n..]);
    }
  }

  /** Conversely, a concatenation of such lines is read back as exactly those lines. */
  lemma {:induction false} LinesOfFlatten(ls: seq<Bytes>)
    requires LineSeq(ls)
    ensures Lines(Flatten(ls)) == ls
  {
    if ls != [] {
      LinesOfFlatten(ls[1..]);
      LinesStep(ls[0], Flatten(ls[1..]), |ls| > 1);
      assert |ls| == 1 ==> ls == [ls[0]];
      assert ls == [ls[0]] + ls[1..];
    }
  }

  lemma LinesStep(l: Bytes, rest: Bytes, more: bool)
    requires OneLine(l) && (more ==> Terminated(l)) && (!more ==> rest == [])
    ensures Lines(l + rest) == [l] + Lines(rest)
  {
    var f := l + rest;
    if Terminated(l) {
      FindIs(f, NEWLINE, |l| - 1);
    } else {
      FindIs(f, NEWLINE, |l|);
    }
    assert LineLen(f) == |l| && f[..|l|] == l && f[|l|..] == rest;
  }

  lemma {:induction false} LineBytes(f: Bytes, l: Bytes, b: Byte)
    requires l in Lines(f) && b in l
    ensures b in f
    decreases |f|
  {
    var n := LineLen(f);
    if l != f[..n] {
      LineBytes(f[n..], l, b);
    }
  }

  /** The tokens strtok yields with ":" as its only separator. */
  function Tokens(s: Bytes): (ts: seq<Bytes>)
    ensures forall t | t in ts :: t != [] && COLON !in t
    decreases |s|
  {
    if s == [] then []
    else if s[0] == COLON then Tokens(s[1..])
    else
      var n := Find(s, COLON);
      [s[..n]] + Tokens(s[n..])
  }

  lemma TokensOfPair(k: Bytes, v: Bytes)
    requires k != [] && COLON !in k && v != [] && COLON !in v
    ensures Tokens(k + [COLON] + v) == [k, v]
  {
    var s := k + [COLON] + v;
    FindAfter(k, COLON, v);
    assert s[0] == k[0] && s[..|k|] == k;
    var t := s[|k|..];
    assert t == [COLON] + v && t[1..] == v;
    assert Tokens(t) == Tokens(v);
    assert v[..|v|] == v;
    FindIs(v, COLON, |v|);
    assert v[|v|..] == [];
    assert Tokens(v) == [v] + Tokens([]);
  }

  predicate AllColons(s: Bytes) {
    forall i | 0 <= i < |s| :: s[i] == COLON
  }

  /** strtok's first token by position: what lies between the leading ':'s and the next ':' or the end; the
      other tokens are those of what follows. */
  lemma {:induction false} TokensAt(s: Bytes, i: nat, j: nat)
    requires i < j <= |s| && AllColons(s[..i]) && COLON !in s[i..j] && (j < |s| ==> s[j] == COLON)
    ensures Tokens(s) == [s[i..j]] + Tokens(s[j..])
    decreases i
  {
    if i == 0 {
      assert forall k | 0 <= k < j :: s[k] == s[0..j][k];
      FindIs(s, COLON, j);
      assert s[..j] == s[0..j];
    } else {
      var t := s[1..];
      assert s[0] == s[..i][0];
      assert t[..i - 1] == s[..i][1..] && t[i - 1..j - 1] == s[i..j] && t[j - 1..] == s[j..];
      assert j < |s| ==> t[j - 1] == s[j];
      TokensAt(t, i - 1, j - 1);
    }
  }

  lemma {:induction false} TokensNone(s: Bytes)
    requires AllColons(s)
    ensures Tokens(s) == []
  {
    if s != [] {
      TokensNone(s[1..]);
    }
  }

  /** The same by parts. */
  lemma TokensOfParts(colons: Bytes, t: Bytes, rest: Bytes)
    requires AllColons(colons) && t != [] && COLON !in t && (rest != [] ==> rest[0] == COLON)
    ensures Tokens(colons + t + rest) == [t] + Tokens(rest)
  {
    var s := colons + t + rest;
    var i, j := |colons|, |colons| + |t|;
    assert s[..i] == colons && s[i..j] == t && s[j..] == rest;
    assert j < |s| ==> s[j] == rest[0];
    TokensAt(s, i, j);
  }
}
