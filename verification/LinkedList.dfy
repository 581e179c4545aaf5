/** The doubly linked list with two sentinels that carries queues, slots and sockets. */
module LinkedList {
  import opened CString

  class Node<T(0)> {
    var data: T
    var next: Node?<T>
    var previous: Node?<T>

    constructor (d: T)
      ensures data == d && next == null && previous == null
    {
      data := d;
      next := null;
      previous := null;
    }

    constructor Sentinel()
      ensures next == null && previous == null
    {
      next := null;
      previous := null;
    }
  }

  ghost function Nth<T(0)>(s: seq<Node<T>>, i: int): (n: Node?<T>)
  {
    if 0 <= i < |s| then s[i] else null
  }

  ghost function Cut<X>(s: seq<X>, i: nat): (r: seq<X>)
    requires i < |s|
    ensures |r| == |s| - 1
    ensures forall k | 0 <= k < |r| :: r[k] == if k < i then s[k] else s[k + 1]
  {
    s[..i] + s[i + 1..]
  }

  /** No node occurs twice, and no sentinel occurs at all. */
  ghost predicate Separate<T(0)>(head: Node<T>, tail: Node<T>, s: seq<Node<T>>) {
    && head != tail && (forall i | 0 <= i < |s| :: s[i] != head && s[i] != tail)
    && (forall i, j | 0 <= i < j < |s| :: s[i] != s[j])
  }

  lemma SeparateCut<T(0)>(head: Node<T>, tail: Node<T>, s: seq<Node<T>>, i: nat)
    requires Separate(head, tail, s) && i < |s|
    ensures Separate(head, tail, Cut(s, i))
  {}

  /** `head.next` is the first node and `tail.previous` the last; the nodes themselves never point at a
      sentinel. */
  class LList<T(0)> {
    const head: Node<T>
    const tail: Node<T>
    ghost var spine: seq<Node<T>>
    ghost var contents: seq<T>

    ghost predicate Linked(s: seq<Node<T>>)
      reads head, tail, s
    {
      && head.next == Nth(s, 0) && tail.previous == Nth(s, |s| - 1)
      && (forall i {:trigger s[i].next} | 0 <= i < |s| :: s[i].next == Nth(s, i + 1))
      && (forall i {:trigger s[i].previous} | 0 <= i < |s| :: s[i].previous == Nth(s, i - 1))
    }

    /** Forward and backward links are inverse to each other, acyclic, and agree with both sentinels. */
    ghost predicate Valid()
      reads this, head, tail, spine
    {
      && Separate(head, tail, spine)
      && Linked(spine) && |contents| == |spine|
      && (forall i {:trigger spine[i].data} {:trigger contents[i]} | 0 <= i < |spine| :: spine[i].data == contents[i])
    }

    ghost function Nodes(): set<object>
      reads this
    {
      set n | n in spine
    }

    /** llist_empty. */
    constructor ()
      ensures Valid() && contents == [] && spine == [] && fresh(head) && fresh(tail)
    {
      head := new Node<T>.Sentinel();
      tail := new Node<T>.Sentinel();
      spine := [];
      contents := [];
    }

    /** llist_insertfirst. */
    method InsertFirst(d: T)
      requires Valid()
      modifies this, head, tail, spine
      ensures Valid() && contents == [d] + old(contents)
      ensures |spine| > 0 && fresh(spine[0]) && spine[1..] == old(spine)
    {
      var n := new Node<T>(d);
      if head.next == null {
        head.next := n;
        tail.previous := n;
      } else {
        n.next := head.next;
        head.next.previous := n;
        head.next := n;
      }
      spine := [n] + spine;
      contents := [d] + contents;
    }

    /** llist_insertlast. */
    method InsertLast(d: T)
      requires Valid()
      modifies this, head, tail, spine
      ensures Valid() && contents == old(contents) + [d]
      ensures |spine| > 0 && fresh(spine[|spine| - 1]) && spine[..|spine| - 1] == old(spine)
    {
      var n := new Node<T>(d);
      if head.next == null {
        tail.previous := n;
        head.next := n;
      } else {
        n.previous := tail.previous;
        tail.previous.next := n;
        tail.previous := n;
      }
      assert Separate(head, tail, spine + [n]);
      assert Linked(spine + [n]);
      spine := spine + [n];
      contents := contents + [d];
    }

    /** The links of the spine, except that those around position i lead past it. */
    ghost predicate Skips(i: nat)
      requires i < |spine|
      reads this, head, tail, spine
    {
      && head.next == (if i == 0 then Nth(spine, 1) else spine[0])
      && tail.previous == (if i == |spine| - 1 then Nth(spine, i - 1) else spine[|spine| - 1])
      && (forall k {:trigger spine[k].next} | 0 <= k < |spine| ::
            spine[k].next == if k + 1 == i then Nth(spine, i + 1) else Nth(spine, k + 1))
      && (forall k {:trigger spine[k].previous} | 0 <= k < |spine| ::
            spine[k].previous == if k == i + 1 then Nth(spine, i - 1) else Nth(spine, k - 1))
    }

    lemma CutLinked(i: nat)
      requires i < |spine| && Skips(i)
      ensures Linked(Cut(spine, i))
    {
      var c := Cut(spine, i);
      forall k | 0 <= k < |c| ensures c[k].next == Nth(c, k + 1) {
        assert c[k].next == spine[if k < i then k else k + 1].next;
      }
      forall k | 0 <= k < |c| ensures c[k].previous == Nth(c, k - 1) {
        assert c[k].previous == spine[if k < i then k else k + 1].previous;
      }
    }

    /** The pointer surgery that llist_remove and the llist_removefirst variants all repeat. */
    method Relink(p: Node<T>, ghost i: nat)
      requires Valid() && i < |spine| && p == spine[i]
      modifies head`next, tail`previous, spine`next, spine`previous
      ensures Skips(i)
    {
      if p.next != null && p.previous != null {
        p.previous.next := p.next;
        p.next.previous := p.previous;
      } else if p.next == null && p.previous == null {
        tail.previous := p.previous;
        head.next := p.next;
      } else if p.next == null {
        tail.previous := p.previous;
        p.previous.next := null;
      } else {
        head.next := p.next;
        p.next.previous := null;
      }
    }

    method Unlink(p: Node<T>, ghost i: nat)
      requires Valid() && i < |spine| && p == spine[i]
      modifies this, head, tail, spine
      ensures Valid() && contents == Cut(old(contents), i) && spine == Cut(old(spine), i)
      ensures i == 0 ==> contents == old(contents)[1..] && spine == old(spine)[1..]
      ensures p.data == old(p.data) && p.next == old(p.next)
    {
      Relink(p, i);
      SeparateCut(head, tail, spine, i);
      CutLinked(i);
      spine := Cut(spine, i);
      contents := Cut(contents, i);
    }

    /** llist_removefirst and llist_removefirst_INT, which do not check for an empty list. */
    method RemoveFirst() returns (d: T)
      requires Valid() && contents != []
      modifies this, head, tail, spine
      ensures Valid() && d == old(contents)[0] && contents == old(contents)[1..]
      ensures spine == old(spine)[1..]
    {
      var p := head.next;
      Unlink(p, 0);
      d := p.data;
    }

    /** llist_remove of a node of the list; on an empty list it returns its argument. */
    method Remove(p: Node<T>, ghost i: nat) returns (after: Node?<T>)
      requires Valid() && (contents != [] ==> i < |spine| && p == spine[i])
      modifies this, head, tail, spine
      ensures Valid()
      ensures old(contents) == [] ==> contents == [] && spine == old(spine) && after == p
      ensures old(contents) != [] ==>
                && contents == Cut(old(contents), i)
                && spine == Cut(old(spine), i) && after == Nth(spine, i)
                && (i == 0 ==> contents == old(contents)[1..] && spine == old(spine)[1..])
    {
      if head.next == null { return p; }
      after := p.next;
      Unlink(p, i);
    }

    /** list_length. */
    method Length() returns (count: nat)
      requires Valid()
      ensures count == |contents|
    {
      var current := head.next;
      count := 0;
      while current != null
        invariant count <= |spine| && current == Nth(spine, count)
        decreases |spine| - count
      {
        count := count + 1;
        current := current.next;
      }
    }

    /** Walk to a position and remove the node there. */
    method RemoveAt(pos: nat)
      requires Valid() && pos < |contents|
      modifies this, head, tail, spine
      ensures Valid() && contents == Cut(old(contents), pos)
      ensures spine == Cut(old(spine), pos)
    {
      var p := head.next;
      for i := 0 to pos
        invariant p == Nth(spine, i)
      {
        p := p.next;
      }
      var _ := Remove(p, pos);
    }

    /** llist_free: every datum is freed exactly once, front to back, and the walk ends. */
    method Free() returns (freed: seq<T>)
      requires Valid()
      modifies this, head, tail, spine
      ensures Valid() && contents == [] && freed == old(contents)
    {
      freed := [];
      var p := head.next;
      while p != null
        invariant Valid() && p == Nth(spine, 0)
        invariant |freed| <= |old(contents)| && freed == old(contents)[..|freed|]
        invariant contents == old(contents)[|freed|..] && spine == old(spine)[|freed|..]
        decreases |spine|
      {
        freed := freed + [p.data];
        p := Remove(p, 0);
      }
    }
  }

  // ---- Whole call sequences refine a plain sequence ----

  datatype Call<T> = InsertFirstCall(d: T) | InsertLastCall(d: T) | RemoveFirstCall | RemoveAtCall(pos: nat) | LengthCall

  predicate Allowed<T>(s: seq<T>, c: Call<T>) {
    (c.RemoveFirstCall? ==> s != []) && (c.RemoveAtCall? ==> c.pos < |s|)
  }

  function After<T>(s: seq<T>, c: Call<T>): (r: seq<T>)
    requires Allowed(s, c)
  {
    match c
    case InsertFirstCall(d) => [d] + s
    case InsertLastCall(d) => s + [d]
    case RemoveFirstCall => s[1..]
    case RemoveAtCall(pos) => s[..pos] + s[pos + 1..]
    case LengthCall => s
  }

  datatype Result<T> = Nothing | Datum(d: T) | Count(n: nat)

  function ResultOf<T>(s: seq<T>, c: Call<T>): (r: Result<T>)
    requires Allowed(s, c)
  {
    match c
    case RemoveFirstCall => Datum(s[0])
    case LengthCall => Count(|s|)
    case _ => Nothing
  }

  predicate AllAllowed<T>(s: seq<T>, cs: seq<Call<T>>)
    decreases |cs|
  {
    cs == [] || (Allowed(s, cs[0]) && AllAllowed(After(s, cs[0]), cs[1..]))
  }

  function AfterAll<T>(s: seq<T>, cs: seq<Call<T>>): (r: (seq<T>, seq<Result<T>>))
    requires AllAllowed(s, cs)
    decreases |cs|
  {
    if cs == [] then (s, [])
    else
      var r := AfterAll(After(s, cs[0]), cs[1..]);
      (r.0, [ResultOf(s, cs[0])] + r.1)
  }

  /** Call i returns its result on the sequence that the calls before it have left. */
  lemma {:induction false} ResultAt<T>(s: seq<T>, cs: seq<Call<T>>, i: nat)
    requires AllAllowed(s, cs) && i < |cs|
    ensures |AfterAll(s, cs).1| == |cs| && AllAllowed(s, cs[..i])
    ensures var before := AfterAll(s, cs[..i]).0;
            Allowed(before, cs[i]) && AfterAll(s, cs).1[i] == ResultOf(before, cs[i])
    decreases i
  {
    ResultCount(s, cs);
    if i > 0 {
      ResultAt(After(s, cs[0]), cs[1..], i - 1);
      assert cs[..i][1..] == cs[1..][..i - 1];
    }
  }

  lemma {:induction false} ResultCount<T>(s: seq<T>, cs: seq<Call<T>>)
    requires AllAllowed(s, cs)
    ensures |AfterAll(s, cs).1| == |cs|
    decreases |cs|
  {
    if cs != [] {
      ResultCount(After(s, cs[0]), cs[1..]);
    }
  }

  method Perform<T(0)>(l: LList<T>, c: Call<T>) returns (r: Result<T>)
    requires l.Valid() && Allowed(l.contents, c)
    modifies l, l.head, l.tail, l.Nodes()
    ensures l.Valid() && l.contents == After(old(l.contents), c) && r == ResultOf(old(l.contents), c)
    ensures fresh(l.Nodes() - old(l.Nodes()))
  {
    r := Nothing;
    match c
    case InsertFirstCall(d) => l.InsertFirst(d);
    case InsertLastCall(d) => l.InsertLast(d);
    case RemoveFirstCall =>
      var d := l.RemoveFirst();
      r := Datum(d);
    case RemoveAtCall(pos) => l.RemoveAt(pos);
    case LengthCall =>
      var n := l.Length();
      r := Count(n);
  }

  /** Any sequence of calls on the linked list returns what it would on a plain sequence, and leaves a
      valid list holding that sequence. */
  method PerformAll<T(0)>(l: LList<T>, cs: seq<Call<T>>) returns (rs: seq<Result<T>>)
    requires l.Valid() && AllAllowed(l.contents, cs)
    modifies l, l.head, l.tail, l.Nodes()
    ensures l.Valid() && (l.contents, rs) == AfterAll(old(l.contents), cs)
  {
    rs := [];
    var i := 0;
    assert cs[0..] == cs;
    assert [] + AfterAll(l.contents, cs).1 == AfterAll(l.contents, cs).1;
    while i < |cs|
      invariant i <= |cs| && l.Valid() && AllAllowed(l.contents, cs[i..])
      invariant fresh(l.Nodes() - old(l.Nodes()))
      invariant AfterAll(l.contents, cs[i..]).0 == AfterAll(old(l.contents), cs).0
      invariant rs + AfterAll(l.contents, cs[i..]).1 == AfterAll(old(l.contents), cs).1
    {
      var call := cs[i];
      assert cs[i..][0] == call && cs[i..][1..] == cs[i + 1..];
      ghost var before := l.contents;
      var r := Perform(l, call);
      ghost var left := AfterAll(l.contents, cs[i + 1..]).1;
      assert AfterAll(before, cs[i..]).1 == [r] + left;
      assert rs + ([r] + left) == (rs + [r]) + left;
      rs := rs + [r];
      i := i + 1;
    }
    assert cs[i..] == [];
    assert rs + [] == rs;
  }

  // ---- The two uses with a body of their own ----

  /** A queued PDU_struct on the heap. */
  class PduStruct {
    const op: Byte
    const dataBytes: nat
    const data: array<Byte>

    constructor (op: Byte, dataBytes: nat, data: array<Byte>)
      ensures this.op == op && this.dataBytes == dataBytes && this.data == data
    {
      this.op := op;
      this.dataBytes := dataBytes;
      this.data := data;
    }
  }

  /** llist_removefirst_PDU: the caller gets a deep copy with the same bytes, one NUL longer, that shares
      no storage with the queue. */
  method RemoveFirstPdu(l: LList<PduStruct?>) returns (copy: PduStruct)
    requires l.Valid() && l.contents != [] && l.contents[0] != null
    requires l.contents[0].dataBytes <= l.contents[0].data.Length
    modifies l, l.head, l.tail, l.spine
    ensures l.Valid() && l.contents == old(l.contents)[1..]
    ensures fresh(copy) && fresh(copy.data)
    ensures var p := old(l.contents)[0];
            && copy.op == p.op && copy.dataBytes == p.dataBytes
            && copy.data[..] == old(p.data[..p.dataBytes]) + [NUL]
  {
    var p := l.RemoveFirst();
    var n := p.dataBytes;
    var data := new Byte[n + 1](_ => 0);
    for i := 0 to n
      invariant data[..i] == p.data[..i] && data[n] == NUL
      modifies data
    {
      data[i] := p.data[i];
    }
    assert data[..] == data[..n] + [data[n]];
    copy := new PduStruct(p.op, n, data);
  }

  function WithoutFirst(s: seq<int>, x: int): (r: seq<int>)
    ensures x !in s ==> r == s
    ensures multiset(r) == multiset(s) - multiset{x}
  {
    if s == [] then []
    else if s[0] == x then
      assert s == [x] + s[1..];
      s[1..]
    else
      assert s == [s[0]] + s[1..];
      [s[0]] + WithoutFirst(s[1..], x)
  }

  lemma {:induction false} WithoutFirstAt(s: seq<int>, x: int, i: nat)
    requires i < |s| && s[i] == x && x !in s[..i]
    ensures WithoutFirst(s, x) == Cut(s, i)
  {
    if i > 0 {
      assert s[..i] == [s[0]] + s[1..][..i - 1];
      WithoutFirstAt(s[1..], x, i - 1);
      CutCons(s, i);
    }
  }

  lemma CutCons<X>(s: seq<X>, i: nat)
    requires 0 < i < |s|
    ensures Cut(s, i) == [s[0]] + Cut(s[1..], i - 1)
  {}

  /** close_connected_client's search: the first entry holding the client's socket is taken out. */
  method CloseConnectedClient(sockets: LList<int>, client: int)
    requires sockets.Valid()
    modifies sockets, sockets.head, sockets.tail, sockets.spine
    ensures sockets.Valid() && sockets.contents == WithoutFirst(old(sockets.contents), client)
  {
    var p := sockets.head.next;
    var n := sockets.Length();
    for i := 0 to n
      invariant n == |sockets.contents| && sockets.Valid() && p == Nth(sockets.spine, i)
      invariant sockets.contents == old(sockets.contents) && sockets.spine == old(sockets.spine)
      invariant client !in sockets.contents[..i]
    {
      if p.data == client {
        WithoutFirstAt(sockets.contents, client, i);
        var _ := sockets.Remove(p, i);
        return;
      }
      p := p.next;
    }
    assert sockets.contents[..n] == sockets.contents;
  }
}
