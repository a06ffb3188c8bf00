/** The intrusive circular lists of include/list.h and include/list_extra.h, on the heap. */
module Lists {

  class Node {
    var next: Node?
    var prev: Node?

    constructor ()
    {
    }
  }

  /** The place after i going round n places. */
  function After(i: nat, n: nat): nat
    requires i < n
  {
    if i + 1 < n then i + 1 else 0
  }

  ghost predicate Linked(c: seq<Node>, i: nat)
    requires i < |c|
    reads c
  {
    c[i].next == c[After(i, |c|)] && c[After(i, |c|)].prev == c[i]
  }

  ghost predicate Distinct(c: seq<Node>) {
    forall i, j :: 0 <= i < j < |c| ==> c[i] != c[j]
  }

  /** The nodes of a circle in order of `next`, each once. */
  ghost predicate Circle(c: seq<Node>)
    reads c
  {
    Distinct(c) && forall i :: 0 <= i < |c| ==> Linked(c, i)
  }

  /** A list: its head and its elements in order. */
  ghost predicate List(head: Node, s: seq<Node>)
    reads head, s
  {
    Circle([head] + s)
  }

  method InitListHead(ptr: Node)
    modifies ptr
    ensures List(ptr, [])
  {
    ptr.next := ptr;
    ptr.prev := ptr;
  }

  method ListAddBetween(newl: Node, prev: Node, next: Node)
    modifies newl, prev, next
    ensures newl != next && newl != prev ==> newl.next == next && newl.prev == prev && prev.next == newl && next.prev == newl
    ensures next != prev && next != newl ==> next.next == old(next.next)
    ensures next != prev && prev != newl ==> prev.prev == old(prev.prev)
  {
    next.prev := newl;
    newl.next := next;
    newl.prev := prev;
    prev.next := newl;
  }

  lemma Inserted(a: seq<Node>, x: Node, b: seq<Node>)
    requires Distinct(a + b) && x !in a && x !in b
    ensures Distinct(a + [x] + b)
  {
    var c, d := a + b, a + [x] + b;
    forall i, j | 0 <= i < j < |d|
      ensures d[i] != d[j]
    {
      if i != |a| && j != |a| {
        var k, l := if i < |a| then i else i - 1, if j < |a| then j else j - 1;
        assert d[i] == c[k] && d[j] == c[l];
      }
    }
  }

  lemma Without(s: seq<Node>, i: nat)
    requires i < |s| && Distinct(s)
    ensures Distinct(s[..i] + s[i + 1..]) && s[i] !in s[..i] + s[i + 1..]
  {
  }

  /** Insert after the head. Only the new node, the head and its old neighbour are written. */
  method ListAdd(newl: Node, head: Node, ghost s: seq<Node>)
    requires List(head, s) && newl != head && newl !in s
    modifies newl, head, if s == [] then head else s[0]
    ensures List(head, [newl] + s)
  {
    ghost var c, d := [head] + s, [head] + ([newl] + s);
    assert Linked(c, 0);
    ListAddBetween(newl, head, head.next);
    Inserted([head], newl, s);
    assert d == [head] + [newl] + s;
    forall i | 0 <= i < |d|
      ensures Linked(d, i)
    {
      if i >= 2 {
        assert old(Linked(c, i - 1));
      }
    }
  }

  /** Insert before the head. */
  method ListAddTail(newl: Node, head: Node, ghost s: seq<Node>)
    requires List(head, s) && newl != head && newl !in s
    modifies newl, head, if s == [] then head else s[|s| - 1]
    ensures List(head, s + [newl])
  {
    ghost var c, d := [head] + s, [head] + (s + [newl]);
    assert Linked(c, |s|);
    ListAddBetween(newl, head.prev, head);
    Inserted([head] + s, newl, []);
    assert d == [head] + s + [newl] + [] && [head] + s + [] == c;
    forall i | 0 <= i < |d|
      ensures Linked(d, i)
    {
      if i < |s| {
        assert old(Linked(c, i));
      }
    }
  }

  /** The node before element i of a list. */
  ghost function Before(head: Node, s: seq<Node>, i: nat): Node
    requires i < |s|
  {
    if i == 0 then head else s[i - 1]
  }

  ghost function Following(head: Node, s: seq<Node>, i: nat): Node
    requires i < |s|
  {
    if i + 1 == |s| then head else s[i + 1]
  }

  function Cut<T>(s: seq<T>, i: nat): (r: seq<T>)
    requires i < |s|
    ensures |r| == |s| - 1
  {
    s[..i] + s[i + 1..]
  }

  /** Delete element i: only its neighbours are written, and its own pointers stay as they were. */
  method ListDel(entry: Node, ghost head: Node, ghost s: seq<Node>, ghost i: nat)
    requires List(head, s) && i < |s| && entry == s[i]
    modifies Before(head, s, i), Following(head, s, i)
    ensures List(head, Cut(s, i)) && entry.next == old(entry.next) && entry.prev == old(entry.prev)
  {
    ghost var c, d := [head] + s, [head] + Cut(s, i);
    assert Linked(c, i) && Linked(c, i + 1);
    assert c[i] == Before(head, s, i) && c[After(i + 1, |c|)] == Following(head, s, i);
    Without(c, i + 1);
    assert c[..i + 1] + c[i + 2..] == d;
    var prev, next := entry.prev, entry.next;
    next.prev := prev;
    prev.next := next;
    forall k | 0 <= k < |d|
      ensures Linked(d, k)
    {
      if k < i {
        assert old(Linked(c, k));
      } else if k > i {
        assert old(Linked(c, k + 1));
      }
    }
  }

  /** Delete element i and leave it a list of its own. */
  method ListDelInit(entry: Node, ghost head: Node, ghost s: seq<Node>, ghost i: nat)
    requires List(head, s) && i < |s| && entry == s[i]
    modifies Before(head, s, i), Following(head, s, i), entry
    ensures List(head, Cut(s, i)) && List(entry, [])
  {
    ListDel(entry, head, s, i);
    assert entry !in [head] + Cut(s, i) by {
      Without([head] + s, i + 1);
      assert ([head] + s)[..i + 1] + ([head] + s)[i + 2..] == [head] + Cut(s, i);
    }
    InitListHead(entry);
  }

  ghost predicate Apart(a: seq<Node>, b: seq<Node>) {
    forall x <- a :: x !in b
  }

  ghost function FirstOf(head: Node, t: seq<Node>): Node {
    if t == [] then head else t[0]
  }

  ghost function LastOf(head: Node, t: seq<Node>): Node {
    if t == [] then head else t[|t| - 1]
  }

  /** What is left of the circle does not hold the deleted node. */
  lemma CutOut(head: Node, s: seq<Node>, i: nat)
    requires i < |s| && Distinct([head] + s)
    ensures s[i] != head && s[i] !in Cut(s, i)
  {
    Without([head] + s, i + 1);
    assert ([head] + s)[..i + 1] + ([head] + s)[i + 2..] == [head] + Cut(s, i);
    assert head in [head] + Cut(s, i) && forall x <- Cut(s, i) :: x in [head] + Cut(s, i);
  }

  lemma MoveApart(from: Node, s: seq<Node>, i: nat, head: Node, t: seq<Node>)
    requires i < |s| && Distinct([from] + s) && Apart([from] + s, [head] + t)
    ensures s[i] != head && s[i] !in t && s[i] !in [from] + Cut(s, i)
    ensures Before(from, s, i) !in [head] + t && Following(from, s, i) !in [head] + t
    ensures head !in [from] + Cut(s, i) && FirstOf(head, t) !in [from] + Cut(s, i) && LastOf(head, t) !in [from] + Cut(s, i)
  {
    CutOut(from, s, i);
    var c, d := [from] + s, [head] + t;
    assert s[i] in c && from in c && Before(from, s, i) in c && Following(from, s, i) in c;
    assert forall x <- [from] + Cut(s, i) :: x in c;
    assert head in d && FirstOf(head, t) in d && LastOf(head, t) in d;
    assert s[i] !in d && forall x <- t :: x in d;
  }

  /** Move element i of one list to the front of another, or of the same one; t is what the receiving list
      holds otherwise. */
  method ListMove(entry: Node, head: Node, ghost from: Node, ghost s: seq<Node>, ghost i: nat, ghost t: seq<Node>)
    requires List(from, s) && i < |s| && entry == s[i]
    requires if head == from then t == Cut(s, i) else List(head, t) && Apart([from] + s, [head] + t)
    modifies Before(from, s, i), Following(from, s, i), entry, head, FirstOf(head, t)
    ensures List(head, [entry] + t) && (head != from ==> List(from, Cut(s, i)))
  {
    CutOut(from, s, i);
    if head != from {
      MoveApart(from, s, i, head, t);
    }
    ListDel(entry, from, s, i);
    ListAdd(entry, head, t);
  }

  method ListMoveTail(entry: Node, head: Node, ghost from: Node, ghost s: seq<Node>, ghost i: nat, ghost t: seq<Node>)
    requires List(from, s) && i < |s| && entry == s[i]
    requires if head == from then t == Cut(s, i) else List(head, t) && Apart([from] + s, [head] + t)
    modifies Before(from, s, i), Following(from, s, i), entry, head, LastOf(head, t)
    ensures List(head, t + [entry]) && (head != from ==> List(from, Cut(s, i)))
  {
    CutOut(from, s, i);
    if head != from {
      MoveApart(from, s, i, head, t);
    }
    ListDel(entry, from, s, i);
    ListAddTail(entry, head, t);
  }

  method ListEmpty(head: Node, ghost s: seq<Node>) returns (empty: bool)
    requires List(head, s)
    ensures empty <==> s == []
  {
    assert Linked([head] + s, 0);
    empty := head.next == head;
  }

  lemma Spliced(head: Node, a: seq<Node>, b: seq<Node>, list: Node)
    requires Distinct([list] + a) && Distinct([head] + b) && Apart([list] + a, [head] + b)
    ensures Distinct([head] + (a + b))
  {
    var c, d, e := [list] + a, [head] + b, [head] + (a + b);
    forall i, j | 0 <= i < j < |e|
      ensures e[i] != e[j]
    {
      var from := i == 0 || i > |a|;
      assert if from then e[i] == d[if i == 0 then 0 else i - |a|] else e[i] == c[i];
      assert if j > |a| then e[j] == d[j - |a|] else e[j] == c[j];
      assert e[i] in c || e[i] in d;
      assert e[j] in c || e[j] in d;
    }
  }

  /** Put the elements of one list at the front of another: concatenation. The emptied head is not touched. */
  method ListSplice(list: Node, head: Node, ghost a: seq<Node>, ghost b: seq<Node>)
    requires List(list, a) && List(head, b) && Apart([list] + a, [head] + b)
    modifies head, FirstOf(head, a), LastOf(head, a), FirstOf(head, b)
    ensures List(head, a + b)
  {
    ghost var c, d, e := [list] + a, [head] + b, [head] + (a + b);
    var empty := ListEmpty(list, a);
    if !empty {
      Spliced(head, a, b, list);
      assert Linked(c, 0) && Linked(c, |a|) && Linked(d, 0);
      var first, last, at := list.next, list.prev, head.next;
      assert first == a[0] && last == a[|a| - 1] && at == FirstOf(head, b);
      assert first in c && last in c && at in d && head in d;
      first.prev := head;
      head.next := first;
      last.next := at;
      at.prev := last;
      forall i | 0 <= i < |e|
        ensures Linked(e, i)
      {
        if 0 < i < |a| {
          assert old(Linked(c, i));
          assert e[i] == c[i] && e[i + 1] == c[i + 1];
        } else if i > |a| {
          assert old(Linked(d, i - |a|));
        }
      }
    } else {
      assert a + b == b;
    }
  }

  /** The same, leaving the given list empty. */
  method ListSpliceInit(list: Node, head: Node, ghost a: seq<Node>, ghost b: seq<Node>)
    requires List(list, a) && List(head, b) && Apart([list] + a, [head] + b)
    modifies list, head, FirstOf(head, a), LastOf(head, a), FirstOf(head, b)
    ensures List(head, a + b) && List(list, [])
  {
    var empty := ListEmpty(list, a);
    assert list in [list] + a && list !in [head] + b;
    ListSplice(list, head, a, b);
    if !empty {
      assert list !in [head] + (a + b) by {
        Fresh(list, a);
        assert forall x <- [head] + (a + b) :: x in a || x in [head] + b;
      }
      InitListHead(list);
    } else {
      assert [list] + a == [list] + [];
    }
  }

  lemma Fresh(list: Node, a: seq<Node>)
    requires Distinct([list] + a)
    ensures list !in a
  {
    forall i | 0 <= i < |a|
      ensures a[i] != list
    {
      assert ([list] + a)[0] != ([list] + a)[i + 1];
    }
  }

  // ----- list_extra.h -----

  method ListCapacity(head: Node, ghost s: seq<Node>) returns (count: nat)
    requires List(head, s)
    ensures count == |s|
  {
    ghost var c := [head] + s;
    count := 0;
    var at := head;
    assert Linked(c, 0);
    while at.next != head
      invariant count <= |s| && at == c[count] && at.next == c[After(count, |c|)]
      decreases |s| - count
    {
      at := at.next;
      count := count + 1;
      assert Linked(c, count);
    }
  }

  /** The element at an index, or the head when there is none. */
  method ListIdx(head: Node, idx: int, ghost s: seq<Node>) returns (at: Node)
    requires List(head, s)
    ensures at == if 0 <= idx < |s| then s[idx] else head
  {
    ghost var c := [head] + s;
    assert Linked(c, 0);
    var cntr := 0;
    at := head.next;
    while at != head
      invariant cntr <= |s| && at == c[After(cntr, |c|)] && (at == head <==> cntr == |s|)
      invariant !(0 <= idx < cntr)
      decreases |s| - cntr
    {
      if cntr == idx {
        break;
      }
      cntr := cntr + 1;
      assert Linked(c, cntr);
      at := at.next;
    }
  }

  /** Freeing leaves a node's memory arbitrary. */
  method Free(node: Node)
    modifies node
  {
    node.next := *;
    node.prev := *;
  }

  /** Delete and free every element: each exactly once, in order, and the list ends empty. */
  method ListFreeAll(head: Node, ghost s: seq<Node>) returns (freed: seq<Node>)
    requires List(head, s)
    modifies head, s
    ensures freed == s && List(head, [])
  {
    freed := [];
    assert Linked([head] + s, 0);
    ghost var left := s;
    var list := head.next;
    while list != head
      invariant List(head, left) && list == FirstOf(head, left) && freed + left == s && (list == head <==> left == [])
      decreases |left|
    {
      assert Linked([head] + left, 1);
      var safe := list.next;
      ghost var rest := left[1..];
      assert Cut(left, 0) == rest;
      assert left[0] == (freed + left)[|freed|] && (|left| > 1 ==> left[1] == (freed + left)[|freed| + 1]);
      assert list in s && Following(head, left, 0) in [head] + s;
      Fresh(head, left);
      assert forall x <- rest :: x in left;
      CutOut(head, left, 0);
      ListDel(list, head, left, 0);
      Free(list);
      freed := freed + [list];
      left := rest;
      list := safe;
    }
  }
}
