/**
 The circular doubly linked list embedded in the daemon's work items. A list is
 its head and the entries after it; the theorem is that the pointer operations
 act on that sequence as prepend, append, remove-at and take.
 */
module IntrusiveList {

  /** Links start out, and end up after a removal, poisoned; null stands for the poison values. */
  class Node {
    var next: Node?
    var prev: Node?

    constructor ()
      ensures next == null && prev == null
    {
      next, prev := null, null;
    }
  }

  function Succ(k: nat, n: nat): nat
    requires k < n
  {
    if k + 1 == n then 0 else k + 1
  }

  ghost predicate Distinct(s: seq<Node>) {
    forall i, j :: 0 <= i < j < |s| ==> s[i] != s[j]
  }

  /** `ring` is a well-formed circular list: head first, `next` and `prev` mutually inverse all the way round. */
  ghost predicate Ring(ring: seq<Node>)
    reads ring
  {
    && |ring| > 0 && Distinct(ring)
    && (forall i :: 0 <= i < |ring| ==> ring[i].next == ring[Succ(i, |ring|)])
    && (forall i :: 0 <= i < |ring| ==> ring[Succ(i, |ring|)].prev == ring[i])
  }

  ghost function Inserted(ring: seq<Node>, k: nat, entry: Node): seq<Node>
    requires k < |ring|
  {
    ring[..k + 1] + [entry] + ring[k + 1..]
  }

  ghost function Removed(ring: seq<Node>, k: nat): seq<Node>
    requires k < |ring|
  {
    ring[..k] + ring[k + 1..]
  }

  method InitHead(head: Node)
    modifies head
    ensures Ring([head])
  {
    head.next, head.prev := head, head;
  }

  /** __teei_list_add: `prev` is the `k`-th node of the ring and `next` the one after it. */
  method InsertBetween(prev: Node, next: Node, entry: Node, ghost ring: seq<Node>, ghost k: nat)
    requires Ring(ring) && k < |ring| && entry !in ring
    requires prev == ring[k] && next == ring[Succ(k, |ring|)]
    modifies entry, prev, next
    ensures Ring(Inserted(ring, k, entry))
  {
    entry.prev := prev;
    entry.next := next;
    prev.next := entry;
    next.prev := entry;
    ghost var r := Inserted(ring, k, entry);
    forall i | 0 <= i < |r|
      ensures r[i].next == r[Succ(i, |r|)] && r[Succ(i, |r|)].prev == r[i]
    {
      if i < k {
        assert r[i] == ring[i] && r[i + 1] == ring[i + 1];
      } else if i > k + 1 {
        assert r[i] == ring[i - 1] && r[Succ(i, |r|)] == ring[Succ(i - 1, |ring|)];
      }
    }
  }

  /** Add a new entry right after the head. */
  method Add(head: Node, entry: Node, ghost ring: seq<Node>) returns (ghost r: seq<Node>)
    requires Ring(ring) && head == ring[0] && entry !in ring
    modifies entry, head, head.next
    ensures Ring(r) && r == [head] + ([entry] + ring[1..])
  {
    InsertBetween(head, head.next, entry, ring, 0);
    r := Inserted(ring, 0, entry);
  }

  /** Add a new entry right before the head, that is, at the end. */
  method AddTail(head: Node, entry: Node, ghost ring: seq<Node>) returns (ghost r: seq<Node>)
    requires Ring(ring) && head == ring[0] && entry !in ring
    modifies entry, head, head.prev
    ensures Ring(r) && r == [head] + (ring[1..] + [entry])
  {
    assert Succ(|ring| - 1, |ring|) == 0;
    InsertBetween(head.prev, head, entry, ring, |ring| - 1);
    r := Inserted(ring, |ring| - 1, entry);
  }

  /** teei_list_del of the `k`-th node; only the entry itself is handed in. */
  method Del(entry: Node, ghost ring: seq<Node>, ghost k: nat)
    requires Ring(ring) && k < |ring| && entry == ring[k]
    modifies entry, entry.prev, entry.next
    ensures k > 0 ==> Ring(Removed(ring, k))
    ensures entry.next == null && entry.prev == null
  {
    ghost var n := |ring|;
    ghost var p := if k == 0 then n - 1 else k - 1;
    assert Succ(p, n) == k;
    assert entry.prev == ring[p] && entry.next == ring[Succ(k, n)];
    var prev, next := entry.prev, entry.next;
    prev.next := entry.next;
    next.prev := entry.prev;
    entry.next := null;
    entry.prev := null;
    if k > 0 {
      ghost var r := Removed(ring, k);
      forall i | 0 <= i < |r|
        ensures r[i].next == r[Succ(i, |r|)] && r[Succ(i, |r|)].prev == r[i]
      {
        if i < k - 1 {
          assert r[i] == ring[i] && r[i + 1] == ring[i + 1];
        } else if i >= k {
          assert r[i] == ring[i + 1] && r[Succ(i, |r|)] == ring[Succ(i + 1, n)];
        }
      }
    }
  }

  /** Take the first entry. From an empty list the head itself is taken, and the list is one no longer. */
  method Pop(head: Node, ghost ring: seq<Node>) returns (entry: Node, ghost r: seq<Node>)
    requires Ring(ring) && head == ring[0]
    modifies ring
    ensures |ring| > 1 ==> entry == ring[1] && Ring(r) && r == [head] + ring[2..]
    ensures |ring| == 1 ==> entry == head
    ensures entry.next == null && entry.prev == null
  {
    entry := head.next;
    assert entry == ring[Succ(0, |ring|)];
    Del(head.next, ring, Succ(0, |ring|));
    r := Removed(ring, Succ(0, |ring|));
  }

  /** Take the last entry. */
  method PopTail(head: Node, ghost ring: seq<Node>) returns (entry: Node, ghost r: seq<Node>)
    requires Ring(ring) && head == ring[0]
    modifies ring
    ensures |ring| > 1 ==> entry == ring[|ring| - 1] && Ring(r) && r == ring[..|ring| - 1]
    ensures |ring| == 1 ==> entry == head
    ensures entry.next == null && entry.prev == null
  {
    assert Succ(|ring| - 1, |ring|) == 0 && head.prev == ring[|ring| - 1];
    entry := head.prev;
    assert |ring| > 1 ==> Succ(|ring| - 2, |ring|) == |ring| - 1 && entry.prev == ring[|ring| - 2];
    Del(head.prev, ring, |ring| - 1);
    r := Removed(ring, |ring| - 1);
  }

  method Empty(head: Node, ghost ring: seq<Node>) returns (b: bool)
    requires Ring(ring) && head == ring[0]
    ensures b <==> ring == [head]
  {
    assert head.next == ring[Succ(0, |ring|)];
    b := head.next == head;
  }

  /** list_for_each: follows `next` from the head and visits the entries in order. */
  method ForEach(head: Node, ghost ring: seq<Node>) returns (visited: seq<Node>)
    requires Ring(ring) && head == ring[0]
    ensures visited == ring[1..]
  {
    visited := [];
    assert head.next == ring[Succ(0, |ring|)];
    var curr := head.next;
    while curr != head
      invariant |visited| < |ring| && visited == ring[1..1 + |visited|]
      invariant curr == ring[Succ(|visited|, |ring|)]
      decreases |ring| - |visited|
    {
      assert curr == ring[|visited| + 1];
      visited := visited + [curr];
      curr := curr.next;
    }
  }

  /** Append `xs` one by one. */
  method AppendAll(head: Node, xs: seq<Node>, ghost ring: seq<Node>) returns (ghost r: seq<Node>)
    requires Ring(ring) && head == ring[0]
    requires Distinct(xs) && forall x :: x in xs ==> x !in ring
    modifies ring, xs
    ensures Ring(r) && r == ring + xs
  {
    r := ring;
    for i := 0 to |xs|
      invariant Ring(r) && r == ring + xs[..i]
    {
      assert xs[i] !in r;
      assert Succ(|r| - 1, |r|) == 0 && head.prev == r[|r| - 1];
      r := AddTail(head, xs[i], r);
    }
  }

  /** `r` is what remains of `ring` once its first `n` entries are taken. */
  ghost predicate Rest(ring: seq<Node>, n: nat, r: seq<Node>) {
    n < |ring| && |r| == |ring| - n && r[0] == ring[0] && forall j :: 1 <= j < |r| ==> r[j] == ring[j + n]
  }

  lemma RestIsThere(ring: seq<Node>, n: nat, r: seq<Node>)
    requires Rest(ring, n, r)
    ensures forall j :: 0 <= j < |r| ==> r[j] in ring
  {
  }

  lemma RestShrinks(ring: seq<Node>, n: nat, r: seq<Node>, r': seq<Node>)
    requires Rest(ring, n, r) && |r| > 1 && r' == [r[0]] + r[2..]
    ensures Rest(ring, n + 1, r') && r[1] == ring[n + 1]
    ensures ring[1..1 + n] + [r[1]] == ring[1..2 + n]
  {
  }

  /** Pop until the list is empty. */
  method PopAll(head: Node, ghost ring: seq<Node>) returns (out: seq<Node>)
    requires Ring(ring) && head == ring[0]
    modifies ring
    ensures out == ring[1..] && Ring([head])
  {
    out := [];
    ghost var r := ring;
    var empty := Empty(head, r);
    while !empty
      invariant |out| < |ring| && out == ring[1..1 + |out|]
      invariant Ring(r) && Rest(ring, |out|, r)
      invariant empty <==> r == [head]
      decreases |r|
    {
      var x;
      ghost var before := r;
      RestIsThere(ring, |out|, r);
      x, r := Pop(head, r);
      RestShrinks(ring, |out|, before, r);
      out := out + [x];
      empty := Empty(head, r);
    }
  }

  /** First in, first out: what is appended behind the entries already queued comes out after them, in order. */
  method Fifo(head: Node, xs: seq<Node>, ghost ring: seq<Node>) returns (out: seq<Node>)
    requires Ring(ring) && head == ring[0]
    requires Distinct(xs) && forall x :: x in xs ==> x !in ring
    modifies ring, xs
    ensures out == ring[1..] + xs && Ring([head])
  {
    ghost var r := AppendAll(head, xs, ring);
    out := PopAll(head, r);
  }
}
