// The singly-linked tail queue of include/queue.h, on which every message queue is built.
module Stailq {
  class Node {
    /** stqe_next */
    var next: Node?
  }

  /** A pointer to a link: stqh_last points at the link that holds the terminating NULL,
      which is the head's own first link or the next link of the last element. */
  datatype Link = FirstOf(head: Queue) | NextOf(node: Node)

  function At(s: seq<Node>, i: nat): Node? {
    if i < |s| then s[i] else null
  }

  /** The chain of next links from `first` runs through exactly these nodes and ends. */
  ghost predicate Chain(first: Node?, s: seq<Node>)
    reads s
  {
    first == At(s, 0) && forall i {:trigger s[i].next} :: 0 <= i < |s| ==> s[i].next == At(s, i + 1)
  }

  ghost predicate Distinct(s: seq<Node>) {
    forall i, j :: 0 <= i < j < |s| ==> s[i] != s[j]
  }

  /** The pointers alone determine the sequence. */
  lemma {:induction false} ChainIsUnique(first: Node?, s: seq<Node>, t: seq<Node>)
    requires Chain(first, s) && Chain(first, t)
    ensures s == t
  {
    if s != [] {
      assert s[0] == t[0];
      forall i | 0 <= i < |s| - 1 ensures s[1..][i].next == At(s[1..], i + 1) {}
      forall i | 0 <= i < |t| - 1 ensures t[1..][i].next == At(t[1..], i + 1) {}
      ChainIsUnique(s[0].next, s[1..], t[1..]);
      assert s == [s[0]] + s[1..] && t == [t[0]] + t[1..];
    }
  }

  /** A chain that ends never comes back to a node: the list is acyclic. */
  lemma {:induction false} ChainIsAcyclic(first: Node?, s: seq<Node>)
    requires Chain(first, s)
    ensures Distinct(s)
  {
    forall i, j | 0 <= i < j < |s| ensures s[i] != s[j] {
      var a, b := s[i..], s[j..];
      assert |a| > |b|;
      ChainFrom(first, s, i);
      ChainFrom(first, s, j);
      if s[i] == s[j] {
        ChainIsUnique(s[i], a, b);
      }
    }
  }

  lemma ChainFrom(first: Node?, s: seq<Node>, k: nat)
    requires Chain(first, s) && k <= |s|
    ensures Chain(At(s, k), s[k..])
  {
    forall i | 0 <= i < |s| - k ensures s[k..][i].next == At(s[k..], i + 1) {}
  }

  /** A chain whose last node links to a second chain runs through both. */
  lemma ChainsJoin(s: seq<Node>, second: Node?, t: seq<Node>)
    requires forall i {:trigger s[i].next} :: 0 <= i < |s| ==> s[i].next == if i + 1 < |s| then s[i + 1] else second
    requires Chain(second, t)
    ensures Chain(if s == [] then second else s[0], s + t)
  {
    var u := s + t;
    forall i | 0 <= i < |u| ensures u[i].next == At(u, i + 1) {
      AtJoin(s, t, i + 1);
      if i < |s| {
        assert u[i] == s[i];
      } else {
        var j := i - |s|;
        assert u[i] == t[j] && t[j].next == At(t, j + 1);
      }
    }
  }

  lemma Spliced(front: seq<Node>, elm: Node, back: seq<Node>)
    requires forall i {:trigger front[i].next} :: 0 <= i < |front| ==>
      front[i].next == if i + 1 < |front| then front[i + 1] else elm
    requires Chain(elm.next, back)
    ensures Chain(if front == [] then elm else front[0], front + [elm] + back)
  {
    ChainsJoin([elm], elm.next, back);
    ChainsJoin(front, elm, [elm] + back);
    assert front + [elm] + back == front + ([elm] + back);
  }

  lemma AtJoin(s: seq<Node>, t: seq<Node>, i: nat)
    ensures At(s + t, i) == if i < |s| then s[i] else At(t, i - |s|)
  {}

  function Without(s: seq<Node>, k: nat): seq<Node>
    requires k < |s|
  {
    s[..k] + s[k + 1..]
  }

  class Queue {
    /** stqh_first */
    var first: Node?
    /** stqh_last */
    var last: Link
    ghost var elems: seq<Node>

    ghost predicate Valid()
      reads this, elems
    {
      && Chain(first, elems)
      && last == (if elems == [] then FirstOf(this) else NextOf(elems[|elems| - 1]))
    }

    /** STAILQ_INIT */
    constructor ()
      ensures Valid() && elems == []
    {
      first := null;
      last := FirstOf(this);
      elems := [];
    }

    /** STAILQ_INIT on a head that exists: the elements are forgotten, not changed. */
    method Init()
      modifies this
      ensures Valid() && elems == []
    {
      first := null;
      last := FirstOf(this);
      elems := [];
    }

    /** STAILQ_INSERT_TAIL */
    method InsertTail(elm: Node)
      requires Valid() && elm !in elems
      modifies this, elems, elm
      ensures Valid() && elems == old(elems) + [elm]
    {
      ChainIsAcyclic(first, elems);
      elm.next := null;
      match last {
        case FirstOf(head) => head.first := elm;
        case NextOf(node) => node.next := elm;
      }
      last := NextOf(elm);
      elems := elems + [elm];
    }

    /** STAILQ_INSERT_HEAD */
    method InsertHead(elm: Node)
      requires Valid() && elm !in elems
      modifies this, elm
      ensures Valid() && elems == [elm] + old(elems)
    {
      elm.next := first;
      if elm.next == null {
        last := NextOf(elm);
      }
      first := elm;
      elems := [elm] + elems;
    }

    /** STAILQ_INSERT_AFTER, for the k-th element of the queue. */
    method InsertAfter(tqelm: Node, elm: Node, ghost k: nat)
      requires Valid() && k < |elems| && elems[k] == tqelm && elm !in elems
      modifies this, elm, tqelm
      ensures Valid() && elems == old(elems)[..k + 1] + [elm] + old(elems)[k + 1..]
    {
      ghost var front, back := elems[..k + 1], elems[k + 1..];
      ChainIsAcyclic(first, elems);
      ChainFrom(first, elems, k + 1);
      assert forall i :: 0 <= i < k ==> front[i] != tqelm;
      assert tqelm !in back && elm !in back && elm !in front;
      elm.next := tqelm.next;
      if elm.next == null {
        last := NextOf(elm);
      }
      tqelm.next := elm;
      Spliced(front, elm, back);
      elems := front + [elm] + back;
    }

    /** STAILQ_REMOVE_HEAD, for a queue that is not empty. */
    method RemoveHead()
      requires Valid() && elems != []
      modifies this
      ensures Valid() && elems == old(elems)[1..]
    {
      ChainFromSecond(first, elems);
      first := first.next;
      if first == null {
        last := FirstOf(this);
      }
      elems := elems[1..];
    }

    /** STAILQ_REMOVE_AFTER, for an element that is not the last. */
    method RemoveAfter(elm: Node, ghost k: nat)
      requires Valid() && k + 1 < |elems| && elems[k] == elm
      modifies this, elm
      ensures Valid() && elems == Without(old(elems), k + 1)
    {
      ChainIsAcyclic(first, elems);
      elm.next := elm.next.next;
      if elm.next == null {
        last := NextOf(elm);
      }
      elems := Without(elems, k + 1);
    }

    /** STAILQ_REMOVE, for an element of the queue, which need not be the first or the last. */
    method Remove(elm: Node)
      requires Valid() && elm in elems
      modifies this, elems
      ensures Valid() && elm !in elems && elm.next == old(elm.next)
      ensures exists k :: 0 <= k < |old(elems)| && old(elems)[k] == elm && elems == Without(old(elems), k)
    {
      ChainIsAcyclic(first, elems);
      if first == elm {
        assert Without(elems, 0) == elems[1..];
        RemoveHead();
      } else {
        var curelm := first;
        ghost var k := 0;
        while curelm.next != elm
          invariant 0 <= k < |elems| - 1 && curelm == elems[k]
          invariant forall i :: 0 <= i <= k ==> elems[i] != elm
          decreases |elems| - k
        {
          curelm := curelm.next;
          k := k + 1;
        }
        RemoveAfter(curelm, k);
      }
    }

    /** STAILQ_CONCAT */
    method Concat(other: Queue)
      requires Valid() && other.Valid() && other != this
      requires forall n :: n in elems ==> n !in other.elems
      modifies this, elems, other
      ensures Valid() && elems == old(elems) + old(other.elems)
      ensures other.Valid() && other.elems == []
    {
      ChainIsAcyclic(first, elems);
      if other.first != null {
        match last {
          case FirstOf(head) => head.first := other.first;
          case NextOf(node) => node.next := other.first;
        }
        last := other.last;
        assert forall n :: n in other.elems ==> n.next == old(n.next);
        assert Chain(other.first, other.elems);
        ChainsJoin(elems, other.first, other.elems);
        elems := elems + other.elems;
        other.Init();
      } else {
        assert other.elems == [];
      }
    }

    /** STAILQ_SWAP: no element changes; a head that becomes empty has its own first link as
        its last link again. Swapping a queue with itself changes nothing. */
    method Swap(other: Queue)
      requires Valid() && other.Valid()
      modifies this, other
      ensures Valid() && elems == old(other.elems)
      ensures other.Valid() && other.elems == old(elems)
    {
      var swapFirst, swapLast := first, last;
      ghost var mine, theirs := elems, other.elems;
      first := other.first;
      last := other.last;
      other.first := swapFirst;
      other.last := swapLast;
      elems := theirs;
      other.elems := mine;
      assert Chain(first, theirs) && Chain(other.first, mine);
      if first == null {
        last := FirstOf(this);
      }
      if other.first == null {
        other.last := FirstOf(other);
      }
    }

    /** STAILQ_FOREACH: the walk along the links visits the elements in order. */
    method ForEach() returns (visited: seq<Node>)
      requires Valid()
      ensures visited == elems
    {
      visited := [];
      var n := first;
      while n != null
        invariant |visited| <= |elems| && visited == elems[..|visited|]
        invariant n == At(elems, |visited|)
        decreases |elems| - |visited|
      {
        visited := visited + [n];
        n := n.next;
      }
    }
  }

  lemma ChainFromSecond(first: Node?, s: seq<Node>)
    requires Chain(first, s) && s != []
    ensures Chain(s[0].next, s[1..])
  {
    forall i | 0 <= i < |s| - 1 ensures s[1..][i].next == At(s[1..], i + 1) {}
  }
}
