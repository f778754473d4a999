/** The tail queue of net/evsys/queue.h: every element points back to the link that points to
    it. It behaves as the sequences that ReactorState uses for the queues of the reactor. */
module TailQueue {
  import opened EventTypes

  /** The address of a link: tqh_first of the head, or tqe_next of an element. */
  datatype Link = First | NextOf(e: Ptr)

  class TailQueue {
    var first: Ptr
    var last: Link
    var next: map<Ptr, Ptr>
    var prev: map<Ptr, Link>
    ghost var order: seq<Ptr>

    /** The link that points to position i. */
    ghost function LinkTo(i: int): Link
      requires 0 <= i <= |order|
      reads this
    {
      if i == 0 then First else NextOf(order[i - 1])
    }

    ghost function At(i: int): Ptr
      reads this
    {
      if 0 <= i < |order| then order[i] else NULL
    }

    ghost predicate LinkedAt(i: int)
      requires 0 <= i < |order|
      reads this
    {
      && order[i] != NULL && order[i] in next && order[i] in prev
      && next[order[i]] == At(i + 1) && prev[order[i]] == LinkTo(i)
    }

    ghost predicate Valid()
      reads this
    {
      && NoRepeats(order)
      && first == At(0) && last == LinkTo(|order|)
      && (forall i {:trigger LinkedAt(i)} :: 0 <= i < |order| ==> LinkedAt(i))
    }

    /** TAILQ_INIT */
    constructor ()
      ensures Valid() && order == []
    {
      first, last, next, prev, order := NULL, First, map[], map[], [];
    }

    /** *link = e */
    method Store(link: Link, e: Ptr)
      modifies `first, `next
      ensures first == if link == First then e else old(first)
      ensures next == if link == First then old(next) else old(next)[link.e := e]
    {
      match link
      case First => first := e;
      case NextOf(p) => next := next[p := e];
    }

    /** TAILQ_INSERT_TAIL */
    method InsertTail(elm: Ptr)
      requires Valid() && elm != NULL && elm !in order
      modifies this
      ensures Valid() && order == old(order) + [elm]
    {
      ghost var o := order;
      assert forall i {:trigger LinkedAt(i)} :: 0 <= i < |o| ==> LinkedAt(i);
      next := next[elm := NULL];
      prev := prev[elm := last];
      Store(last, elm);
      last := NextOf(elm);
      order := order + [elm];
      forall i | 0 <= i < |order| ensures LinkedAt(i) {
        assert order[i] == if i < |o| then o[i] else elm;
        if i < |o| { assert old(LinkedAt(i)); }
      }
    }

    /** TAILQ_REMOVE */
    method Remove(elm: Ptr)
      requires Valid() && elm in order
      modifies this
      ensures Valid() && order == Without(old(order), elm)
    {
      ghost var k :| 0 <= k < |order| && order[k] == elm;
      WithoutAt(order, k);
      RemoveAt(elm, k);
    }

    method RemoveAt(elm: Ptr, ghost k: int)
      requires Valid() && 0 <= k < |order| && order[k] == elm
      modifies this
      ensures Valid() && order == old(order[..k] + order[k + 1..])
    {
      ghost var o := order;
      assert LinkedAt(k);
      assert k + 1 < |order| ==> LinkedAt(k + 1);
      assert k > 0 ==> LinkedAt(k - 1);
      if next[elm] != NULL {
        prev := prev[next[elm] := prev[elm]];
      } else {
        last := prev[elm];
      }
      Store(prev[elm], next[elm]);
      order := o[..k] + o[k + 1..];
      forall i | 0 <= i < |order| ensures LinkedAt(i) {
        var j := if i < k then i else i + 1;
        assert order[i] == o[j] && old(LinkedAt(j));
        assert j + 1 < |o| ==> o[j + 1] != o[j];
      }
    }

    /** TAILQ_FOREACH from TAILQ_FIRST by TAILQ_NEXT visits the elements in their order. */
    method Visit() returns (visited: seq<Ptr>)
      requires Valid()
      ensures visited == order
    {
      var e := first;
      visited := [];
      while e != NULL
        invariant |visited| <= |order| && visited == order[..|visited|] && e == At(|visited|)
        decreases |order| - |visited|
      {
        assert LinkedAt(|visited|);
        visited := visited + [e];
        e := next[e];
      }
      assert |visited| < |order| ==> LinkedAt(|visited|);
    }
  }
}
