/**
 The content order of a configuration element: which child, of which type and at which index, comes
 when. The validating loop and the operations that decorate a configuration have to agree on it.
 */
module ContentOrder {

  /** One entry: a child type and the index of a child among those of its type. */
  datatype Entry = Entry(typeId: nat, index: nat)

  /** The indices recorded for a child type, in order. */
  function IndicesOf(order: seq<Entry>, typeId: nat): seq<nat> {
    if order == [] then []
    else
      var last := order[|order| - 1];
      IndicesOf(order[..|order| - 1], typeId) + if last.typeId == typeId then [last.index] else []
  }

  predicate NoDuplicates(s: seq<nat>) {
    forall i, j :: 0 <= i < j < |s| ==> s[i] != s[j]
  }

  /** The numbers below n, each exactly once, in some order. */
  predicate IsPermutation(s: seq<nat>, n: nat) {
    && NoDuplicates(s)
    && (forall k :: k in s ==> k < n)
    && (forall k :: 0 <= k < n ==> k in s)
  }

  lemma IndicesOne(order: seq<Entry>, e: Entry, typeId: nat)
    ensures IndicesOf(order + [e], typeId) == IndicesOf(order, typeId) + if e.typeId == typeId then [e.index] else []
  {
    assert (order + [e])[..|order|] == order;
  }

  lemma {:induction false} IndicesAppend(a: seq<Entry>, b: seq<Entry>, typeId: nat)
    ensures IndicesOf(a + b, typeId) == IndicesOf(a, typeId) + IndicesOf(b, typeId)
  {
    if b == [] {
      assert a + b == a;
    } else {
      IndicesAppend(a, b[..|b| - 1], typeId);
      assert (a + b)[..|a + b| - 1] == a + b[..|b| - 1];
    }
  }

  /**
   Checks the content order for the children of one type. It accepts exactly when the indices
   recorded for the type are a permutation of the indices of its children.
   */
  method ValidateContentOrder(childCount: nat, order: seq<Entry>, typeId: nat) returns (ok: bool)
    ensures ok <==> IsPermutation(IndicesOf(order, typeId), childCount)
  {
    var valid: set<nat> := {};
    for i := 0 to childCount
      invariant forall k: nat :: k in valid <==> k < i
    {
      valid := valid + {i};
    }
    for e := 0 to |order|
      invariant NoDuplicates(IndicesOf(order[..e], typeId))
      invariant forall k :: k in IndicesOf(order[..e], typeId) ==> k < childCount
      invariant forall k: nat :: k in valid <==> k < childCount && k !in IndicesOf(order[..e], typeId)
    {
      var entry := order[e];
      assert order[..e + 1] == order[..e] + [entry];
      IndicesOne(order[..e], entry, typeId);
      if entry.typeId == typeId {
        if entry.index !in valid {
          RefusedForGood(order, e, childCount, typeId);
          return false;
        }
        valid := valid - {entry.index};
      }
    }
    assert order[..|order|] == order;
    ok := valid == {};
    if !ok {
      var k :| k in valid;
    } else {
      assert forall k :: 0 <= k < childCount && k !in IndicesOf(order, typeId) ==> k in valid;
    }
  }

  /** Once an index is out of range or repeated, no further entry can mend it. */
  lemma RefusedForGood(order: seq<Entry>, e: nat, n: nat, typeId: nat)
    requires e < |order| && order[e].typeId == typeId
    requires order[e].index >= n || order[e].index in IndicesOf(order[..e], typeId)
    ensures !IsPermutation(IndicesOf(order, typeId), n)
  {
    var front, rest, index := IndicesOf(order[..e], typeId), IndicesOf(order[e + 1..], typeId), order[e].index;
    assert order == (order[..e] + [order[e]]) + order[e + 1..];
    IndicesAppend(order[..e] + [order[e]], order[e + 1..], typeId);
    IndicesOne(order[..e], order[e], typeId);
    var all := IndicesOf(order, typeId);
    assert all == front + [index] + rest;
    assert all[|front|] == index && index in all;
    hide IndicesOf;
    if index in front {
      var i :| 0 <= i < |front| && front[i] == index;
      assert all[i] == all[|front|];
      assert !NoDuplicates(all);
    }
  }

  /** The content order without the entries of a type. */
  function WithoutType(order: seq<Entry>, typeId: nat): seq<Entry> {
    if order == [] then []
    else
      var last := order[|order| - 1];
      WithoutType(order[..|order| - 1], typeId) + if last.typeId == typeId then [] else [last]
  }

  lemma WithoutTypeOne(order: seq<Entry>, e: Entry, typeId: nat)
    ensures WithoutType(order + [e], typeId) == WithoutType(order, typeId) + if e.typeId == typeId then [] else [e]
  {
    assert (order + [e])[..|order|] == order;
  }

  function CountOf<T>(children: map<nat, seq<T>>, typeId: nat): nat {
    if typeId in children then |children[typeId]| else 0
  }

  function ChildrenOf<T>(children: map<nat, seq<T>>, typeId: nat): seq<T> {
    if typeId in children then children[typeId] else []
  }

  /** The content order fits the children of every type. */
  ghost predicate Ordered<T>(children: map<nat, seq<T>>, order: seq<Entry>) {
    forall t: nat :: IsPermutation(IndicesOf(order, t), CountOf(children, t))
  }

  /** A configuration element with its children, by type, and its content order. */
  class Parent<T> {
    var children: map<nat, seq<T>>
    var order: seq<Entry>

    constructor ()
      ensures children == map[] && order == []
    {
      children, order := map[], [];
    }

    /** Adds a child at the end of those of its type and at the end of the content order. */
    method PushBack(child: T, typeId: nat)
      modifies this
      ensures children == old(children)[typeId := ChildrenOf(old(children), typeId) + [child]]
      ensures order == old(order) + [Entry(typeId, CountOf(old(children), typeId))]
      ensures old(Ordered(children, order)) ==> Ordered(children, order)
    {
      var count := CountOf(children, typeId);
      PushBackKeepsOrdered(children, order, child, typeId);
      children := children[typeId := ChildrenOf(children, typeId) + [child]];
      order := order + [Entry(typeId, count)];
    }

    /** Removes the children of a type, and their entries from the content order. */
    method Clear(typeId: nat)
      modifies this
      ensures children == old(children)[typeId := []]
      ensures order == WithoutType(old(order), typeId)
      ensures old(Ordered(children, order)) ==> Ordered(children, order)
    {
      ClearKeepsOrdered(children, order, typeId);
      children := children[typeId := []];
      var kept: seq<Entry> := [];
      for i := 0 to |order|
        invariant order == old(order) && kept == WithoutType(order[..i], typeId)
        invariant children == old(children)[typeId := []]
      {
        assert order[..i + 1] == order[..i] + [order[i]];
        WithoutTypeOne(order[..i], order[i], typeId);
        if order[i].typeId != typeId {
          kept := kept + [order[i]];
        }
      }
      assert order[..|order|] == order;
      order := kept;
    }
  }

  lemma PermutationGrows(s: seq<nat>, n: nat)
    requires IsPermutation(s, n)
    ensures IsPermutation(s + [n], n + 1)
  {
    forall k | 0 <= k < n + 1
      ensures k in s + [n]
    {
      assert k < n ==> k in s;
    }
    forall i | 0 <= i < |s|
      ensures s[i] != n
    {
      assert s[i] in s;
    }
  }

  /** Adding a child keeps the content order in agreement, for every type. */
  lemma PushBackKeepsOrdered<T>(children: map<nat, seq<T>>, order: seq<Entry>, child: T, typeId: nat)
    ensures Ordered(children, order) ==>
      Ordered(children[typeId := ChildrenOf(children, typeId) + [child]], order + [Entry(typeId, CountOf(children, typeId))])
  {
    if Ordered(children, order) {
      var e := Entry(typeId, CountOf(children, typeId));
      var after := children[typeId := ChildrenOf(children, typeId) + [child]];
      forall t: nat
        ensures IsPermutation(IndicesOf(order + [e], t), CountOf(after, t))
      {
        assert IsPermutation(IndicesOf(order, t), CountOf(children, t));
        IndicesOne(order, e, t);
        PermutationGrows(IndicesOf(order, t), CountOf(children, t));
        assert IndicesOf(order, t) + [] == IndicesOf(order, t);
      }
    }
  }

  lemma {:induction false} IndicesWithout(order: seq<Entry>, removed: nat, t: nat)
    ensures IndicesOf(WithoutType(order, removed), t) == if t == removed then [] else IndicesOf(order, t)
  {
    if order == [] {
    } else {
      var front, last := order[..|order| - 1], order[|order| - 1];
      IndicesWithout(front, removed, t);
      if last.typeId == removed {
        assert WithoutType(order, removed) == WithoutType(front, removed);
      } else {
        IndicesOne(WithoutType(front, removed), last, t);
      }
    }
  }

  /** So does clearing a type; the other types keep their order among themselves. */
  lemma ClearKeepsOrdered<T>(children: map<nat, seq<T>>, order: seq<Entry>, typeId: nat)
    ensures Ordered(children, order) ==> Ordered(children[typeId := []], WithoutType(order, typeId))
  {
    if Ordered(children, order) {
      forall t: nat
        ensures IsPermutation(IndicesOf(WithoutType(order, typeId), t), CountOf(children[typeId := []], t))
      {
        assert IsPermutation(IndicesOf(order, t), CountOf(children, t));
        IndicesWithout(order, typeId, t);
      }
    }
  }
}
