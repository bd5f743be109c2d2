/**
 The lock domains of calculated variables: which parser variables are connected, what it means that
 synchronisers divide them by connection, and that a change stays within its domain.
 */
module LockDomains {
  import opened Wrappers
  import opened CalculatedModel

  /** A calculated variable without inputs. */
  predicate IsConstant(v: Variable) {
    v.Calculated? && v.formula.valueInputs == [] && v.formula.statusInputs == []
  }

  /** A parser variable that can be in a domain. */
  predicate CanJoin(g: Graph, i: nat)
    requires |g.registered| == |g.variables|
  {
    i < |g.variables| && g.registered[i] && !IsConstant(g.variables[i])
  }

  /** One is an input of the other, and both have parser variables that are no constants. */
  predicate Adjacent(g: Graph, p: nat, q: nat)
    requires |g.registered| == |g.variables|
  {
    CanJoin(g, p) && CanJoin(g, q) && (IsInput(g.variables[p], q) || IsInput(g.variables[q], p))
  }

  predicate PathTo(g: Graph, p: nat, path: seq<nat>, q: nat)
    requires |g.registered| == |g.variables|
    decreases path
  {
    if path == [] then p == q else Adjacent(g, p, path[0]) && PathTo(g, path[0], path[1..], q)
  }

  ghost predicate Connected(g: Graph, p: nat, q: nat)
    requires |g.registered| == |g.variables|
  {
    exists path :: PathTo(g, p, path, q)
  }

  lemma {:induction false} PathAppend(g: Graph, p: nat, a: seq<nat>, q: nat, b: seq<nat>, r: nat)
    requires |g.registered| == |g.variables| && PathTo(g, p, a, q) && PathTo(g, q, b, r)
    ensures PathTo(g, p, a + b, r)
    decreases a
  {
    hide Adjacent;
    if a == [] {
      assert a + b == b;
    } else {
      PathAppend(g, a[0], a[1..], q, b, r);
      assert (a + b)[1..] == a[1..] + b;
    }
  }

  lemma {:induction false} PathReverse(g: Graph, p: nat, path: seq<nat>, q: nat) returns (back: seq<nat>)
    requires |g.registered| == |g.variables| && PathTo(g, p, path, q)
    ensures PathTo(g, q, back, p)
    decreases path
  {
    hide CanJoin, IsInput;
    if path == [] {
      back := [];
    } else {
      var rest := PathReverse(g, path[0], path[1..], q);
      assert Adjacent(g, path[0], p);
      assert [p][1..] == [] && PathTo(g, path[0], [p], p);
      PathAppend(g, q, rest, path[0], [p], p);
      back := rest + [p];
    }
  }

  lemma ConnectedSelf(g: Graph, p: nat)
    requires |g.registered| == |g.variables|
    ensures Connected(g, p, p)
  {
    assert PathTo(g, p, [], p);
  }

  lemma ConnectedStep(g: Graph, p: nat, q: nat)
    requires |g.registered| == |g.variables| && Adjacent(g, p, q)
    ensures Connected(g, p, q)
  {
    hide Adjacent;
    assert [q][1..] == [] && PathTo(g, p, [q], q);
  }

  lemma ConnectedTrans(g: Graph, p: nat, q: nat, r: nat)
    requires |g.registered| == |g.variables| && Connected(g, p, q) && Connected(g, q, r)
    ensures Connected(g, p, r)
  {
    hide PathTo;
    var a :| PathTo(g, p, a, q);
    var b :| PathTo(g, q, b, r);
    PathAppend(g, p, a, q, b, r);
  }

  lemma ConnectedSym(g: Graph, p: nat, q: nat)
    requires |g.registered| == |g.variables| && Connected(g, p, q)
    ensures Connected(g, q, p)
  {
    hide PathTo;
    var path :| PathTo(g, p, path, q);
    var back := PathReverse(g, p, path, q);
  }

  // ---------------------------------------------------------------- partitions

  type Synchronizers = seq<Option<nat>>

  /** Only variables that can join have a synchroniser, and with one goes that of every neighbour. */
  ghost predicate Closed(g: Graph, sync: Synchronizers)
    requires |g.registered| == |g.variables| == |sync|
  {
    && (forall q: nat :: q < |sync| && sync[q].Some? ==> CanJoin(g, q))
    && (forall q: nat, r: nat :: q < |sync| && r < |sync| && sync[q].Some? && Adjacent(g, q, r) ==> sync[r] == sync[q])
  }

  /** Variables that share a synchroniser are connected. */
  ghost predicate Joined(g: Graph, sync: Synchronizers)
    requires |g.registered| == |g.variables| == |sync|
  {
    forall q: nat, r: nat :: q < |sync| && r < |sync| && sync[q].Some? && sync[q] == sync[r] ==> Connected(g, q, r)
  }

  lemma {:induction false} SharedAlongPath(g: Graph, sync: Synchronizers, p: nat, path: seq<nat>, q: nat)
    requires |g.registered| == |g.variables| == |sync| && Closed(g, sync)
    requires p < |sync| && sync[p].Some? && PathTo(g, p, path, q)
    ensures q < |sync| && sync[q] == sync[p]
    decreases path
  {
    if path != [] {
      SharedAlongPath(g, sync, path[0], path[1..], q);
    }
  }

  /** Lock domains are connected components. */
  lemma DomainsAreComponents(g: Graph, sync: Synchronizers, p: nat, q: nat)
    requires |g.registered| == |g.variables| == |sync| && Closed(g, sync) && Joined(g, sync)
    requires p < |sync| && q < |sync| && sync[p].Some? && sync[q].Some?
    ensures sync[p] == sync[q] <==> Connected(g, p, q)
  {
    hide Closed, PathTo;
    if Connected(g, p, q) {
      var path :| PathTo(g, p, path, q);
      SharedAlongPath(g, sync, p, path, q);
    }
  }

  /** A parser variable that is no formula without inputs. */
  ghost predicate Varies(g: Graph, q: nat)
    requires |g.registered| == |g.variables|
  {
    && q < |g.variables| && g.registered[q]
    && (g.variables[q] == Source
        || exists i: nat :: i in g.variables[q].formula.valueInputs || i in g.variables[q].formula.statusInputs)
  }

  /** It takes part in a calculation: a formula names it, or it names a varying parser variable itself. */
  ghost predicate TakesPart(g: Graph, q: nat)
    requires |g.registered| == |g.variables| == |g.notified|
  {
    && Varies(g, q)
    && (g.notified[q] != [] || (g.variables[q] != Source && exists i: nat ::
          && Varies(g, i)
          && (i in g.variables[q].formula.valueInputs || i in g.variables[q].formula.statusInputs)))
  }

  lemma VariesCanJoin(g: Graph, q: nat)
    requires |g.registered| == |g.variables|
    ensures CanJoin(g, q) <==> Varies(g, q)
  {
    if q < |g.variables| && g.variables[q].Calculated? {
      var f := g.variables[q].formula;
      if f.valueInputs != [] {
        assert f.valueInputs[0] in f.valueInputs;
      } else if f.statusInputs != [] {
        assert f.statusInputs[0] in f.statusInputs;
      }
    }
  }

  /** Whoever takes part notifies somebody or has a neighbour, and the other way round. */
  lemma NeighbourTakesPart(g: Graph, q: nat, r: nat)
    requires WellFormed(g) && Adjacent(g, q, r)
    ensures TakesPart(g, q)
  {
    VariesCanJoin(g, q);
    VariesCanJoin(g, r);
    if IsInput(g.variables[r], q) {
      InputIsEarlier(g, r, q);
    }
  }

  lemma ConnectedTakesPart(g: Graph, p: nat, q: nat)
    requires WellFormed(g) && Connected(g, p, q) && p != q
    ensures TakesPart(g, q)
  {
    hide Adjacent;
    ConnectedSym(g, p, q);
    var path :| PathTo(g, q, path, p);
    NeighbourTakesPart(g, q, path[0]);
  }

  /** Exactly the parser variables that take part in a calculation have a synchroniser. */
  ghost predicate DomainsComplete(g: Graph, sync: Synchronizers)
    requires |g.registered| == |g.variables| == |g.notified| == |sync|
  {
    forall q :: 0 <= q < |sync| ==> (sync[q].Some? <==> TakesPart(g, q))
  }

  /** Every number below `count` is a synchroniser in use, and no other. */
  ghost predicate AllInUse(sync: Synchronizers, count: nat) {
    && (forall q :: 0 <= q < |sync| && sync[q].Some? ==> sync[q].value < count)
    && (forall d :: 0 <= d < count ==> InUse(sync, d))
  }

  ghost predicate InUse(sync: Synchronizers, domain: nat) {
    exists q :: 0 <= q < |sync| && sync[q] == Some(domain)
  }

  // ---------------------------------------------------------------- a change stays in its domain

  /** What a change does not set it leaves alone. */
  lemma {:induction false} UnsetUntouched(g: Graph, s: Values, i: nat, p: Published, j: nat)
    requires WellFormed(g) && Fits(g, s) && i < |g.variables| && j < |g.variables| && !WasSet(g, i, j)
    ensures Set(g, s, i, p).cells[j] == s.cells[j] && Set(g, s, i, p).published[j] == s.published[j]
    decreases |g.variables| - i, 1, 0
  {
    hide Calculate, Listen, WasSetFrom;
    if g.registered[i] {
      UnsetUntouchedFrom(g, Store(g, s, i, p), i, 0, j);
    }
  }

  lemma {:induction false} UnsetUntouchedFrom(g: Graph, s: Values, i: nat, k: nat, j: nat)
    requires WellFormed(g) && Fits(g, s) && i < |g.variables| && k <= |g.notified[i]| && j < |g.variables|
    requires !WasSetFrom(g, i, k, j)
    ensures Notify(g, s, i, k).cells[j] == s.cells[j] && Notify(g, s, i, k).published[j] == s.published[j]
    decreases |g.variables| - i, 0, |g.notified[i]| - k
  {
    hide Calculate, Listen, Set, WasSet;
    if k < |g.notified[i]| {
      var c := g.notified[i][k];
      NotifiedIsLater(g, i, k);
      if g.variables[c].auto {
        UnsetUntouched(g, s, c, Calculate(g.variables[c].formula, s.cells), j);
      }
      UnsetUntouchedFrom(g, Updated(g, s, i, k), i, k + 1, j);
    }
  }

  lemma {:induction false} SetIsConnected(g: Graph, i: nat, j: nat)
    requires WellFormed(g) && CanJoin(g, i) && j < |g.variables| && g.registered[j] && WasSet(g, i, j)
    ensures Connected(g, i, j)
    decreases |g.variables| - i, 1, 0
  {
    hide Connected;
    if i == j {
      ConnectedSelf(g, i);
    } else {
      SetFromIsConnected(g, i, 0, j);
    }
  }

  lemma {:induction false} SetFromIsConnected(g: Graph, i: nat, k: nat, j: nat)
    requires WellFormed(g) && CanJoin(g, i) && j < |g.variables| && g.registered[j]
    requires k <= |g.notified[i]| && WasSetFrom(g, i, k, j)
    ensures Connected(g, i, j)
    decreases |g.variables| - i, 0, |g.notified[i]| - k
  {
    hide Connected, WasSet;
    var c := g.notified[i][k];
    NotifiedIsLater(g, i, k);
    if g.variables[c].auto && WasSet(g, c, j) {
      RegisteredIfPassed(g, c, j);
      ConnectedStep(g, i, c);
      SetIsConnected(g, c, j);
      ConnectedTrans(g, i, c, j);
    } else {
      SetFromIsConnected(g, i, k + 1, j);
    }
  }

  lemma RegisteredIfPassed(g: Graph, c: nat, j: nat)
    requires WellFormed(g) && c < |g.variables| && j < |g.variables| && g.registered[j] && WasSet(g, c, j)
    ensures g.registered[c]
  {
  }

  /** Setting a variable of one lock domain changes no parser variable of another. */
  lemma ChangeStaysInDomain(g: Graph, s: Values, sync: Synchronizers, i: nat, p: Published, j: nat)
    requires WellFormed(g) && Fits(g, s) && |sync| == |g.variables| && Closed(g, sync) && Joined(g, sync)
    requires i < |sync| && j < |sync| && sync[i].Some? && sync[j].Some? && sync[i] != sync[j]
    ensures Set(g, s, i, p).cells[j] == s.cells[j]
  {
    hide Set, WasSet, Connected, Joined;
    if WasSet(g, i, j) {
      SetIsConnected(g, i, j);
      DomainsAreComponents(g, sync, i, j);
    }
    UnsetUntouched(g, s, i, p, j);
  }

  /** The graphs differ in nothing but one variable, which has no parser variable. */
  ghost predicate DifferUnlinked(g: Graph, h: Graph, k: nat) {
    && |g.variables| == |h.variables| == |g.registered| && g.registered == h.registered
    && k < |g.variables| && !g.registered[k]
    && forall i :: 0 <= i < |g.variables| && i != k ==> g.variables[i] == h.variables[i]
  }

  lemma {:induction false} PathWithoutUnlinked(g: Graph, h: Graph, k: nat, p: nat, path: seq<nat>, q: nat)
    requires DifferUnlinked(g, h, k) && PathTo(g, p, path, q)
    ensures PathTo(h, p, path, q)
    decreases path
  {
    if path != [] {
      PathWithoutUnlinked(g, h, k, path[0], path[1..], q);
    }
  }

  /**
   A calculated variable whose own parser variable is gone connects nothing: whatever its formula reads, and
   even if it were no formula at all, the same variables are connected.
   */
  lemma UnlinkedConnectsNothing(g: Graph, h: Graph, k: nat, p: nat, q: nat)
    requires DifferUnlinked(g, h, k)
    ensures Connected(g, p, q) <==> Connected(h, p, q)
  {
    hide PathTo;
    forall path | PathTo(g, p, path, q)
      ensures PathTo(h, p, path, q)
    {
      PathWithoutUnlinked(g, h, k, p, path, q);
    }
    forall path | PathTo(h, p, path, q)
      ensures PathTo(g, p, path, q)
    {
      PathWithoutUnlinked(h, g, k, p, path, q);
    }
  }

  /**
   In particular the inputs of formulas need not share a domain: with every calculated variable unlinked,
   each variable is connected to itself alone, although the formulas read many.
   */
  lemma UnlinkedInputsStayApart(g: Graph, p: nat, path: seq<nat>, q: nat)
    requires |g.registered| == |g.variables| && PathTo(g, p, path, q)
    requires forall c :: 0 <= c < |g.variables| && g.variables[c].Calculated? ==> !g.registered[c]
    ensures p == q
  {
  }
}
