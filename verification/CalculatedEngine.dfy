/** The calculated variables as the engine keeps them, registered, set, thinned out and synchronised in place. */
module CalculatedEngine {
  import opened Wrappers
  import opened CalculatedModel
  import opened LockDomains

  /** A variable and the graph after it has been registered, with the lists that it was added to. */
  function Extended(g: Graph, v: Variable, requests: seq<nat>): Graph
    requires |g.notified| == |g.variables|
  {
    Graph(g.variables + [v], WithRequests(g.notified, requests, |g.variables|) + [[]], g.registered + [true])
  }

  /** Every request for a variable puts the requestor on its list. */
  function WithRequests(notified: seq<seq<nat>>, requests: seq<nat>, c: nat): (r: seq<seq<nat>>)
    ensures |r| == |notified|
  {
    if requests == [] then notified
    else
      var before := WithRequests(notified, requests[..|requests| - 1], c);
      var j := requests[|requests| - 1];
      if j < |before| then before[j := before[j] + [c]] else before
  }

  /**
   The names in a formula, in the order in which its parser asks for them until it is through or comes
   upon an error.
   */
  datatype FormulaText = FormulaText(names: seq<string>, sound: bool)

  const WAITING := Published(Some(Empty), BAD_WAITING_FOR_INITIAL_DATA)

  function Joining(s: Values, p: Published): Values {
    Values(s.published + [p], s.cells + [Cell(0.0, WaitingInitialData)])
  }

  lemma {:induction false} RequestsNotify(notified: seq<seq<nat>>, requests: seq<nat>, c: nat, i: nat)
    requires i < |notified|
    ensures notified[i] <= WithRequests(notified, requests, c)[i]
    ensures i !in requests ==> WithRequests(notified, requests, c)[i] == notified[i]
    ensures i in requests ==> c in WithRequests(notified, requests, c)[i]
    ensures forall k :: |notified[i]| <= k < |WithRequests(notified, requests, c)[i]| ==>
      WithRequests(notified, requests, c)[i][k] == c
  {
    if requests == [] {
    } else {
      var front, j := requests[..|requests| - 1], requests[|requests| - 1];
      assert requests == front + [j];
      RequestsNotify(notified, front, c, i);
      var before, after := WithRequests(notified, front, c), WithRequests(notified, requests, c);
      if j == i {
        assert after[i] == before[i] + [c];
        assert after[i][|before[i]|] == c;
      } else {
        assert after[i] == before[i];
      }
    }
  }

  /** How often `i` is requested. */
  function Requests(requests: seq<nat>, i: nat): set<nat> {
    set k | 0 <= k < |requests| && requests[k] == i
  }

  /** A requestor is put on the list of a variable once for each of its requests for it. */
  lemma {:induction false} RequestsCount(notified: seq<seq<nat>>, requests: seq<nat>, c: nat, i: nat)
    requires i < |notified|
    ensures |WithRequests(notified, requests, c)[i]| == |notified[i]| + |Requests(requests, i)|
  {
    if requests == [] {
    } else {
      var n := |requests| - 1;
      RequestsCount(notified, requests[..n], c, i);
      assert Requests(requests, i) == Requests(requests[..n], i) + if requests[n] == i then {n} else {};
    }
  }

  lemma {:induction false} WithRequestsAppend(notified: seq<seq<nat>>, a: seq<nat>, b: seq<nat>, c: nat)
    ensures WithRequests(WithRequests(notified, a, c), b, c) == WithRequests(notified, a + b, c)
  {
    if b == [] {
      assert a + b == a;
    } else {
      WithRequestsAppend(notified, a, b[..|b| - 1], c);
      assert (a + b)[..|a + b| - 1] == a + b[..|b| - 1];
    }
  }

  /** Requests of a variable that is then not added: none, or the lists name a variable that there is not. */
  lemma Dangling(g: Graph, requests: seq<nat>)
    requires WellFormed(g) && forall k :: 0 <= k < |requests| ==> requests[k] < |g.variables|
    ensures var h := g.(notified := WithRequests(g.notified, requests, |g.variables|));
      && (WellFormed(h) <==> requests == []) && (h.notified == g.notified <==> requests == [])
  {
    var n, after := |g.variables|, WithRequests(g.notified, requests, |g.variables|);
    if requests != [] {
      hide WithRequests;
      var i := requests[0];
      RequestsNotify(g.notified, requests, n, i);
      var k :| 0 <= k < |after[i]| && after[i][k] == n;
      assert !WellFormed(g.(notified := after)) && g.(notified := g.notified) == g;
    }
  }

  /** Registering a variable whose inputs are those requested keeps the graph well formed. */
  lemma ExtendedIsWellFormed(g: Graph, v: Variable, requests: seq<nat>)
    requires WellFormed(g) && (forall k :: 0 <= k < |requests| ==> requests[k] < |g.variables| && g.registered[requests[k]])
    requires forall i: nat :: IsInput(v, i) <==> i in requests
    ensures WellFormed(Extended(g, v, requests))
  {
    hide IsInput, WithRequests;
    var n, h := |g.variables|, Extended(g, v, requests);
    assert h.notified[n] == [] && h.variables[n] == v;
    forall c: nat, i: nat | c < |h.variables| && IsInput(h.variables[c], i)
      ensures Known(h, c, i)
    {
      if c < n {
        InputIsEarlier(g, c, i);
        RequestsNotify(g.notified, requests, n, i);
        var k :| 0 <= k < |g.notified[i]| && g.notified[i][k] == c;
        assert h.notified[i][k] == c;
      } else {
        var k :| 0 <= k < |requests| && requests[k] == i;
        RequestsNotify(g.notified, requests, n, i);
      }
    }
    forall i, k | 0 <= i < |h.variables| && 0 <= k < |h.notified[i]|
      ensures h.notified[i][k] < |h.variables| && IsInput(h.variables[h.notified[i][k]], i)
    {
      if i < n {
        RequestsNotify(g.notified, requests, n, i);
        if k < |g.notified[i]| {
          assert h.notified[i][k] == g.notified[i][k];
          NotifiedIsLater(g, i, k);
        }
      }
    }
  }

  // ---------------------------------------------------------------- what a synchronising search leaves

  /** Parser variables that got this synchroniser between two moments. */
  predicate Newly(before: Synchronizers, after: Synchronizers, q: nat)
    requires |before| == |after|
  {
    q < |before| && before[q].None? && after[q].Some?
  }

  /** All neighbours have a synchroniser. */
  ghost predicate Complete(g: Graph, sync: Synchronizers, q: nat)
    requires |g.registered| == |g.variables| == |sync|
  {
    forall r: nat :: r < |sync| && Adjacent(g, q, r) ==> sync[r].Some?
  }

  /** What a search from `p` has added so far; `p` itself may still have neighbours to be visited. */
  ghost predicate Spread(g: Graph, before: Synchronizers, after: Synchronizers, p: nat, domain: nat)
    requires |g.registered| == |g.variables| == |before| == |after|
  {
    && (forall q :: 0 <= q < |before| && before[q].Some? ==> after[q] == before[q])
    && (forall q: nat :: Newly(before, after, q) ==>
          after[q] == Some(domain) && CanJoin(g, q) && Connected(g, p, q) && (q != p ==> Complete(g, after, q)))
  }

  lemma SpreadThen(g: Graph, a: Synchronizers, b: Synchronizers, c: Synchronizers, p: nat, q: nat, domain: nat)
    requires |g.registered| == |g.variables| == |a| == |b| == |c|
    requires Spread(g, a, b, p, domain) && Spread(g, b, c, q, domain) && Adjacent(g, p, q) && Complete(g, c, q)
    requires p < |a| && b[p].Some?
    ensures Spread(g, a, c, p, domain)
  {
    hide Connected, Adjacent, CanJoin;
    forall r: nat | Newly(a, c, r)
      ensures c[r] == Some(domain) && CanJoin(g, r) && Connected(g, p, r) && (r != p ==> Complete(g, c, r))
    {
      if Newly(a, b, r) {
        assert r != p ==> Complete(g, b, r);
      } else {
        assert Newly(b, c, r);
        ConnectedStep(g, p, q);
        ConnectedTrans(g, p, q, r);
      }
    }
  }

  lemma NeighbourOfNew(g: Graph, sync: Synchronizers, q: nat, r: nat)
    requires |g.registered| == |g.variables| == |sync| && Closed(g, sync)
    requires q < |sync| && r < |sync| && sync[q].None? && Adjacent(g, q, r)
    ensures sync[r].None?
  {
    assert Adjacent(g, r, q);
  }

  /** A complete search from a variable without a synchroniser, under a new number, keeps the partition. */
  lemma SearchKeepsPartition(g: Graph, before: Synchronizers, after: Synchronizers, p: nat, domain: nat)
    requires |g.registered| == |g.variables| == |before| == |after|
    requires Closed(g, before) && Joined(g, before) && p < |before| && before[p].None? && after[p].Some?
    requires forall q :: 0 <= q < |before| && before[q].Some? ==> before[q].value < domain
    requires Spread(g, before, after, p, domain) && Complete(g, after, p)
    ensures Closed(g, after) && Joined(g, after)
    ensures forall q :: 0 <= q < |after| && after[q].Some? ==> after[q].value < domain + 1
  {
    hide Connected, CanJoin, IsInput;
    forall q: nat, r: nat | q < |after| && r < |after| && after[q].Some? && Adjacent(g, q, r)
      ensures after[r] == after[q]
    {
      if Newly(before, after, q) {
        assert Complete(g, after, q);
        NeighbourOfNew(g, before, q, r);
        assert Newly(before, after, r);
      } else {
        assert before[r] == before[q];
      }
    }
    forall q: nat, r: nat | q < |after| && r < |after| && after[q].Some? && after[q] == after[r]
      ensures Connected(g, q, r)
    {
      if Newly(before, after, q) {
        assert Newly(before, after, r);
        ConnectedSym(g, p, q);
        ConnectedTrans(g, q, p, r);
      } else if Newly(before, after, r) {
        assert false;
      }
    }
  }

  /** The inputs of a variable and those that it notifies are its neighbours, as far as they can join. */
  lemma NeighboursAdjacent(g: Graph, p: nat)
    requires WellFormed(g) && CanJoin(g, p)
    ensures AllAdjacent(g, p, g.notified[p])
    ensures g.variables[p].Calculated? ==> AllAdjacent(g, p, g.variables[p].formula.valueInputs)
    ensures g.variables[p].Calculated? ==> AllAdjacent(g, p, g.variables[p].formula.statusInputs)
  {
  }

  predicate AllAdjacent(g: Graph, p: nat, neighbours: seq<nat>)
    requires |g.registered| == |g.variables|
  {
    forall k :: 0 <= k < |neighbours| ==> CanJoin(g, neighbours[k]) ==> Adjacent(g, p, neighbours[k])
  }

  // ---------------------------------------------------------------- the inputs of a formula

  /** `i` is the first parser variable with the name. */
  ghost predicate FirstNamed(names: seq<string>, registered: seq<bool>, name: string, i: nat) {
    && |names| == |registered| && i < |names| && registered[i] && names[i] == name
    && forall j :: 0 <= j < i ==> !(registered[j] && names[j] == name)
  }

  /** `at` lists, in order, where each element of `s` is mentioned for the first time. */
  ghost predicate FirstMentions<T>(s: seq<T>, at: seq<nat>) {
    && (forall k :: 0 <= k < |at| ==> at[k] < |s| && forall j :: 0 <= j < at[k] ==> s[j] != s[at[k]])
    && (forall k, l :: 0 <= k < l < |at| ==> at[k] < at[l])
    && (forall j :: 0 <= j < |s| ==> Mentioned(s, at, j))
  }

  ghost predicate Mentioned<T>(s: seq<T>, at: seq<nat>, j: nat)
    requires j < |s|
  {
    exists k :: 0 <= k < |at| && at[k] < |s| && s[at[k]] == s[j]
  }

  /** The k-th input is the first parser variable with the k-th of the names, in the order of their first mention. */
  ghost predicate InputsByName(names: seq<string>, registered: seq<bool>, wanted: seq<string>, inputs: seq<nat>) {
    exists at :: FirstMentions(wanted, at) && |at| == |inputs|
      && forall k :: 0 <= k < |inputs| ==> FirstNamed(names, registered, wanted[at[k]], inputs[k])
  }

  lemma MentionsGrow(s: seq<nat>, at: seq<nat>, x: nat)
    requires FirstMentions(s, at) && x !in s
    ensures FirstMentions(s + [x], at + [|s|])
  {
    var t, at' := s + [x], at + [|s|];
    forall j | 0 <= j < |t|
      ensures Mentioned(t, at', j)
    {
      if j < |s| {
        assert Mentioned(s, at, j);
        var k :| 0 <= k < |at| && at[k] < |s| && s[at[k]] == s[j];
        assert t[at'[k]] == t[j];
      } else {
        assert t[at'[|at|]] == x;
      }
    }
  }

  lemma MentionedAgain(s: seq<nat>, at: seq<nat>, x: nat)
    requires FirstMentions(s, at) && x in s
    ensures FirstMentions(s + [x], at)
  {
    var t := s + [x];
    var i :| 0 <= i < |s| && s[i] == x;
    forall j | 0 <= j < |t|
      ensures Mentioned(t, at, j)
    {
      var m := if j < |s| then j else i;
      assert Mentioned(s, at, m);
      var k :| 0 <= k < |at| && at[k] < |s| && s[at[k]] == s[m];
      assert t[at[k]] == t[j];
    }
  }

  /** What the names of a formula were found to be, without repetitions, are its inputs. */
  lemma FoundByName(
    names: seq<string>, registered: seq<bool>, wanted: seq<string>, found: seq<nat>, at: seq<nat>, inputs: seq<nat>)
    requires |found| == |wanted| && forall k :: 0 <= k < |found| ==> FirstNamed(names, registered, wanted[k], found[k])
    requires FirstMentions(found, at) && |at| == |inputs|
    requires forall k :: 0 <= k < |inputs| ==> inputs[k] == found[at[k]]
    ensures InputsByName(names, registered, wanted, inputs)
  {
    forall j, k | 0 <= j < |wanted| && 0 <= k < |wanted|
      ensures wanted[j] == wanted[k] <==> found[j] == found[k]
    {
      assert FirstNamed(names, registered, wanted[j], found[j]) && FirstNamed(names, registered, wanted[k], found[k]);
    }
    forall j | 0 <= j < |wanted|
      ensures Mentioned(wanted, at, j)
    {
      assert Mentioned(found, at, j);
    }
  }

  lemma InputsAreRequests(f: Formula, values: seq<nat>, statuses: seq<nat>)
    requires forall i :: i in f.valueInputs <==> i in values
    requires forall i :: i in f.statusInputs <==> i in statuses
    ensures forall i: nat :: IsInput(Calculated(f, true), i) <==> i in values + statuses
  {
  }

  class Engine {
    var names: seq<string>
    var variables: seq<Variable>
    var notified: seq<seq<nat>>
    var registered: seq<bool>
    var published: seq<Published>
    var cells: seq<Cell>
    var synchronizers: Synchronizers
    var synchronizerCount: nat

    function GraphView(): Graph
      reads this`variables, this`notified, this`registered
    {
      Graph(variables, notified, registered)
    }

    function ValuesView(): Values
      reads this`published, this`cells
    {
      Values(published, cells)
    }

    ghost predicate Valid()
      reads this
    {
      && WellFormed(GraphView()) && Fits(GraphView(), ValuesView())
      && |names| == |variables| == |synchronizers| == |notified| == |registered|
    }

    constructor ()
      ensures Valid() && GraphView() == Graph([], [], []) && ValuesView() == Values([], [])
      ensures synchronizers == [] && names == [] && synchronizerCount == 0
    {
      names, variables, notified, registered := [], [], [], [];
      published, cells, synchronizers, synchronizerCount := [], [], [], 0;
    }

    /** Puts a plain variable on the list; formulas see nothing of it until it is set. */
    method RegisterVariable(name: string, p: Published)
      requires Valid()
      modifies this
      ensures Valid() && names == old(names) + [name]
      ensures GraphView() == Extended(old(GraphView()), Source, [])
      ensures ValuesView() == Joining(old(ValuesView()), p)
      ensures synchronizers == old(synchronizers) + [None] && synchronizerCount == old(synchronizerCount)
      ensures variables == old(variables) + [Source] && notified == old(notified) + [[]]
      ensures registered == old(registered) + [true] && published == old(published) + [p]
      ensures cells == old(cells) + [Cell(0.0, WaitingInitialData)]
    {
      ExtendedIsWellFormed(GraphView(), Source, []);
      Join(name, Source, p);
    }

    method Join(name: string, v: Variable, p: Published)
      modifies this
      ensures names == old(names) + [name] && variables == old(variables) + [v]
      ensures notified == old(notified) + [[]] && registered == old(registered) + [true]
      ensures ValuesView() == Joining(old(ValuesView()), p)
      ensures synchronizers == old(synchronizers) + [None] && synchronizerCount == old(synchronizerCount)
    {
      names, variables := names + [name], variables + [v];
      notified, registered := notified + [[]], registered + [true];
      published, cells := published + [p], cells + [Cell(0.0, WaitingInitialData)];
      synchronizers := synchronizers + [None];
    }

    /** The first parser variable with a name. */
    method RequestVariable(name: string) returns (r: Option<nat>)
      requires |names| == |variables| == |registered|
      ensures r.Some? ==> r.value < |variables| && registered[r.value] && names[r.value] == name
      ensures var bound := if r.Some? then r.value else |names|;
        forall j :: 0 <= j < bound ==> !(registered[j] && names[j] == name)
    {
      for i := 0 to |names|
        invariant forall j :: 0 <= j < i ==> !(registered[j] && names[j] == name)
      {
        if registered[i] && names[i] == name {
          return Some(i);
        }
      }
      r := None;
    }

    /** No parser variable has the name. */
    predicate Unknown(name: string)
      requires |names| == |registered|
      reads this`names, this`registered
    {
      forall j :: 0 <= j < |names| ==> !(registered[j] && names[j] == name)
    }

    /**
     Looks up the variables that a formula names, and puts the requestor on the list of each as it is
     found, up to the first name that is unknown.
     */
    method RequestInputs(wanted: seq<string>, c: nat) returns (all: bool, found: seq<nat>)
      requires |names| == |variables| == |registered| == |notified|
      modifies this`notified
      ensures notified == WithRequests(old(notified), found, c)
      ensures |found| <= |wanted| && all == (|found| == |wanted|)
      ensures forall k :: 0 <= k < |found| ==> FirstNamed(names, registered, wanted[k], found[k])
      ensures !all ==> Unknown(wanted[|found|])
    {
      found := [];
      for k := 0 to |wanted|
        invariant |found| == k && notified == WithRequests(old(notified), found, c)
        invariant forall m :: 0 <= m < k ==> FirstNamed(names, registered, wanted[m], found[m])
      {
        var one := RequestVariable(wanted[k]);
        if one.None? {
          return false, found;
        }
        assert (found + [one.value])[..k] == found;
        notified := notified[one.value := notified[one.value] + [c]];
        found := found + [one.value];
      }
      all := true;
    }

    /** The inputs without repetitions, in the order in which they are first mentioned, at the positions `at`. */
    method Distinct(requests: seq<nat>) returns (inputs: seq<nat>, ghost at: seq<nat>)
      ensures FirstMentions(requests, at) && |at| == |inputs|
      ensures forall k :: 0 <= k < |inputs| ==> inputs[k] == requests[at[k]]
      ensures forall i :: i in inputs <==> i in requests
    {
      inputs, at := [], [];
      for k := 0 to |requests|
        invariant FirstMentions(requests[..k], at) && |at| == |inputs|
        invariant forall m :: 0 <= m < |inputs| ==> inputs[m] == requests[at[m]]
        invariant forall i :: i in inputs <==> i in requests[..k]
      {
        assert requests[..k + 1] == requests[..k] + [requests[k]];
        if requests[k] !in inputs {
          MentionsGrow(requests[..k], at, requests[k]);
          inputs, at := inputs + [requests[k]], at + [k];
        } else {
          MentionedAgain(requests[..k], at, requests[k]);
        }
      }
      assert requests[..|requests|] == requests;
    }

    /**
     Adds a calculated variable. Every name in its formulas is requested as the formula is read, so a
     refusal, by an unknown name, an error in a formula or a node that cannot be added, leaves the
     requests made before it on the lists. Otherwise the variable is either set to its initial value or
     calculated.
     */
    method InstantiateCalculatedVariable(
      name: string, valueText: FormulaText, value: seq<real> -> real, isBoolean: bool,
      statusText: FormulaText, status: Option<seq<real> -> real>, nodeOk: bool, initial: Option<Content>)
      returns (ok: bool, ghost v: Variable, ghost requests: seq<nat>)
      requires Valid()
      modifies this
      ensures |requests| <= |valueText.names + statusText.names| && forall k :: 0 <= k < |requests| ==>
        FirstNamed(old(names), old(registered), (valueText.names + statusText.names)[k], requests[k])
      ensures !ok ==> notified == WithRequests(old(notified), requests, old(|variables|))
      ensures !ok ==> names == old(names) && variables == old(variables) && registered == old(registered)
      ensures !ok ==> ValuesView() == old(ValuesView()) && synchronizers == old(synchronizers)
      ensures !ok ==>
        || (|requests| < |valueText.names + statusText.names| && Unknown((valueText.names + statusText.names)[|requests|]))
        || (|requests| == |valueText.names| && !valueText.sound)
        || (|requests| == |valueText.names + statusText.names| && (!statusText.sound || !nodeOk))
      ensures !ok ==> (notified == old(notified) <==> requests == []) && (Valid() <==> requests == [])
      ensures ok ==> |requests| == |valueText.names + statusText.names| && valueText.sound && statusText.sound && nodeOk
      ensures ok ==> Valid() && v.Calculated? && v.auto
      ensures ok ==> v.formula.value == value && v.formula.status == status && v.formula.isBoolean == isBoolean
      ensures ok ==>
        && InputsByName(old(names), old(registered), valueText.names, v.formula.valueInputs)
        && InputsByName(old(names), old(registered), statusText.names, v.formula.statusInputs)
      ensures ok ==> forall i: nat :: IsInput(v, i) <==> i in requests
      ensures ok ==> GraphView() == Extended(old(GraphView()), v, requests)
      ensures ok ==> ValuesView() == Set(GraphView(), Joining(old(ValuesView()), WAITING), old(|variables|),
        if initial.Some? then Published(initial, GOOD) else Calculate(v.formula, Joining(old(ValuesView()), WAITING).cells))
    {
      hide Set, Calculate, WellFormed, WithRequests, IsInput, FirstMentions, InputsByName;
      ghost var g := GraphView();
      var c := |variables|;
      v := Source;
      var all, values := RequestInputs(valueText.names, c);
      requests := values;
      Dangling(g, requests);
      if !all || !valueText.sound {
        return false, v, requests;
      }
      var statuses;
      all, statuses := RequestInputs(statusText.names, c);
      WithRequestsAppend(g.notified, values, statuses, c);
      requests := values + statuses;
      Dangling(g, requests);
      if !all || !statusText.sound || !nodeOk {
        return false, v, requests;
      }
      ok := true;
      var valueInputs, valuesAt := Distinct(values);
      var statusInputs, statusesAt := Distinct(statuses);
      FoundByName(names, registered, valueText.names, values, valuesAt, valueInputs);
      FoundByName(names, registered, statusText.names, statuses, statusesAt, statusInputs);
      var f := Formula(valueInputs, value, isBoolean, statusInputs, status);
      v := Calculated(f, true);
      InputsAreRequests(f, values, statuses);
      ExtendedIsWellFormed(g, v, requests);
      Join(name, Calculated(f, true), WAITING);
      assert GraphView() == Extended(g, v, requests);
      if initial.Some? {
        SetValue(c, Published(initial, GOOD));
      } else {
        var p := CalculateNow(f);
        SetValue(c, p);
      }
    }

    /** The value that a formula gives now; the first value input that is not good decides. */
    method CalculateNow(f: Formula) returns (p: Published)
      requires Valid()
      ensures p == Calculate(f, cells) && Shows(f, cells, p)
    {
      hide Inputs, Shows;
      CalculateShows(f, cells);
      for k := 0 to |f.valueInputs|
        invariant FirstBad(cells, f.valueInputs) == FirstBad(cells, f.valueInputs[k..])
      {
        var i := f.valueInputs[k];
        assert f.valueInputs[k..][0] == i && f.valueInputs[k..][1..] == f.valueInputs[k + 1..];
        if i < |cells| && !cells[i].state.Good? {
          return Published(Some(Empty), if cells[i].state.WaitingInitialData? then BAD_WAITING_FOR_INITIAL_DATA else BAD);
        }
      }
      var final := GOOD;
      if f.status.Some? {
        var x := f.status.value(Inputs(cells, f.statusInputs));
        final := if x != 0.0 then GOOD else BAD;
      }
      var updated := f.value(Inputs(cells, f.valueInputs));
      p := Published(Some(if f.isBoolean then Flag(updated != 0.0) else Number(updated)), final);
    }

    /** Sets a variable: stores the value, and pushes it through everything that depends on it. */
    method SetValue(i: nat, p: Published)
      requires Valid() && i < |variables|
      modifies this`published, this`cells
      ensures Valid() && ValuesView() == Set(GraphView(), old(ValuesView()), i, p)
      decreases |variables| - i
    {
      hide Calculate, Listen, WellFormed;
      ghost var g := GraphView();
      published := published[i := p];
      if !registered[i] {
        return;
      }
      cells := cells[i := Listen(p)];
      ghost var stored := ValuesView();
      for k := 0 to |notified[i]|
        invariant Valid() && g == GraphView()
        invariant Notify(g, stored, i, 0) == Notify(g, ValuesView(), i, k)
      {
        NotifiedIsLater(g, i, k);
        var c := notified[i][k];
        var v := variables[c];
        if v.auto {
          var next := CalculateNow(v.formula);
          SetValue(c, next);
        }
      }
    }

    /** Drops the parser variables that no formula uses, unless others listen to the variable too. */
    method Optimize(listeners: seq<nat>)
      requires Valid() && |listeners| == |variables|
      modifies this`registered
      ensures Valid()
      ensures forall i :: 0 <= i < |registered| ==>
        registered[i] == (old(registered)[i] && (notified[i] != [] || listeners[i] > 1))
      ensures Thinned(old(GraphView()), GraphView())
    {
      for i := 0 to |registered|
        invariant |registered| == |variables|
        invariant forall j :: 0 <= j < |registered| ==>
          registered[j] == if j < i then old(registered)[j] && (notified[j] != [] || listeners[j] > 1) else old(registered)[j]
      {
        if registered[i] && notified[i] == [] {
          if listeners[i] <= 1 {
            registered := registered[i := false];
          }
        }
      }
    }

    // -------------------------------------------------------------- lock domains

    ghost function Unmarked(): set<nat>
      reads this`synchronizers
    {
      set q: nat | q < |synchronizers| && synchronizers[q].None?
    }

    /** Gives a synchroniser to a variable and to everything that can be reached from it without one. */
    method DfsAndSetSynchronizer(p: nat, domain: nat)
      requires Valid() && CanJoin(GraphView(), p)
      requires synchronizers[p].None? || synchronizers[p] == Some(domain)
      modifies this`synchronizers
      ensures Valid() && synchronizers[p] == Some(domain)
      ensures Spread(GraphView(), old(synchronizers), synchronizers, p, domain)
      ensures Complete(GraphView(), synchronizers, p)
      decreases Unmarked() - {p}, 1
    {
      hide WellFormed, IsInput, Connected;
      ghost var g := GraphView();
      ghost var before := synchronizers;
      synchronizers := synchronizers[p := Some(domain)];
      assert Unmarked() == old(Unmarked()) - {p};
      ConnectedSelf(g, p);
      NeighboursAdjacent(g, p);
      assert Spread(g, before, synchronizers, p, domain);
      if variables[p].Calculated? {
        Visit(p, variables[p].formula.valueInputs, domain, before);
        Visit(p, variables[p].formula.statusInputs, domain, before);
      }
      Visit(p, notified[p], domain, before);
      AllVisited(g, synchronizers, p);
    }

    method Visit(p: nat, neighbours: seq<nat>, domain: nat, ghost before: Synchronizers)
      requires Valid() && CanJoin(GraphView(), p) && synchronizers[p] == Some(domain) && |before| == |synchronizers|
      requires AllAdjacent(GraphView(), p, neighbours)
      requires Spread(GraphView(), before, synchronizers, p, domain)
      modifies this`synchronizers
      ensures Valid() && synchronizers[p] == Some(domain)
      ensures Unmarked() <= old(Unmarked())
      ensures forall q :: 0 <= q < |synchronizers| && old(synchronizers)[q].Some? ==>
        synchronizers[q] == old(synchronizers)[q]
      ensures Spread(GraphView(), before, synchronizers, p, domain)
      ensures forall k :: 0 <= k < |neighbours| ==> CanJoin(GraphView(), neighbours[k]) ==> synchronizers[neighbours[k]].Some?
      decreases Unmarked(), 0
    {
      hide WellFormed, IsInput, Connected;
      ghost var g := GraphView();
      for k := 0 to |neighbours|
        invariant Valid() && g == GraphView() && synchronizers[p] == Some(domain)
        invariant Unmarked() <= old(Unmarked())
        invariant forall q :: 0 <= q < |synchronizers| && old(synchronizers)[q].Some? ==>
          synchronizers[q] == old(synchronizers)[q]
        invariant Spread(g, before, synchronizers, p, domain)
        invariant forall m :: 0 <= m < k ==> CanJoin(g, neighbours[m]) ==> synchronizers[neighbours[m]].Some?
      {
        var q := neighbours[k];
        if CanJoin(GraphView(), q) && synchronizers[q].None? {
          ghost var now := synchronizers;
          assert q in Unmarked();
          DfsAndSetSynchronizer(q, domain);
          SpreadThen(g, before, now, synchronizers, p, q, domain);
        }
      }
    }

    /** Divides the variables into lock domains, beginning with the one registered last. */
    method SetupSynchronization()
      requires Valid() && (forall q :: 0 <= q < |synchronizers| ==> synchronizers[q].None?) && synchronizerCount == 0
      modifies this`synchronizers, this`synchronizerCount
      ensures Valid() && Closed(GraphView(), synchronizers) && Joined(GraphView(), synchronizers)
      ensures DomainsComplete(GraphView(), synchronizers) && AllInUse(synchronizers, synchronizerCount)
    {
      hide WellFormed, IsInput, Connected, CanJoin, TakesPart, InUse;
      ghost var g := GraphView();
      for i := |variables| downto 0
        invariant Valid() && g == GraphView() && Closed(g, synchronizers) && Joined(g, synchronizers)
        invariant forall q :: i <= q < |synchronizers| && CanJoin(g, q) && notified[q] != [] ==> synchronizers[q].Some?
        invariant forall q :: 0 <= q < |synchronizers| && synchronizers[q].Some? ==> TakesPart(g, q)
        invariant AllInUse(synchronizers, synchronizerCount)
      {
        if CanJoin(GraphView(), i) && |notified[i]| >= 1 && synchronizers[i].None? {
          ghost var before := synchronizers;
          var domain := synchronizerCount;
          synchronizerCount := synchronizerCount + 1;
          DfsAndSetSynchronizer(i, domain);
          SearchKeepsPartition(g, before, synchronizers, i, domain);
          SearchTakesPart(g, before, synchronizers, i, domain);
          OneMoreInUse(before, synchronizers, i, domain);
        }
      }
      PartitionIsComplete(g, synchronizers);
    }
  }

  /** Everything that a search comes upon takes part in a calculation. */
  lemma SearchTakesPart(g: Graph, before: Synchronizers, after: Synchronizers, p: nat, domain: nat)
    requires WellFormed(g) && |g.variables| == |before| == |after| && p < |before|
    requires CanJoin(g, p) && g.notified[p] != [] && Spread(g, before, after, p, domain)
    requires forall q :: 0 <= q < |before| && before[q].Some? ==> TakesPart(g, q)
    ensures forall q :: 0 <= q < |after| && after[q].Some? ==> TakesPart(g, q)
  {
    hide Connected, CanJoin;
    forall q | 0 <= q < |after| && after[q].Some?
      ensures TakesPart(g, q)
    {
      if Newly(before, after, q) {
        if q == p {
          VariesCanJoin(g, p);
        } else {
          ConnectedTakesPart(g, p, q);
        }
      }
    }
  }

  lemma OneMoreInUse(before: Synchronizers, after: Synchronizers, p: nat, domain: nat)
    requires |before| == |after| && AllInUse(before, domain) && p < |after| && after[p] == Some(domain)
    requires forall q :: 0 <= q < |before| && before[q].Some? ==> after[q] == before[q]
    requires forall q: nat :: Newly(before, after, q) ==> after[q] == Some(domain)
    ensures AllInUse(after, domain + 1)
  {
    forall d | 0 <= d < domain + 1
      ensures InUse(after, d)
    {
      if d < domain {
        assert InUse(before, d);
        var q :| 0 <= q < |before| && before[q] == Some(d);
        assert after[q] == Some(d);
      } else {
        assert after[p] == Some(d);
      }
    }
    forall q | 0 <= q < |after| && after[q].Some?
      ensures after[q].value < domain + 1
    {
      assert Newly(before, after, q) || before[q].Some?;
    }
  }

  /** With everything that notifies somebody, everything that takes part has a synchroniser. */
  lemma PartitionIsComplete(g: Graph, sync: Synchronizers)
    requires WellFormed(g) && |sync| == |g.variables| && Closed(g, sync)
    requires forall q :: 0 <= q < |sync| && CanJoin(g, q) && g.notified[q] != [] ==> sync[q].Some?
    requires forall q :: 0 <= q < |sync| && sync[q].Some? ==> TakesPart(g, q)
    ensures DomainsComplete(g, sync)
  {
    hide CanJoin;
    forall q | 0 <= q < |sync| && TakesPart(g, q)
      ensures sync[q].Some?
    {
      VariesCanJoin(g, q);
      if g.notified[q] == [] {
        var i: nat :| Varies(g, i) && IsInput(g.variables[q], i);
        InputIsEarlier(g, q, i);
        VariesCanJoin(g, i);
        assert sync[i].Some? && Adjacent(g, i, q);
      }
    }
  }

  /** With its inputs and the variables that it notifies, a variable's neighbours have all been visited. */
  lemma AllVisited(g: Graph, sync: Synchronizers, p: nat)
    requires WellFormed(g) && |sync| == |g.variables| && CanJoin(g, p)
    requires g.variables[p].Calculated? ==>
      && (forall k :: 0 <= k < |g.variables[p].formula.valueInputs| ==>
            CanJoin(g, g.variables[p].formula.valueInputs[k]) ==> sync[g.variables[p].formula.valueInputs[k]].Some?)
      && (forall k :: 0 <= k < |g.variables[p].formula.statusInputs| ==>
            CanJoin(g, g.variables[p].formula.statusInputs[k]) ==> sync[g.variables[p].formula.statusInputs[k]].Some?)
    requires forall k :: 0 <= k < |g.notified[p]| ==> CanJoin(g, g.notified[p][k]) ==> sync[g.notified[p][k]].Some?
    ensures Complete(g, sync, p)
  {
    forall r: nat | r < |sync| && Adjacent(g, p, r)
      ensures sync[r].Some?
    {
      if IsInput(g.variables[r], p) {
        assert r in g.notified[p];
      }
    }
  }

  // ---------------------------------------------------------------- registration and consistency

  /** Registering and setting a new variable leaves every earlier one as it was. */
  lemma RegistrationKeepsConsistent(g: Graph, v: Variable, requests: seq<nat>, s: Values, p: Published, c: nat)
    requires WellFormed(g) && Fits(g, s) && WellFormed(Extended(g, v, requests)) && c < |g.variables|
    requires Fits(Extended(g, v, requests), Joining(s, WAITING))
    requires Consistent(g, s, c)
    ensures Consistent(Extended(g, v, requests), Set(Extended(g, v, requests), Joining(s, WAITING), |g.variables|, p), c)
  {
    hide Calculate, Set, Listen;
    var h, n := Extended(g, v, requests), |g.variables|;
    var r := Set(h, Joining(s, WAITING), n, p);
    SetFrame(h, Joining(s, WAITING), n, p, c);
    forall i | 0 <= i < |r.cells| && IsInput(g.variables[c], i)
      ensures r.cells[i] == Joining(s, WAITING).cells[i]
    {
      InputIsEarlier(g, c, i);
      SetFrame(h, Joining(s, WAITING), n, p, i);
    }
    CalculateLooksAt(g.variables[c], r.cells, Joining(s, WAITING).cells);
    InputsOfEarlier(g, s, c);
  }

  lemma InputsOfEarlier(g: Graph, s: Values, c: nat)
    requires WellFormed(g) && Fits(g, s) && c < |g.variables| && g.variables[c].Calculated?
    ensures Calculate(g.variables[c].formula, Joining(s, WAITING).cells) == Calculate(g.variables[c].formula, s.cells)
  {
    var f := g.variables[c].formula;
    forall k | 0 <= k < |f.valueInputs|
      ensures f.valueInputs[k] < c
    {
      InputIsEarlier(g, c, f.valueInputs[k]);
    }
    forall k | 0 <= k < |f.statusInputs|
      ensures f.statusInputs[k] < c
    {
      InputIsEarlier(g, c, f.statusInputs[k]);
    }
    SamePrefixInputs(s.cells, Joining(s, WAITING).cells, f.valueInputs);
    SamePrefixInputs(s.cells, Joining(s, WAITING).cells, f.statusInputs);
  }

  lemma {:induction false} SamePrefixInputs(a: seq<Cell>, b: seq<Cell>, inputs: seq<nat>)
    requires a <= b && forall k :: 0 <= k < |inputs| ==> inputs[k] < |a|
    ensures Inputs(a, inputs) == Inputs(b, inputs) && FirstBad(a, inputs) == FirstBad(b, inputs)
  {
    if inputs == [] {
    } else {
      SamePrefixInputs(a, b, inputs[1..]);
    }
  }
}
