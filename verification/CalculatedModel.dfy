/**
 Calculated variables: a graph that grows by registration, where formulas name variables registered
 earlier, and where setting a variable pushes the change through all that depends on it. Formulas are
 uninterpreted functions of the input values; numbers are reals.
 */
module CalculatedModel {
  import opened Wrappers

  type StatusCode = s: int | 0 <= s < 0x1_0000_0000

  const GOOD: StatusCode := 0
  const BAD: StatusCode := 0x8000_0000
  const BAD_WAITING_FOR_INITIAL_DATA: StatusCode := 0x8032_0000

  /** What a variant may hold, as far as its conversion to a number goes. */
  datatype Content = Empty | Number(x: real) | Flag(b: bool) | Unconvertible

  /** A value published in the address space; a missing value is a null pointer. */
  datatype Published = Published(content: Option<Content>, status: StatusCode)

  datatype ValueState = WaitingInitialData | Good | Bad

  /** A parser variable: the number that formulas see, and its state. */
  datatype Cell = Cell(value: real, state: ValueState)

  /** The change listener: what a published value makes of the parser variable. */
  function Listen(p: Published): Cell {
    if p.status == BAD_WAITING_FOR_INITIAL_DATA then Cell(0.0, WaitingInitialData)
    else if p.status >= 0x8000_0000 then Cell(0.0, Bad)
    else
      match p.content
      case None => Cell(0.0, Bad)
      case Some(Empty) => Cell(0.0, Bad)
      case Some(Number(x)) => Cell(x, Good)
      case Some(Flag(b)) => Cell(if b then 1.0 else 0.0, Good)
      case Some(Unconvertible) => Cell(0.0, Bad)
  }

  /** A value formula over its inputs and, possibly, a status formula over its own. */
  datatype Formula = Formula(
    valueInputs: seq<nat>, value: seq<real> -> real, isBoolean: bool,
    statusInputs: seq<nat>, status: Option<seq<real> -> real>)

  datatype Variable = Source | Calculated(formula: Formula, auto: bool)

  /**
   The variables in the order of registration; for each, the calculated variables that it notifies,
   in the order in which it does, and whether it still has a parser variable.
   */
  datatype Graph = Graph(variables: seq<Variable>, notified: seq<seq<nat>>, registered: seq<bool>)

  datatype Values = Values(published: seq<Published>, cells: seq<Cell>)

  predicate IsInput(v: Variable, i: nat) {
    v.Calculated? && (i in v.formula.valueInputs || i in v.formula.statusInputs)
  }

  /** The input is registered, comes earlier, and has the variable on its list. */
  predicate Known(g: Graph, c: nat, i: nat)
    requires |g.notified| == |g.variables| == |g.registered| && c < |g.variables|
  {
    i < c && g.registered[i] && c in g.notified[i]
  }

  /** Formulas name earlier, registered variables, and these notify exactly those whose formulas name them. */
  ghost predicate WellFormed(g: Graph) {
    && |g.notified| == |g.variables| == |g.registered|
    && (forall c: nat, i: nat :: c < |g.variables| && IsInput(g.variables[c], i) ==> Known(g, c, i))
    && (forall i, k :: 0 <= i < |g.variables| && 0 <= k < |g.notified[i]| ==>
          g.notified[i][k] < |g.variables| && IsInput(g.variables[g.notified[i][k]], i))
  }

  lemma NotifiedIsLater(g: Graph, i: nat, k: nat)
    requires WellFormed(g) && i < |g.variables| && k < |g.notified[i]|
    ensures i < g.notified[i][k] < |g.variables| && IsInput(g.variables[g.notified[i][k]], i)
  {
    assert Known(g, g.notified[i][k], i);
  }

  lemma InputIsEarlier(g: Graph, c: nat, i: nat)
    requires WellFormed(g) && c < |g.variables| && IsInput(g.variables[c], i)
    ensures i < c && g.registered[i] && c in g.notified[i]
  {
    assert Known(g, c, i);
  }

  predicate Fits(g: Graph, s: Values) {
    |s.published| == |s.cells| == |g.variables|
  }

  // ---------------------------------------------------------------- calculate

  function Inputs(cells: seq<Cell>, inputs: seq<nat>): seq<real> {
    seq(|inputs|, k requires 0 <= k < |inputs| => if inputs[k] < |cells| then cells[inputs[k]].value else 0.0)
  }

  /** The first state that is not Good, if any. */
  function FirstBad(cells: seq<Cell>, inputs: seq<nat>): (r: Option<ValueState>)
    ensures r.Some? ==> !r.value.Good?
    ensures r.None? <==> forall k :: 0 <= k < |inputs| && inputs[k] < |cells| ==> cells[inputs[k]].state.Good?
  {
    if inputs == [] then None
    else if inputs[0] < |cells| && !cells[inputs[0]].state.Good? then Some(cells[inputs[0]].state)
    else FirstBad(cells, inputs[1..])
  }

  /** What a calculated variable publishes for the values that its inputs have. */
  function Calculate(f: Formula, cells: seq<Cell>): Published {
    match FirstBad(cells, f.valueInputs)
    case Some(state) => Published(Some(Empty), if state.WaitingInitialData? then BAD_WAITING_FOR_INITIAL_DATA else BAD)
    case None =>
      var status := if f.status.Some? && f.status.value(Inputs(cells, f.statusInputs)) == 0.0 then BAD else GOOD;
      var x := f.value(Inputs(cells, f.valueInputs));
      Published(Some(if f.isBoolean then Flag(x != 0.0) else Number(x)), status)
  }

  /** The arguments of a formula: the k-th is the value of the k-th input. */
  ghost predicate Arguments(cells: seq<Cell>, inputs: seq<nat>, x: seq<real>) {
    && |x| == |inputs|
    && forall k :: 0 <= k < |inputs| && inputs[k] < |cells| ==> x[k] == cells[inputs[k]].value
  }

  /** The k-th input is the first that is not Good. */
  ghost predicate FirstNotGood(cells: seq<Cell>, inputs: seq<nat>, k: int) {
    && 0 <= k < |inputs| && inputs[k] < |cells| && !cells[inputs[k]].state.Good?
    && forall j :: 0 <= j < k && inputs[j] < |cells| ==> cells[inputs[j]].state.Good?
  }

  /**
   What a formula publishes: nothing, and why, for the first input that is not Good; otherwise its
   value for the arguments, which is good unless the status formula gives zero for its own.
   */
  ghost predicate Shows(f: Formula, cells: seq<Cell>, p: Published) {
    if exists k :: FirstNotGood(cells, f.valueInputs, k) then
      exists k ::
        && FirstNotGood(cells, f.valueInputs, k)
        && p.content == Some(Empty)
        && p.status == if cells[f.valueInputs[k]].state == WaitingInitialData then 0x8032_0000 else 0x8000_0000
    else
      exists x, y ::
        && Arguments(cells, f.valueInputs, x) && Arguments(cells, f.statusInputs, y)
        && p.content == Some(if f.isBoolean then Flag(f.value(x) != 0.0) else Number(f.value(x)))
        && p.status == if f.status == None || f.status.value(y) != 0.0 then 0 else 0x8000_0000
  }

  lemma {:induction false} FirstBadIsFirst(cells: seq<Cell>, inputs: seq<nat>) returns (k: nat)
    requires FirstBad(cells, inputs).Some?
    ensures FirstNotGood(cells, inputs, k) && FirstBad(cells, inputs).value == cells[inputs[k]].state
  {
    if inputs[0] < |cells| && !cells[inputs[0]].state.Good? {
      k := 0;
    } else {
      k := FirstBadIsFirst(cells, inputs[1..]);
      k := k + 1;
    }
  }

  lemma InputsAreArguments(cells: seq<Cell>, inputs: seq<nat>)
    ensures Arguments(cells, inputs, Inputs(cells, inputs))
  {
  }

  lemma CalculateShows(f: Formula, cells: seq<Cell>)
    ensures Shows(f, cells, Calculate(f, cells))
  {
    hide Inputs, Arguments;
    if FirstBad(cells, f.valueInputs).Some? {
      var k := FirstBadIsFirst(cells, f.valueInputs);
    } else {
      InputsAreArguments(cells, f.valueInputs);
      InputsAreArguments(cells, f.statusInputs);
    }
  }

  /** What formulas see of a published value: a number as itself and a flag as 0 or 1, unless the status is bad. */
  lemma SeenByFormulas(p: Published, x: real, state: ValueState)
    ensures Listen(p) == Cell(x, state) <==>
      match state
      case WaitingInitialData => p.status == 0x8032_0000 && x == 0.0
      case Good =>
        && p.status < 0x8000_0000
        && (p.content == Some(Number(x)) || (p.content == Some(Flag(true)) && x == 1.0)
            || (p.content == Some(Flag(false)) && x == 0.0))
      case Bad =>
        && p.status != 0x8032_0000 && x == 0.0
        && (p.status >= 0x8000_0000 || p.content in {None, Some(Empty), Some(Unconvertible)})
  {
  }

  /** The calculation looks at nothing but the inputs. */
  lemma CalculateLooksAt(v: Variable, a: seq<Cell>, b: seq<Cell>)
    requires v.Calculated? && |a| == |b| && forall i :: 0 <= i < |a| && IsInput(v, i) ==> a[i] == b[i]
    ensures Calculate(v.formula, a) == Calculate(v.formula, b)
  {
    var f := v.formula;
    SameInputs(a, b, f.valueInputs);
    SameInputs(a, b, f.statusInputs);
  }

  lemma {:induction false} SameInputs(a: seq<Cell>, b: seq<Cell>, inputs: seq<nat>)
    requires |a| == |b| && forall i :: i in inputs && i < |a| ==> a[i] == b[i]
    ensures Inputs(a, inputs) == Inputs(b, inputs) && FirstBad(a, inputs) == FirstBad(b, inputs)
  {
    if inputs == [] {
    } else {
      assert forall i :: i in inputs[1..] ==> i in inputs;
      SameInputs(a, b, inputs[1..]);
      assert inputs[0] in inputs;
      forall k | 0 <= k < |inputs|
        ensures Inputs(a, inputs)[k] == Inputs(b, inputs)[k]
      {
        assert inputs[k] in inputs;
      }
    }
  }

  // ---------------------------------------------------------------- pushing a change

  /** Storing a published value; the parser variable follows if there still is one. */
  function Store(g: Graph, s: Values, i: nat, p: Published): Values
    requires WellFormed(g) && Fits(g, s) && i < |g.variables|
  {
    Values(s.published[i := p], if g.registered[i] then s.cells[i := Listen(p)] else s.cells)
  }

  /** Setting a variable: the value is stored, then those that depend on it are updated in turn. */
  function Set(g: Graph, s: Values, i: nat, p: Published): (r: Values)
    requires WellFormed(g) && Fits(g, s) && i < |g.variables|
    ensures Fits(g, r)
    decreases |g.variables| - i, 1, 0
  {
    var stored := Store(g, s, i, p);
    if g.registered[i] then Notify(g, stored, i, 0) else stored
  }

  function Notify(g: Graph, s: Values, i: nat, k: nat): (r: Values)
    requires WellFormed(g) && Fits(g, s) && i < |g.variables| && k <= |g.notified[i]|
    ensures Fits(g, r)
    decreases |g.variables| - i, 0, |g.notified[i]| - k
  {
    if k == |g.notified[i]| then s
    else Notify(g, Updated(g, s, i, k), i, k + 1)
  }

  /** One notification: the dependent calculates and sets itself, unless its updates are switched off. */
  function Updated(g: Graph, s: Values, i: nat, k: nat): (r: Values)
    requires WellFormed(g) && Fits(g, s) && i < |g.variables| && k < |g.notified[i]|
    ensures Fits(g, r)
    decreases |g.variables| - i, 0, |g.notified[i]| - k, 0
  {
    var c := g.notified[i][k];
    NotifiedIsLater(g, i, k);
    var v := g.variables[c];
    if v.auto then Set(g, s, c, Calculate(v.formula, s.cells)) else s
  }

  /** A calculated variable shows what its formula gives for the present values of its inputs. */
  predicate Consistent(g: Graph, s: Values, c: nat)
    requires Fits(g, s)
  {
    c < |g.variables| && g.variables[c].Calculated? && s.published[c] == Calculate(g.variables[c].formula, s.cells)
  }

  /** Setting a variable leaves everything before it alone. */
  lemma {:induction false} SetFrame(g: Graph, s: Values, i: nat, p: Published, j: nat)
    requires WellFormed(g) && Fits(g, s) && i < |g.variables| && j <= i
    ensures var r := Set(g, s, i, p);
      r.published[j] == (if j == i then p else s.published[j])
      && r.cells[j] == if j == i && g.registered[i] then Listen(p) else s.cells[j]
    decreases |g.variables| - i, 1, 0
  {
    if g.registered[i] {
      NotifyFrame(g, Store(g, s, i, p), i, 0, j);
    }
  }

  lemma {:induction false} NotifyFrame(g: Graph, s: Values, i: nat, k: nat, j: nat)
    requires WellFormed(g) && Fits(g, s) && i < |g.variables| && k <= |g.notified[i]| && j <= i
    ensures var r := Notify(g, s, i, k); r.published[j] == s.published[j] && r.cells[j] == s.cells[j]
    decreases |g.variables| - i, 0, |g.notified[i]| - k
  {
    if k < |g.notified[i]| {
      var c := g.notified[i][k];
      NotifiedIsLater(g, i, k);
      if g.variables[c].auto {
        SetFrame(g, s, c, Calculate(g.variables[c].formula, s.cells), j);
      }
      NotifyFrame(g, Updated(g, s, i, k), i, k + 1, j);
    }
  }

  /** A variable that has just calculated and set itself is consistent: its inputs come before it. */
  lemma CalculatedIsConsistent(g: Graph, s: Values, c: nat)
    requires WellFormed(g) && Fits(g, s) && c < |g.variables| && g.variables[c].Calculated?
    ensures Consistent(g, Set(g, s, c, Calculate(g.variables[c].formula, s.cells)), c)
  {
    hide Calculate, Set, WellFormed, IsInput;
    var p := Calculate(g.variables[c].formula, s.cells);
    var r := Set(g, s, c, p);
    SetFrame(g, s, c, p, c);
    forall i | 0 <= i < |s.cells| && IsInput(g.variables[c], i)
      ensures r.cells[i] == s.cells[i]
    {
      InputIsEarlier(g, c, i);
      SetFrame(g, s, c, p, i);
    }
    CalculateLooksAt(g.variables[c], s.cells, r.cells);
  }

  /** Setting `i` sets `d` too, through automatic updates. */
  predicate WasSet(g: Graph, i: nat, d: nat)
    requires WellFormed(g) && i < |g.variables|
    decreases |g.variables| - i, 1, 0
  {
    d == i || (g.registered[i] && WasSetFrom(g, i, 0, d))
  }

  predicate WasSetFrom(g: Graph, i: nat, k: nat, d: nat)
    requires WellFormed(g) && i < |g.variables| && k <= |g.notified[i]|
    decreases |g.variables| - i, 0, |g.notified[i]| - k
  {
    if k == |g.notified[i]| then false
    else
      NotifiedIsLater(g, i, k);
      (g.variables[g.notified[i][k]].auto && WasSet(g, g.notified[i][k], d)) || WasSetFrom(g, i, k + 1, d)
  }

  /** Setting `i` notifies `c`. */
  predicate Notifies(g: Graph, i: nat, c: nat)
    requires WellFormed(g) && i < |g.variables|
    decreases |g.variables| - i, 1, 0
  {
    g.registered[i] && NotifiesFrom(g, i, 0, c)
  }

  predicate NotifiesFrom(g: Graph, i: nat, k: nat, c: nat)
    requires WellFormed(g) && i < |g.variables| && k <= |g.notified[i]|
    decreases |g.variables| - i, 0, |g.notified[i]| - k
  {
    if k == |g.notified[i]| then false
    else
      NotifiedIsLater(g, i, k);
      var d := g.notified[i][k];
      d == c || (g.variables[d].auto && Notifies(g, d, c)) || NotifiesFrom(g, i, k + 1, c)
  }

  /** Whoever has an input that is set is notified. */
  lemma {:induction false} InputSetNotifies(g: Graph, i: nat, d: nat, c: nat)
    requires WellFormed(g) && i < |g.variables| && WasSet(g, i, d)
    requires c < |g.variables| && IsInput(g.variables[c], d)
    ensures Notifies(g, i, c)
    decreases |g.variables| - i, 1, 0
  {
    hide IsInput;
    if d == i {
      InputIsEarlier(g, c, d);
      var k :| 0 <= k < |g.notified[i]| && g.notified[i][k] == c;
      NotifiedNotifies(g, i, 0, k);
    } else {
      InputSetNotifiesFrom(g, i, 0, d, c);
    }
  }

  lemma {:induction false} InputSetNotifiesFrom(g: Graph, i: nat, k: nat, d: nat, c: nat)
    requires WellFormed(g) && i < |g.variables| && k <= |g.notified[i]| && WasSetFrom(g, i, k, d)
    requires c < |g.variables| && IsInput(g.variables[c], d)
    ensures NotifiesFrom(g, i, k, c)
    decreases |g.variables| - i, 0, |g.notified[i]| - k
  {
    hide IsInput;
    var x := g.notified[i][k];
    NotifiedIsLater(g, i, k);
    if g.variables[x].auto && WasSet(g, x, d) {
      InputSetNotifies(g, x, d, c);
    } else {
      InputSetNotifiesFrom(g, i, k + 1, d, c);
    }
  }

  lemma {:induction false} NotifiedNotifies(g: Graph, i: nat, k: nat, j: nat)
    requires WellFormed(g) && i < |g.variables| && k <= j < |g.notified[i]|
    ensures NotifiesFrom(g, i, k, g.notified[i][j])
    decreases j - k
  {
    if k < j {
      NotifiedNotifies(g, i, k + 1, j);
    }
  }

  lemma {:induction false} SetKeepsConsistent(g: Graph, s: Values, i: nat, p: Published, c: nat)
    requires WellFormed(g) && Fits(g, s) && i < |g.variables| && c < |g.variables| && c != i
    requires g.variables[c].Calculated? && g.variables[c].auto
    requires Consistent(g, s, c) || Notifies(g, i, c)
    ensures Consistent(g, Set(g, s, i, p), c)
    decreases |g.variables| - i, 1, 0
  {
    hide Calculate, Listen, NotifiesFrom;
    var stored := Store(g, s, i, p);
    if Consistent(g, s, c) && !IsInput(g.variables[c], i) {
      CalculateLooksAt(g.variables[c], s.cells, stored.cells);
    } else if IsInput(g.variables[c], i) {
      InputSetNotifies(g, i, i, c);
    }
    if g.registered[i] {
      NotifyKeepsConsistent(g, stored, i, 0, c);
    }
  }

  lemma {:induction false} NotifyKeepsConsistent(g: Graph, s: Values, i: nat, k: nat, c: nat)
    requires WellFormed(g) && Fits(g, s) && i < |g.variables| && k <= |g.notified[i]| && c < |g.variables| && c != i
    requires g.variables[c].Calculated? && g.variables[c].auto
    requires Consistent(g, s, c) || NotifiesFrom(g, i, k, c)
    ensures Consistent(g, Notify(g, s, i, k), c)
    decreases |g.variables| - i, 0, |g.notified[i]| - k
  {
    hide Calculate, Set, Consistent, Notifies;
    if k < |g.notified[i]| {
      var d := g.notified[i][k];
      NotifiedIsLater(g, i, k);
      var next := Updated(g, s, i, k);
      if d == c {
        CalculatedIsConsistent(g, s, c);
      } else if g.variables[d].auto && (Consistent(g, s, c) || Notifies(g, d, c)) {
        SetKeepsConsistent(g, s, d, Calculate(g.variables[d].formula, s.cells), c);
      }
      NotifyKeepsConsistent(g, next, i, k + 1, c);
    }
  }

  /**
   Propagation correctness. After a variable has been set, every other automatically updated variable
   that was consistent before, or that has an input which was set, directly or on the way, equals what
   its formula gives for the final values: whatever the order of notification, and however often it was
   recomputed in between.
   */
  lemma PropagationIsCorrect(g: Graph, s: Values, i: nat, p: Published, c: nat)
    requires WellFormed(g) && Fits(g, s) && i < |g.variables| && c < |g.variables| && c != i
    requires g.variables[c].Calculated? && g.variables[c].auto
    requires Consistent(g, s, c) || exists d :: 0 <= d < |g.variables| && IsInput(g.variables[c], d) && WasSet(g, i, d)
    ensures Set(g, s, i, p).published[c] == Calculate(g.variables[c].formula, Set(g, s, i, p).cells)
  {
    hide Calculate, Set, WasSet, Notifies, IsInput;
    if !Consistent(g, s, c) {
      var d :| 0 <= d < |g.variables| && IsInput(g.variables[c], d) && WasSet(g, i, d);
      InputSetNotifies(g, i, d, c);
    }
    SetKeepsConsistent(g, s, i, p, c);
  }

  // ---------------------------------------------------------------- the result is the only one

  /** The parser variable of a variable, if it has one, has what the published value makes of it. */
  predicate CellOk(g: Graph, s: Values, i: nat)
    requires WellFormed(g) && Fits(g, s) && i < |g.variables|
  {
    g.registered[i] ==> s.cells[i] == Listen(s.published[i])
  }

  lemma {:induction false} SetKeepsCells(g: Graph, s: Values, i: nat, p: Published, j: nat)
    requires WellFormed(g) && Fits(g, s) && i < |g.variables| && j < |g.variables| && (j == i || CellOk(g, s, j))
    ensures CellOk(g, Set(g, s, i, p), j)
    decreases |g.variables| - i, 1, 0
  {
    hide Calculate, Listen;
    if g.registered[i] {
      NotifyKeepsCells(g, Store(g, s, i, p), i, 0, j);
    }
  }

  lemma {:induction false} NotifyKeepsCells(g: Graph, s: Values, i: nat, k: nat, j: nat)
    requires WellFormed(g) && Fits(g, s) && i < |g.variables| && k <= |g.notified[i]|
    requires j < |g.variables| && CellOk(g, s, j)
    ensures CellOk(g, Notify(g, s, i, k), j)
    decreases |g.variables| - i, 0, |g.notified[i]| - k
  {
    hide Calculate, Listen, Set;
    if k < |g.notified[i]| {
      var c := g.notified[i][k];
      NotifiedIsLater(g, i, k);
      if g.variables[c].auto {
        SetKeepsCells(g, s, c, Calculate(g.variables[c].formula, s.cells), j);
      }
      NotifyKeepsCells(g, Updated(g, s, i, k), i, k + 1, j);
    }
  }

  /** Every calculated variable is consistent, and its parser variable follows it. */
  predicate Settled(g: Graph, s: Values)
    requires WellFormed(g) && Fits(g, s)
  {
    forall c :: 0 <= c < |g.variables| && g.variables[c].Calculated? ==> Consistent(g, s, c) && CellOk(g, s, c)
  }

  /** In a settled state the sources determine everything that is calculated. */
  lemma {:induction false} SettledIsUnique(g: Graph, a: Values, b: Values, n: nat)
    requires WellFormed(g) && Fits(g, a) && Fits(g, b) && Settled(g, a) && Settled(g, b) && n <= |g.variables|
    requires forall i :: 0 <= i < |g.variables| && g.variables[i].Source? ==> a.cells[i] == b.cells[i]
    ensures forall i :: 0 <= i < n && g.registered[i] ==> a.cells[i] == b.cells[i]
    ensures forall i :: 0 <= i < n && g.variables[i].Calculated? ==> a.published[i] == b.published[i]
  {
    hide Calculate, Listen;
    if n > 0 {
      SettledIsUnique(g, a, b, n - 1);
      if g.variables[n - 1].Calculated? {
        assert Consistent(g, a, n - 1) && Consistent(g, b, n - 1);
        forall i | 0 <= i < |a.cells| && IsInput(g.variables[n - 1], i)
          ensures a.cells[i] == b.cells[i]
        {
          InputIsEarlier(g, n - 1, i);
        }
        CalculateLooksAt(g.variables[n - 1], a.cells, b.cells);
      }
    }
  }

  predicate AllAuto(g: Graph) {
    forall c :: 0 <= c < |g.variables| && g.variables[c].Calculated? ==> g.variables[c].auto
  }

  lemma SetSettles(g: Graph, s: Values, i: nat, p: Published)
    requires WellFormed(g) && Fits(g, s) && Settled(g, s) && AllAuto(g) && i < |g.variables| && g.variables[i].Source?
    ensures Settled(g, Set(g, s, i, p))
  {
    hide Calculate, Listen, Set;
    forall c | 0 <= c < |g.variables| && g.variables[c].Calculated?
      ensures Consistent(g, Set(g, s, i, p), c) && CellOk(g, Set(g, s, i, p), c)
    {
      assert Consistent(g, s, c) && CellOk(g, s, c);
      SetKeepsConsistent(g, s, i, p, c);
      SetKeepsCells(g, s, i, p, c);
    }
  }

  /** Only the set source changes among the sources. */
  lemma {:induction false} SetSources(g: Graph, s: Values, i: nat, p: Published, j: nat)
    requires WellFormed(g) && Fits(g, s) && i < |g.variables| && j < |g.variables| && g.variables[j].Source?
    ensures Set(g, s, i, p).cells[j] == if j == i && g.registered[i] then Listen(p) else s.cells[j]
    decreases |g.variables| - i, 1, 0
  {
    hide Calculate, Listen;
    if g.registered[i] {
      NotifySources(g, Store(g, s, i, p), i, 0, j);
    }
  }

  lemma {:induction false} NotifySources(g: Graph, s: Values, i: nat, k: nat, j: nat)
    requires WellFormed(g) && Fits(g, s) && i < |g.variables| && k <= |g.notified[i]|
    requires j < |g.variables| && g.variables[j].Source?
    ensures Notify(g, s, i, k).cells[j] == s.cells[j]
    decreases |g.variables| - i, 0, |g.notified[i]| - k
  {
    hide Calculate, Listen, Set;
    if k < |g.notified[i]| {
      var c := g.notified[i][k];
      NotifiedIsLater(g, i, k);
      if g.variables[c].auto {
        SetSources(g, s, c, Calculate(g.variables[c].formula, s.cells), j);
      }
      NotifySources(g, Updated(g, s, i, k), i, k + 1, j);
    }
  }

  /**
   The order of notification does not matter: two graphs that differ in nothing else end in the same
   parser variables and the same published results.
   */
  lemma NotificationOrderIrrelevant(g: Graph, h: Graph, s: Values, i: nat, p: Published)
    requires WellFormed(g) && WellFormed(h) && g.variables == h.variables && g.registered == h.registered
    requires Fits(g, s) && Settled(g, s) && AllAuto(g) && i < |g.variables| && g.variables[i].Source?
    ensures forall j :: 0 <= j < |g.variables| && g.registered[j] ==> Set(g, s, i, p).cells[j] == Set(h, s, i, p).cells[j]
    ensures forall j :: 0 <= j < |g.variables| && g.variables[j].Calculated? ==>
      Set(g, s, i, p).published[j] == Set(h, s, i, p).published[j]
  {
    hide Calculate, Listen, Set;
    var a, b := Set(g, s, i, p), Set(h, s, i, p);
    assert Settled(h, s) by {
      SettledLooksAt(g, h, s);
    }
    SetSettles(g, s, i, p);
    SetSettles(h, s, i, p);
    SettledLooksAt(h, g, b);
    forall j | 0 <= j < |g.variables| && g.variables[j].Source?
      ensures a.cells[j] == b.cells[j]
    {
      SetSources(g, s, i, p, j);
      SetSources(h, s, i, p, j);
    }
    SettledIsUnique(g, a, b, |g.variables|);
  }

  lemma SettledLooksAt(g: Graph, h: Graph, s: Values)
    requires WellFormed(g) && WellFormed(h) && g.variables == h.variables && g.registered == h.registered && Fits(g, s)
    requires Settled(g, s)
    ensures Settled(h, s)
  {
    hide Calculate, Listen;
    forall c | 0 <= c < |h.variables| && h.variables[c].Calculated?
      ensures Consistent(h, s, c) && CellOk(h, s, c)
    {
      assert Consistent(g, s, c) && CellOk(g, s, c);
    }
  }

  /** What a settled variable shows: Good exactly when all value inputs are and the status formula agrees. */
  lemma GoodExactlyWhen(g: Graph, s: Values, c: nat)
    requires WellFormed(g) && Fits(g, s) && Settled(g, s) && c < |g.variables| && g.variables[c].Calculated?
    requires g.registered[c]
    ensures var f := g.variables[c].formula;
      s.cells[c].state.Good? <==>
        && (forall k :: 0 <= k < |f.valueInputs| && f.valueInputs[k] < |s.cells| ==> s.cells[f.valueInputs[k]].state.Good?)
        && (f.status.Some? ==> f.status.value(Inputs(s.cells, f.statusInputs)) != 0.0)
  {
    hide Inputs;
    assert Consistent(g, s, c) && CellOk(g, s, c);
  }

  // ---------------------------------------------------------------- dropping unused parser variables

  /** The second graph lacks some parser variables that notify nothing. */
  ghost predicate Thinned(g: Graph, h: Graph) {
    && g.variables == h.variables && g.notified == h.notified
    && |g.registered| == |h.registered| == |g.notified|
    && forall i :: 0 <= i < |g.registered| ==> h.registered[i] == g.registered[i] || (!h.registered[i] && g.notified[i] == [])
  }

  /** The same is published, and the parser variables that are left are the same. */
  predicate Agree(h: Graph, a: Values, b: Values) {
    && a.published == b.published && |a.cells| == |b.cells| == |h.registered|
    && forall j :: 0 <= j < |h.registered| && h.registered[j] ==> a.cells[j] == b.cells[j]
  }

  /** Dropping unused parser variables cannot be noticed: whatever is set afterwards, the same is published. */
  lemma {:induction false} ThinningIsInvisible(g: Graph, h: Graph, a: Values, b: Values, i: nat, p: Published)
    requires WellFormed(g) && WellFormed(h) && Thinned(g, h) && Fits(g, a) && Fits(h, b) && Agree(h, a, b) && i < |g.variables|
    ensures Agree(h, Set(g, a, i, p), Set(h, b, i, p))
    decreases |g.variables| - i, 1, 0
  {
    hide Calculate, Listen, WellFormed;
    if h.registered[i] {
      ThinningFrom(g, h, Store(g, a, i, p), Store(h, b, i, p), i, 0);
    }
  }

  lemma {:induction false} ThinningFrom(g: Graph, h: Graph, a: Values, b: Values, i: nat, k: nat)
    requires WellFormed(g) && WellFormed(h) && Thinned(g, h) && Fits(g, a) && Fits(h, b) && Agree(h, a, b)
    requires i < |g.variables| && k <= |g.notified[i]|
    ensures Agree(h, Notify(g, a, i, k), Notify(h, b, i, k))
    decreases |g.variables| - i, 0, |g.notified[i]| - k
  {
    hide Calculate, Set, Agree;
    if k < |g.notified[i]| {
      var c := g.notified[i][k];
      NotifiedIsLater(g, i, k);
      SameCalculation(h, a, b, c);
      if g.variables[c].auto {
        ThinningIsInvisible(g, h, a, b, c, Calculate(g.variables[c].formula, a.cells));
      }
      ThinningFrom(g, h, Updated(g, a, i, k), Updated(h, b, i, k), i, k + 1);
    }
  }

  lemma SameCalculation(h: Graph, a: Values, b: Values, c: nat)
    requires WellFormed(h) && Fits(h, a) && Fits(h, b) && Agree(h, a, b) && c < |h.variables| && h.variables[c].Calculated?
    ensures Calculate(h.variables[c].formula, a.cells) == Calculate(h.variables[c].formula, b.cells)
  {
    hide WellFormed, IsInput;
    forall j | 0 <= j < |a.cells| && IsInput(h.variables[c], j)
      ensures a.cells[j] == b.cells[j]
    {
      InputIsEarlier(h, c, j);
    }
    CalculateLooksAt(h.variables[c], a.cells, b.cells);
  }
}
