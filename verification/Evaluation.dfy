/** What bindings and conditions come to at run time, and when they come to nothing. */
module Evaluation {
  import opened Prelude
  import opened Bindings
  import opened BindingPaths

  /**
   * What evaluation draws on. Values are opaque text: `at` follows a pointer into one, `number` is the
   * integer it is, if it is one, and `objectOf` and `arrayOf` make one of several.
   */
  datatype World = World(
    values: map<Reference, string>,
    at: (string, string) -> Option<string>,
    number: string -> Option<int>,
    objectOf: seq<(string, string)> -> string,
    arrayOf: seq<string> -> string)

  // ----- evaluation -----

  /** Nothing if a reference or a pointer leads nowhere. */
  function Eval(b: Binding, w: World): Option<string>
    decreases b, 0
  {
    match b
    case Literal(value) => Some(value)
    case From(r, path) =>
      if r !in w.values then None else if path.None? then Some(w.values[r]) else w.at(w.values[r], path.value)
    case Object(fields) => (match EvalFields(fields, w) case None => None case Some(parts) => Some(w.objectOf(parts)))
    case Array(items) => (match EvalItems(items, w) case None => None case Some(parts) => Some(w.arrayOf(parts)))
  }

  function EvalFields(fields: seq<Field>, w: World): Option<seq<(string, string)>>
    decreases fields
  {
    if fields == [] then Some([])
    else
      match (Eval(fields[0].binding, w), EvalFields(fields[1..], w))
      case (Some(first), Some(rest)) => Some([(fields[0].name, first)] + rest)
      case _ => None
  }

  function EvalItems(items: seq<Binding>, w: World): Option<seq<string>>
    decreases items
  {
    if items == [] then Some([])
    else
      match (Eval(items[0], w), EvalItems(items[1..], w))
      case (Some(first), Some(rest)) => Some([first] + rest)
      case _ => None
  }

  function Compared(op: CompareOp, a: string, b: string, w: World): Option<bool> {
    if op.Eq? then Some(a == b)
    else if op.Ne? then Some(a != b)
    else
      match (w.number(a), w.number(b))
      case (Some(m), Some(n)) =>
        Some(match op case Lt => m < n case Le => m <= n case Gt => m > n case _ => m >= n)
      case _ => None
  }

  /** Nothing if evaluation fails before the outcome is settled. */
  function Truth(c: Condition, w: World): Option<bool>
    decreases c, 0
  {
    match c
    case Compare(op, left, right) =>
      (match (Eval(left, w), Eval(right, w))
       case (Some(a), Some(b)) => Compared(op, a, b, w)
       case _ => None)
    case All(items) => Until(items, false, w)
    case Any(items) => Until(items, true, w)
    case Not(inner) => (match Truth(inner, w) case None => None case Some(t) => Some(!t))
    case Exists(binding) => Some(Eval(binding, w).Some?)
  }

  /** Evaluates from the left until one comes to `stop`. */
  function Until(items: seq<Condition>, stop: bool, w: World): Option<bool>
    decreases items
  {
    if items == [] then Some(!stop)
    else
      match Truth(items[0], w)
      case None => None
      case Some(t) => if t == stop then Some(stop) else Until(items[1..], stop, w)
  }

  // ----- when a binding has a value -----

  /** The reference at `path`, if there is one, has a value, and its pointer leads somewhere. */
  ghost predicate Resolves(b: Binding, path: seq<Turn>, w: World) {
    At(b, path).Some? && At(b, path).value.From? ==>
      var leaf := At(b, path).value;
      leaf.reference in w.values && (leaf.path.Some? ==> w.at(w.values[leaf.reference], leaf.path.value).Some?)
  }

  ghost predicate AllResolve(b: Binding, w: World) {
    forall path :: Resolves(b, path, w)
  }

  lemma {:induction false} FieldsSome(fields: seq<Field>, w: World)
    ensures EvalFields(fields, w).Some? <==> forall i :: 0 <= i < |fields| ==> Eval(fields[i].binding, w).Some?
    decreases |fields|
  {
    if fields != [] {
      FieldsSome(fields[1..], w);
      assert forall i :: 0 < i < |fields| ==> fields[1..][i - 1] == fields[i];
    }
  }

  lemma {:induction false} ItemsSome(items: seq<Binding>, w: World)
    ensures EvalItems(items, w).Some? <==> forall i :: 0 <= i < |items| ==> Eval(items[i], w).Some?
    decreases |items|
  {
    if items != [] {
      ItemsSome(items[1..], w);
      assert forall i :: 0 < i < |items| ==> items[1..][i - 1] == items[i];
    }
  }

  lemma ChildrenSome(b: Binding, w: World)
    requires !b.From?
    ensures Eval(b, w).Some? <==> forall turn :: Child(b, turn).Some? ==> Eval(Child(b, turn).value, w).Some?
  {
    match b
    case Literal(_) =>
    case Object(fields) =>
      FieldsSome(fields, w);
      assert forall i :: 0 <= i < |fields| ==> Child(b, InField(i)) == Some(fields[i].binding);
    case Array(items) =>
      ItemsSome(items, w);
      assert forall i :: 0 <= i < |items| ==> Child(b, InItem(i)) == Some(items[i]);
  }

  lemma ResolvesBelow(b: Binding, turn: Turn, path: seq<Turn>, w: World)
    requires Child(b, turn).Some?
    ensures Resolves(b, [turn] + path, w) <==> Resolves(Child(b, turn).value, path, w)
  {
    assert ([turn] + path)[0] == turn && ([turn] + path)[1..] == path;
  }

  lemma ChildrenResolve(b: Binding, w: World)
    requires !b.From?
    ensures AllResolve(b, w) <==> forall turn :: Child(b, turn).Some? ==> AllResolve(Child(b, turn).value, w)
  {
    if AllResolve(b, w) {
      forall turn, path | Child(b, turn).Some?
        ensures Resolves(Child(b, turn).value, path, w)
      {
        ResolvesBelow(b, turn, path, w);
        assert Resolves(b, [turn] + path, w);
      }
    }
    if forall turn :: Child(b, turn).Some? ==> AllResolve(Child(b, turn).value, w) {
      forall path
        ensures Resolves(b, path, w)
      {
        if path != [] && Child(b, path[0]).Some? {
          assert path == [path[0]] + path[1..];
          ResolvesBelow(b, path[0], path[1..], w);
          assert AllResolve(Child(b, path[0]).value, w);
        }
      }
    }
  }

  lemma LeafResolves(b: Binding, w: World)
    requires b.From?
    ensures Eval(b, w).Some? <==> AllResolve(b, w)
  {
    assert At(b, []) == Some(b);
    forall path | path != []
      ensures Resolves(b, path, w)
    {
    }
    assert Eval(b, w).Some? <==> Resolves(b, [], w);
  }

  /** A binding has a value exactly if every reference in it, at any depth, has one and every pointer leads somewhere. */
  lemma {:induction false} EvalIffResolves(b: Binding, w: World)
    ensures Eval(b, w).Some? <==> AllResolve(b, w)
    decreases b
  {
    if b.From? {
      LeafResolves(b, w);
    } else {
      ChildrenSome(b, w);
      ChildrenResolve(b, w);
      forall turn | Child(b, turn).Some?
        ensures Eval(Child(b, turn).value, w).Some? <==> AllResolve(Child(b, turn).value, w)
      {
        ChildSmaller(b, turn);
        EvalIffResolves(Child(b, turn).value, w);
      }
    }
  }

  // ----- the ready-made conditions -----

  ghost predicate Given(w: World, r: Reference, path: string) {
    r in w.values && w.at(w.values[r], path).Some?
  }

  /** Equality with an input that is not there fails; otherwise it tells whether the two are the same. */
  lemma EqInputMeans(path: string, value: string, w: World)
    ensures Truth(EqInput(path, value), w).Some? <==> Given(w, WorkflowInput, path)
    ensures Given(w, WorkflowInput, path) ==>
              (Truth(EqInput(path, value), w) == Some(true) <==> w.at(w.values[WorkflowInput], path) == Some(value))
  {
  }

  /** A flag never fails: one that is not there is not set. */
  lemma FlagTrueMeans(path: string, w: World)
    ensures Truth(FlagTrue(path), w).Some?
    ensures Truth(FlagTrue(path), w) == Some(true) <==>
            Given(w, WorkflowInput, path) && w.at(w.values[WorkflowInput], path) == Some("true")
  {
    var items, rest := FlagTrue(path).items, [EqInput(path, "true")];
    assert items[0] == Exists(From(WorkflowInput, Some(path))) && items[1..] == rest && rest[0] == EqInput(path, "true") && rest[1..] == [];
    EqInputMeans(path, "true", w);
    assert Until([], false, w) == Some(true);
    assert Truth(items[0], w) == Some(Given(w, WorkflowInput, path));
    assert Given(w, WorkflowInput, path) ==> Until(items, false, w) == Until(rest, false, w) == Truth(EqInput(path, "true"), w);
    assert Truth(FlagTrue(path), w) == Until(items, false, w);
  }

  /** Staying below a bound fails unless loop state and bound are integers, and compares those. */
  lemma LtLoopMeans(path: string, value: string, w: World)
    ensures Truth(LtLoop(path, value), w).Some? <==>
            && Given(w, LoopState, path) && w.number(w.at(w.values[LoopState], path).value).Some? && w.number(value).Some?
    ensures Truth(LtLoop(path, value), w).Some? ==>
              (Truth(LtLoop(path, value), w) == Some(true) <==>
               w.number(w.at(w.values[LoopState], path).value).value < w.number(value).value)
  {
  }

  // ----- short circuits -----

  /** An item is reached if those before it all came to the other outcome. */
  ghost predicate ReachedAt(items: seq<Condition>, stop: bool, w: World, i: nat) {
    forall j :: 0 <= j < i && j < |items| ==> Truth(items[j], w) == Some(!stop)
  }

  /** The first item that fails or comes to `stop` decides; without one the outcome is the other. */
  lemma {:induction false} UntilMeans(items: seq<Condition>, stop: bool, w: World)
    ensures Until(items, stop, w) == Some(!stop) <==> ReachedAt(items, stop, w, |items|)
    ensures forall i :: 0 <= i < |items| && ReachedAt(items, stop, w, i) && Truth(items[i], w) != Some(!stop) ==>
              Until(items, stop, w) == Truth(items[i], w)
    decreases |items|
  {
    if items != [] && Truth(items[0], w) == Some(!stop) {
      var rest := items[1..];
      UntilMeans(rest, stop, w);
      assert forall j :: 0 < j < |items| ==> rest[j - 1] == items[j];
      forall i | 0 <= i <= |items| && i > 0
        ensures ReachedAt(items, stop, w, i) <==> ReachedAt(rest, stop, w, i - 1)
      {
        if ReachedAt(items, stop, w, i) {
          assert forall j :: 0 <= j < i - 1 && j < |rest| ==> rest[j] == items[j + 1];
        }
      }
    }
  }
}
