/**
 * What bindings and conditions hold, by position. A path leads from a binding through fields and
 * items, or from a condition through its operands, to the subterm at that place.
 */
module BindingPaths {
  import opened Prelude
  import opened Bindings

  // ----- bindings -----

  datatype Turn = InField(index: nat) | InItem(index: nat)

  /** The binding one turn down. */
  function Child(b: Binding, turn: Turn): Option<Binding> {
    if b.Object? && turn.InField? && turn.index < |b.fields| then Some(b.fields[turn.index].binding)
    else if b.Array? && turn.InItem? && turn.index < |b.items| then Some(b.items[turn.index])
    else None
  }

  /** The subterm of `b` at `path`. */
  function At(b: Binding, path: seq<Turn>): Option<Binding>
    decreases |path|
  {
    if path == [] then Some(b)
    else if Child(b, path[0]).None? then None
    else At(Child(b, path[0]).value, path[1..])
  }

  ghost predicate ReadsAt(b: Binding, path: seq<Turn>, r: Reference) {
    At(b, path).Some? && At(b, path).value.From? && At(b, path).value.reference == r
  }

  /** Somewhere in `b`, at any depth, stands a reference to `r`. */
  ghost predicate Reads(b: Binding, r: Reference) {
    exists path :: ReadsAt(b, path, r)
  }

  lemma ReadsBelow(b: Binding, turn: Turn, r: Reference)
    requires Child(b, turn).Some? && Reads(Child(b, turn).value, r)
    ensures Reads(b, r)
  {
    var path :| ReadsAt(Child(b, turn).value, path, r);
    assert ([turn] + path)[1..] == path;
    assert ReadsAt(b, [turn] + path, r);
  }

  lemma ReadsFrom(b: Binding, r: Reference) returns (turn: Turn)
    requires Reads(b, r) && !b.From?
    ensures Child(b, turn).Some? && Reads(Child(b, turn).value, r)
  {
    var path :| ReadsAt(b, path, r);
    assert path != [];
    turn := path[0];
    assert ReadsAt(Child(b, turn).value, path[1..], r);
  }

  lemma {:induction false} FieldsReferencesHas(fields: seq<Field>, r: Reference)
    ensures r in FieldsReferences(fields) <==> exists i :: 0 <= i < |fields| && r in References(fields[i].binding)
    decreases |fields|
  {
    if fields != [] {
      FieldsReferencesHas(fields[1..], r);
      assert forall i :: 0 < i < |fields| ==> fields[1..][i - 1] == fields[i];
    }
  }

  lemma {:induction false} ItemsReferencesHas(items: seq<Binding>, r: Reference)
    ensures r in ItemsReferences(items) <==> exists i :: 0 <= i < |items| && r in References(items[i])
    decreases |items|
  {
    if items != [] {
      ItemsReferencesHas(items[1..], r);
      assert forall i :: 0 < i < |items| ==> items[1..][i - 1] == items[i];
    }
  }

  lemma ChildSmaller(b: Binding, turn: Turn)
    requires Child(b, turn).Some?
    ensures Child(b, turn).value < b
  {
    if b.Object? {
      assert b.fields[turn.index] < b;
    }
  }

  lemma ChildReferences(b: Binding, r: Reference)
    requires !b.From?
    ensures r in References(b) <==> exists turn :: Child(b, turn).Some? && r in References(Child(b, turn).value)
  {
    match b
    case Literal(_) =>
    case Object(fields) =>
      FieldsReferencesHas(fields, r);
      if r in References(b) {
        var i :| 0 <= i < |fields| && r in References(fields[i].binding);
        assert Child(b, InField(i)) == Some(fields[i].binding);
      }
    case Array(items) =>
      ItemsReferencesHas(items, r);
      if r in References(b) {
        var i :| 0 <= i < |items| && r in References(items[i]);
        assert Child(b, InItem(i)) == Some(items[i]);
      }
  }

  /** The references of a binding are those that stand at some path of it. */
  lemma {:induction false} ReferencesAreReads(b: Binding, r: Reference)
    ensures r in References(b) <==> Reads(b, r)
    decreases b
  {
    if b.From? {
      FromReads(b, r);
    } else {
      ChildReferences(b, r);
      if Reads(b, r) {
        var turn := ReadsFrom(b, r);
        ChildSmaller(b, turn);
        ReferencesAreReads(Child(b, turn).value, r);
      }
      if r in References(b) {
        var turn :| Child(b, turn).Some? && r in References(Child(b, turn).value);
        ChildSmaller(b, turn);
        ReferencesAreReads(Child(b, turn).value, r);
        ReadsBelow(b, turn, r);
      }
    }
  }

  lemma FromReads(b: Binding, r: Reference)
    requires b.From?
    ensures Reads(b, r) <==> b.reference == r
  {
    if b.reference == r {
      assert ReadsAt(b, [], r);
    }
    if Reads(b, r) {
      var path :| ReadsAt(b, path, r);
      assert path == [];
    }
  }

  // ----- depth -----

  /** Every path into `b` has fewer than `n` turns, and one has exactly `n - 1`. */
  ghost predicate LongestPath(b: Binding, n: nat) {
    && (forall path :: At(b, path).Some? ==> |path| < n)
    && exists path :: At(b, path).Some? && |path| + 1 == n
  }

  lemma {:induction false} FieldsDepthBounds(fields: seq<Field>)
    ensures forall i :: 0 <= i < |fields| ==> Depth(fields[i].binding) <= FieldsDepth(fields)
    ensures fields != [] ==> exists i :: 0 <= i < |fields| && Depth(fields[i].binding) == FieldsDepth(fields)
    decreases |fields|
  {
    if fields != [] {
      FieldsDepthBounds(fields[1..]);
      assert forall i :: 0 < i < |fields| ==> fields[1..][i - 1] == fields[i];
      if Depth(fields[0].binding) < FieldsDepth(fields[1..]) {
        var i :| 0 <= i < |fields[1..]| && Depth(fields[1..][i].binding) == FieldsDepth(fields[1..]);
        assert fields[i + 1] == fields[1..][i];
      } else {
        assert Depth(fields[0].binding) == FieldsDepth(fields);
      }
    }
  }

  lemma {:induction false} ItemsDepthBounds(items: seq<Binding>)
    ensures forall i :: 0 <= i < |items| ==> Depth(items[i]) <= ItemsDepth(items)
    ensures items != [] ==> exists i :: 0 <= i < |items| && Depth(items[i]) == ItemsDepth(items)
    decreases |items|
  {
    if items != [] {
      ItemsDepthBounds(items[1..]);
      assert forall i :: 0 < i < |items| ==> items[1..][i - 1] == items[i];
      if Depth(items[0]) < ItemsDepth(items[1..]) {
        var i :| 0 <= i < |items[1..]| && Depth(items[1..][i]) == ItemsDepth(items[1..]);
        assert items[i + 1] == items[1..][i];
      } else {
        assert Depth(items[0]) == ItemsDepth(items);
      }
    }
  }

  lemma DepthPositive(b: Binding)
    ensures Depth(b) >= 1
  {
  }

  lemma ChildShallower(b: Binding, turn: Turn)
    requires Child(b, turn).Some?
    ensures Depth(Child(b, turn).value) < Depth(b)
  {
    if b.Object? {
      FieldsDepthBounds(b.fields);
    } else {
      ItemsDepthBounds(b.items);
    }
  }

  lemma DeepestChild(b: Binding) returns (turn: Turn)
    requires Depth(b) > 1
    ensures Child(b, turn).Some? && Depth(Child(b, turn).value) + 1 == Depth(b)
  {
    if b.Object? {
      FieldsDepthBounds(b.fields);
      assert b.fields != [];
      var i :| 0 <= i < |b.fields| && Depth(b.fields[i].binding) == FieldsDepth(b.fields);
      turn := InField(i);
    } else {
      ItemsDepthBounds(b.items);
      assert b.items != [];
      var i :| 0 <= i < |b.items| && Depth(b.items[i]) == ItemsDepth(b.items);
      turn := InItem(i);
    }
  }

  lemma {:induction false} PathsBounded(b: Binding, path: seq<Turn>)
    requires At(b, path).Some?
    ensures |path| < Depth(b)
    decreases |path|
  {
    DepthPositive(b);
    if path != [] {
      ChildShallower(b, path[0]);
      PathsBounded(Child(b, path[0]).value, path[1..]);
    }
  }

  lemma {:induction false} DeepestPath(b: Binding) returns (path: seq<Turn>)
    ensures At(b, path).Some? && |path| + 1 == Depth(b)
    decreases Depth(b)
  {
    DepthPositive(b);
    if Depth(b) == 1 {
      path := [];
    } else {
      var turn := DeepestChild(b);
      var rest := DeepestPath(Child(b, turn).value);
      path := [turn] + rest;
      assert path[1..] == rest;
    }
  }

  /** The depth of a binding is the number of bindings on its longest path. */
  lemma DepthIsLongestPath(b: Binding, n: nat)
    ensures LongestPath(b, n) <==> n == Depth(b)
  {
    forall path | At(b, path).Some?
      ensures |path| < Depth(b)
    {
      PathsBounded(b, path);
    }
    var deepest := DeepestPath(b);
    if LongestPath(b, n) {
      assert |deepest| < n;
    }
  }

  // ----- conditions -----

  /** The operand conditions of `c`. */
  function Operands(c: Condition): seq<Condition> {
    if c.All? then c.items else if c.Any? then c.items else if c.Not? then [c.inner] else []
  }

  lemma OperandSmaller(c: Condition, i: nat)
    requires i < |Operands(c)|
    ensures Operands(c)[i] < c
  {
  }

  /** The condition inside `c` at `path`. */
  function Inside(c: Condition, path: seq<nat>): Option<Condition>
    decreases |path|
  {
    if path == [] then Some(c)
    else if path[0] < |Operands(c)| then Inside(Operands(c)[path[0]], path[1..])
    else None
  }

  /** A comparison evaluates both its sides, an existence test its binding. */
  ghost predicate Tests(c: Condition, b: Binding) {
    (c.Compare? && (b == c.left || b == c.right)) || (c.Exists? && b == c.binding)
  }

  ghost predicate TestsAt(c: Condition, path: seq<nat>, b: Binding) {
    Inside(c, path).Some? && Tests(Inside(c, path).value, b)
  }

  /** Somewhere in `c`, at any depth, `b` is tested. */
  ghost predicate TestsSomewhere(c: Condition, b: Binding) {
    exists path :: TestsAt(c, path, b)
  }

  lemma {:induction false} ConditionsBindingsHas(items: seq<Condition>, b: Binding)
    ensures b in ConditionsBindings(items) <==> exists i :: 0 <= i < |items| && b in ConditionBindings(items[i])
    decreases |items|
  {
    if items != [] {
      ConditionsBindingsHas(items[1..], b);
      assert forall i :: 0 < i < |items| ==> items[1..][i - 1] == items[i];
    }
  }

  lemma OperandBindings(c: Condition, b: Binding)
    ensures b in ConditionBindings(c) <==>
            Tests(c, b) || exists i :: 0 <= i < |Operands(c)| && b in ConditionBindings(Operands(c)[i])
  {
    match c
    case All(items) => ConditionsBindingsHas(items, b); assert Operands(c) == items;
    case Any(items) => ConditionsBindingsHas(items, b); assert Operands(c) == items;
    case Not(inner) => assert Operands(c)[0] == inner;
    case Compare(_, left, right) => assert ConditionBindings(c) == [left, right];
    case Exists(binding) => assert ConditionBindings(c) == [binding];
  }

  lemma TestsBelow(c: Condition, i: nat, b: Binding)
    requires i < |Operands(c)| && TestsSomewhere(Operands(c)[i], b)
    ensures TestsSomewhere(c, b)
  {
    var path :| TestsAt(Operands(c)[i], path, b);
    assert ([i] + path)[1..] == path;
    assert TestsAt(c, [i] + path, b);
  }

  /** The bindings of a condition are those tested somewhere in it. */
  lemma {:induction false} ConditionBindingsAreTests(c: Condition, b: Binding)
    ensures b in ConditionBindings(c) <==> TestsSomewhere(c, b)
    decreases c
  {
    OperandBindings(c, b);
    forall i: nat | i < |Operands(c)|
      ensures b in ConditionBindings(Operands(c)[i]) <==> TestsSomewhere(Operands(c)[i], b)
    {
      OperandSmaller(c, i);
      ConditionBindingsAreTests(Operands(c)[i], b);
    }
    TestsSplit(c, b);
  }

  lemma TestsSplit(c: Condition, b: Binding)
    ensures TestsSomewhere(c, b) <==> Tests(c, b) || exists i :: 0 <= i < |Operands(c)| && TestsSomewhere(Operands(c)[i], b)
  {
    if Tests(c, b) {
      assert TestsAt(c, [], b);
    }
    if i :| 0 <= i < |Operands(c)| && TestsSomewhere(Operands(c)[i], b) {
      TestsBelow(c, i, b);
    }
    if TestsSomewhere(c, b) {
      var path :| TestsAt(c, path, b);
      if path != [] {
        assert TestsAt(Operands(c)[path[0]], path[1..], b);
      }
    }
  }

  // ----- counting operators -----

  /** `places` are exactly the paths that lead into `c`. */
  ghost predicate AllPlaces(c: Condition, places: set<seq<nat>>) {
    forall path :: path in places <==> Inside(c, path).Some?
  }

  ghost function Under(i: nat, places: set<seq<nat>>): set<seq<nat>> {
    set path | path in places :: [i] + path
  }

  lemma {:induction false} UnderSize(i: nat, places: set<seq<nat>>)
    ensures |Under(i, places)| == |places|
    decreases |places|
  {
    if places != {} {
      var path :| path in places;
      UnderSize(i, places - {path});
      assert [i] + path !in Under(i, places - {path}) by {
        forall other | other in places - {path}
          ensures [i] + other != [i] + path
        {
          assert ([i] + other)[1..] == other && ([i] + path)[1..] == path;
        }
      }
      assert Under(i, places) == Under(i, places - {path}) + {[i] + path};
    }
  }

  lemma UnderHas(i: nat, places: set<seq<nat>>, path: seq<nat>)
    ensures path in Under(i, places) <==> path != [] && path[0] == i && path[1..] in places
  {
    if path != [] && path[0] == i {
      assert path == [i] + path[1..];
    }
    forall other | other in places
      ensures ([i] + other)[1..] == other && ([i] + other)[0] == i
    {
    }
  }

  /** The places of the operands from the `n`th on. */
  lemma {:induction false} OperandPlaces(c: Condition, n: nat) returns (places: set<seq<nat>>)
    requires n <= |Operands(c)|
    ensures forall path :: path in places <==> path != [] && path[0] >= n && Inside(c, path).Some?
    ensures |places| == OperatorSum(Operands(c)[n..])
    decreases c, |Operands(c)| - n
  {
    if n == |Operands(c)| {
      places := {};
    } else {
      OperandSmaller(c, n);
      var first := ConditionPlaces(Operands(c)[n]);
      var rest := OperandPlaces(c, n + 1);
      places := Under(n, first) + rest;
      PlacesJoin(c, n, first, rest);
      UnderSize(n, first);
      assert Operands(c)[n..][0] == Operands(c)[n] && Operands(c)[n..][1..] == Operands(c)[n + 1..];
    }
  }

  lemma PlacesJoin(c: Condition, n: nat, first: set<seq<nat>>, rest: set<seq<nat>>)
    requires n < |Operands(c)| && AllPlaces(Operands(c)[n], first)
    requires forall path :: path in rest <==> path != [] && path[0] >= n + 1 && Inside(c, path).Some?
    ensures forall path :: path in Under(n, first) + rest <==> path != [] && path[0] >= n && Inside(c, path).Some?
    ensures Under(n, first) !! rest
  {
    forall path
      ensures path in Under(n, first) <==> path != [] && path[0] == n && Inside(c, path).Some?
    {
      UnderHas(n, first, path);
    }
  }

  lemma CountOfOperands(c: Condition)
    ensures OperatorCount(c) == 1 + OperatorSum(Operands(c))
  {
    if c.Not? {
      assert Operands(c)[1..] == [];
    }
  }

  /** The operator count is the number of conditions inside, the whole one included. */
  lemma {:induction false} ConditionPlaces(c: Condition) returns (places: set<seq<nat>>)
    ensures AllPlaces(c, places) && |places| == OperatorCount(c)
    decreases c, |Operands(c)| + 1
  {
    var below := OperandPlaces(c, 0);
    assert Operands(c)[0..] == Operands(c);
    CountOfOperands(c);
    places := below + {[]};
  }

  lemma OperatorsCounted(c: Condition, places: set<seq<nat>>)
    requires AllPlaces(c, places)
    ensures |places| == OperatorCount(c)
  {
    var counted := ConditionPlaces(c);
    assert places == counted;
  }
}
