/** The node count of a region as the number of places that nodes have in it, at every depth. */
module NodePlaces {
  import opened Prelude
  import opened Ir
  import opened CompilerSpec
  import opened Validation

  /** A node of the tree: the way down to its region, and its key there. */
  datatype Place = Place(position: seq<Descent>, key: Key)

  ghost predicate Holds(region: Region, p: Place) {
    Sub(region, p.position).Some? && p.key in Sub(region, p.position).value.nodes
  }

  ghost predicate AllNodes(region: Region, places: set<Place>) {
    forall p :: p in places <==> Holds(region, p)
  }

  function Lowered(d: Descent, p: Place): Place {
    Place([d] + p.position, p.key)
  }

  function Raised(p: Place): Place
    requires p.position != []
  {
    Place(p.position[1..], p.key)
  }

  ghost function Beneath(d: Descent, places: set<Place>): set<Place> {
    set p | p in places :: Lowered(d, p)
  }

  lemma LowerRaise(d: Descent, p: Place)
    ensures Raised(Lowered(d, p)) == p
    ensures p.position != [] && p.position[0] == d ==> Lowered(d, Raised(p)) == p
  {
    assert ([d] + p.position)[1..] == p.position;
    assert p.position != [] ==> p.position == [p.position[0]] + p.position[1..];
  }

  lemma BeneathHas(d: Descent, places: set<Place>, p: Place)
    ensures p in Beneath(d, places) <==> p.position != [] && p.position[0] == d && Raised(p) in places
  {
    if p.position != [] && p.position[0] == d {
      LowerRaise(d, p);
    }
    if p in Beneath(d, places) {
      var q :| q in places && p == Lowered(d, q);
      LowerRaise(d, q);
    }
  }

  lemma {:induction false} BeneathSize(d: Descent, places: set<Place>)
    ensures |Beneath(d, places)| == |places|
    decreases |places|
  {
    if places != {} {
      var p :| p in places;
      BeneathSize(d, places - {p});
      BeneathHas(d, places - {p}, Lowered(d, p));
      LowerRaise(d, p);
      assert Beneath(d, places) == Beneath(d, places - {p}) + {Lowered(d, p)};
    }
  }

  // ----- below one node -----

  /** The place lies in body `i` of node `k` or in a later one. */
  ghost predicate From(region: Region, k: Key, i: nat, p: Place) {
    Holds(region, p) && p.position != [] && p.position[0].key == k && p.position[0].index >= i
  }

  lemma FromSplits(region: Region, k: Key, i: nat, first: set<Place>, p: Place)
    requires k in region.nodes && i < |ChildRegions(region.nodes[k])| && AllNodes(ChildRegions(region.nodes[k])[i], first)
    ensures p in Beneath(Descent(k, i), first) <==> From(region, k, i, p) && !From(region, k, i + 1, p)
  {
    BeneathHas(Descent(k, i), first, p);
  }

  lemma {:induction false} ChildPlaces(region: Region, k: Key, i: nat) returns (places: set<Place>)
    requires k in region.nodes && i <= |ChildRegions(region.nodes[k])|
    ensures forall p :: p in places <==> From(region, k, i, p)
    ensures |places| == ChildrenTotal(region.nodes[k], i)
    decreases region, 0, |ChildRegions(region.nodes[k])| - i
  {
    if i == |ChildRegions(region.nodes[k])| {
      places := {};
    } else {
      var child := ChildRegions(region.nodes[k])[i];
      NestedSmaller(region, k, child);
      var first := RegionPlaces(child);
      var rest := ChildPlaces(region, k, i + 1);
      places := Beneath(Descent(k, i), first) + rest;
      forall p
        ensures p in Beneath(Descent(k, i), first) <==> From(region, k, i, p) && !From(region, k, i + 1, p)
      {
        FromSplits(region, k, i, first, p);
      }
      BeneathSize(Descent(k, i), first);
      assert Beneath(Descent(k, i), first) !! rest;
    }
  }

  // ----- below some of the nodes of a region -----

  /** The place is one of the nodes `keys` or lies below one. */
  ghost predicate Under(region: Region, keys: set<Key>, p: Place) {
    Holds(region, p) && if p.position == [] then p.key in keys else p.position[0].key in keys
  }

  lemma UnderSplits(region: Region, keys: set<Key>, k: Key, p: Place)
    requires k in keys && k in region.nodes
    ensures Under(region, keys, p) <==> Under(region, keys - {k}, p) || p == Place([], k) || From(region, k, 0, p)
  {
  }

  lemma {:induction false} KeyPlaces(region: Region, keys: set<Key>) returns (places: set<Place>)
    requires keys <= region.nodes.Keys
    ensures forall p :: p in places <==> Under(region, keys, p)
    ensures |places| == KeysTotal(region, keys)
    decreases region, 1, |keys|
  {
    if keys == {} {
      places := {};
    } else {
      var k :| k in keys;
      KeysTotalRemove(region, keys, k);
      var below := ChildPlaces(region, k, 0);
      var rest := KeyPlaces(region, keys - {k});
      places := rest + {Place([], k)} + below;
      forall p
        ensures p in places <==> Under(region, keys, p)
      {
        UnderSplits(region, keys, k, p);
      }
      assert Place([], k) !in rest && rest + {Place([], k)} !! below;
    }
  }

  lemma {:induction false} RegionPlaces(region: Region) returns (places: set<Place>)
    ensures AllNodes(region, places) && |places| == NodeTotal(region)
    decreases region, 2
  {
    places := KeyPlaces(region, region.nodes.Keys);
    forall p
      ensures Under(region, region.nodes.Keys, p) <==> Holds(region, p)
    {
    }
  }

  /** A region has as many nodes as there are places with a node in it or in a region nested at any depth. */
  lemma NodesCounted(region: Region, places: set<Place>)
    requires AllNodes(region, places)
    ensures |places| == NodeTotal(region)
  {
    var counted := RegionPlaces(region);
    assert places == counted;
  }
}
