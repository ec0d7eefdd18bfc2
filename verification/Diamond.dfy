/**
 * A region that the analysis accepts against its own rule. A timed wait `w` goes to `a` on a
 * signal and to `b` on a timeout; both go to `j`, which reads the output of `b`.
 */
module Diamond {
  import opened Prelude
  import opened Bindings
  import opened Ir
  import opened Graph
  import opened Availability
  import opened Exactness
  import opened RegionAnalysis
  import opened RegionTheorems

  const KEY := ActivityKey("task", 1)
  const INPUT := FromRef(WorkflowInput)
  const OUT_B := NodeOutput("b")
  const ROOT := RegionCtx("in", "out", false, false, false, false)

  const DIAMOND := Region([Root], "in", "out", "w", map[
    "w" := WaitSignal("go", Literal("k"), Some(1000), "a", Some("b")),
    "a" := Activity(KEY, INPUT, None, "j"),
    "b" := Activity(KEY, INPUT, None, "j"),
    "j" := Complete(FromRef(OUT_B))])

  ghost function Flow1(): Flow { FlowOf(DIAMOND, ROOT) }

  lemma DiamondEdges()
    ensures Edges(Flow1().out, "w") == [(Next, "a"), (Timeout, "b")]
    ensures Edges(Flow1().out, "a") == [(Next, "j")]
    ensures Edges(Flow1().out, "b") == [(Next, "j")]
    ensures Edges(Flow1().out, "j") == []
  {
    EdgesOf(DIAMOND.nodes, "w");
    EdgesOf(DIAMOND.nodes, "a");
    EdgesOf(DIAMOND.nodes, "b");
    EdgesOf(DIAMOND.nodes, "j");
  }

  lemma DiamondShape()
    ensures WellShaped(DIAMOND)
  {
    var height: map<Key, nat> := map["w" := 0, "a" := 1, "b" := 1, "j" := 2];
    DiamondEdges();
    forall h: Hop | HasHop(Flow1().out, h)
      ensures h.source in height && h.target in height && height[h.source] < height[h.target]
    {
      assert h.source in DIAMOND.nodes;
    }
    RisingAcyclic(Flow1().out, height, "w");
  }

  // The states of the worklist, in order.
  ghost function S1(): Sweep {
    var base := Base(ROOT);
    Sweep(["a", "b"], map["w" := 0], map["w" := base],
          map["w" := base, "a" := base + {NodeOutput("w")}, "b" := base])
  }

  ghost function S2(): Sweep {
    var base := Base(ROOT);
    Sweep(["a", "j"], map["w" := 0, "b" := 1], map["w" := base, "b" := base],
          map["w" := base, "a" := base + {NodeOutput("w")}, "b" := base, "j" := base + {OUT_B}])
  }

  ghost function S3(): Sweep {
    var base := Base(ROOT);
    Sweep(["a"], map["w" := 0, "b" := 1, "j" := 2], map["w" := base, "b" := base, "j" := base + {OUT_B}],
          map["w" := base, "a" := base + {NodeOutput("w")}, "b" := base, "j" := base + {OUT_B}])
  }

  lemma PushOne(f: Flow, key: Key, e: (Edge, Key), s: Sweep)
    requires key in s.at
    ensures PushEdges(f, key, [e], s) == PushEdge(f, key, e, s)
  {
    assert [e][..0] == [];
  }

  lemma PushTwo(f: Flow, key: Key, d: (Edge, Key), e: (Edge, Key), s: Sweep)
    requires key in s.at
    ensures PushEdges(f, key, [d, e], s) == PushEdge(f, key, e, PushEdges(f, key, [d], s))
  {
    assert [d, e][..1] == [d];
  }

  lemma Step1()
    ensures Step(Flow1(), Initial(Flow1())) == S1()
  {
    DiamondEdges();
    var popped := Initial(Flow1()).(pending := []);
    assert Initial(Flow1()).pending[..0] == [];
    var marked := Mark("w", popped);
    PushOne(Flow1(), "w", (Next, "a"), marked);
    PushTwo(Flow1(), "w", (Next, "a"), (Timeout, "b"), marked);
  }

  // `S1` with `b` popped.
  ghost function M2(): Sweep {
    S1().(pending := ["a"], rank := map["w" := 0, "b" := 1], checked := map["w" := Base(ROOT), "b" := Base(ROOT)])
  }

  lemma Popped2()
    ensures Mark("b", S1().(pending := ["a"])) == M2()
  {
    assert |S1().rank| == 1;
  }

  lemma Pushed2()
    ensures PushEdge(Flow1(), "b", (Next, "j"), M2()) == S2()
  {
    assert Gain(Flow1(), "b", Next) == {OUT_B};
  }

  lemma Step2()
    ensures Step(Flow1(), S1()) == S2()
  {
    DiamondEdges();
    assert S1().pending[..1] == ["a"];
    Popped2();
    PushOne(Flow1(), "b", (Next, "j"), M2());
    Pushed2();
  }

  lemma Popped3()
    ensures Mark("j", S2().(pending := ["a"])) == S3()
  {
    assert |S2().rank| == 2;
  }

  lemma Step3()
    ensures Step(Flow1(), S2()) == S3()
  {
    DiamondEdges();
    assert S2().pending[..1] == ["a"];
    assert Step(Flow1(), S2()) == Mark("j", S2().(pending := ["a"]));
    Popped3();
  }

  lemma ExploreStep(f: Flow, universe: set<Key>, s: Sweep, s': Sweep)
    requires Ready(f, universe, s) && s.pending != [] && s' == Step(f, s)
    ensures Ready(f, universe, s') && Explore(f, universe, s) == Explore(f, universe, s')
  {
    StepReady(f, universe, s);
  }

  /** The join was checked while only the timeout side had arrived. */
  lemma DiamondSweep()
    ensures Closed(Flow1().out, DIAMOND.nodes.Keys)
    ensures Ready(Flow1(), DIAMOND.nodes.Keys, S3())
    ensures Swept(DIAMOND, ROOT) == Explore(Flow1(), DIAMOND.nodes.Keys, S3())
  {
    DiamondShape();
    TargetsClosed(DIAMOND.nodes);
    Step1();
    Step2();
    Step3();
    ExploreStep(Flow1(), DIAMOND.nodes.Keys, Initial(Flow1()), S1());
    ExploreStep(Flow1(), DIAMOND.nodes.Keys, S1(), S2());
    ExploreStep(Flow1(), DIAMOND.nodes.Keys, S2(), S3());
  }

  lemma HopReaches(h: Hop)
    requires HasHop(Flow1().out, h) && Reaches(Flow1().out, "w", h.source)
    ensures Reaches(Flow1().out, "w", h.target)
  {
    HopLeads(Flow1().out, h);
    ReachesTrans(Flow1().out, "w", h.source, h.target);
  }

  lemma DiamondReached(k: Key)
    requires k in DIAMOND.nodes
    ensures Reaches(Flow1().out, "w", k)
  {
    DiamondEdges();
    ReachesRefl(Flow1().out, "w");
    HopReaches(Hop("w", Next, "a"));
    HopReaches(Hop("w", Timeout, "b"));
    HopReaches(Hop("a", Next, "j"));
  }

  lemma DiamondChecks(k: Key, available: set<Reference>)
    requires k in DIAMOND.nodes && (k == "j" ==> OUT_B in available)
    ensures CheckBindings(DIAMOND.nodes[k], available, ROOT).None?
  {
    var bs := NodeBindings(DIAMOND.nodes[k]);
    assert |bs| == 1 && bs[0] in {INPUT, Literal("k"), FromRef(OUT_B)};
    assert BindingFits(DIAMOND.nodes[k], bs[0], available, ROOT);
  }

  /** The walk over the signal side never passes `b`. */
  lemma SignalSideLacksB()
    ensures !OnEveryWalk(Flow1(), "j", OUT_B)
  {
    DiamondEdges();
    var first, second := Hop("w", Next, "a"), Hop("a", Next, "j");
    assert IsWalk(Flow1().out, "w", [], "w");
    WalkSnoc(Flow1().out, "w", [], first);
    WalkSnoc(Flow1().out, "w", [] + [first], second);
    WalkAvailSnoc(Flow1(), [], first);
    WalkAvailSnoc(Flow1(), [] + [first], second);
  }

  lemma DiamondAccepted()
    ensures Accepted(DIAMOND, ROOT)
  {
    DiamondShape();
    DiamondSweep();
    forall k | k in DIAMOND.nodes
      ensures Reaches(Flow1().out, "w", k)
    {
      DiamondReached(k);
    }
    ReachableSeen(DIAMOND, ROOT);
    ExploreKeeps(Flow1(), DIAMOND.nodes.Keys, S3(), "j");
    forall k | k in DIAMOND.nodes && k in Swept(DIAMOND, ROOT).checked
      ensures CheckBindings(DIAMOND.nodes[k], Swept(DIAMOND, ROOT).checked[k], ROOT).None?
    {
      DiamondChecks(k, Swept(DIAMOND, ROOT).checked[k]);
    }
  }

  lemma DiamondUses()
    ensures Uses(DIAMOND, "j", OUT_B)
  {
    assert FromRef(OUT_B) in NodeBindings(DIAMOND.nodes["j"]) && OUT_B in References(FromRef(OUT_B));
  }

  /** The analysis accepts the diamond although `j` reads a reference that one path lacks. */
  lemma DiamondAcceptedButInvalid()
    ensures Accepted(DIAMOND, ROOT)
    ensures Uses(DIAMOND, "j", OUT_B) && !OnEveryWalk(FlowOf(DIAMOND, ROOT), "j", OUT_B)
    ensures !Valid(DIAMOND, ROOT)
  {
    DiamondAccepted();
    DiamondUses();
    SignalSideLacksB();
    assert !MayUse(DIAMOND, ROOT, "j", OUT_B);
  }
}
