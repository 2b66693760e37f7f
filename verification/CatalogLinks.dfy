/** Edge refs are text: `kind:a:b`.  Two different links of one catalog can spell the same ref, and
    then the later write takes the row.  No link is lost exactly when no two links collide. */
module CatalogLinks {
  import opened Options
  import opened Graph
  import opened CatalogDocument
  import opened CatalogPlan
  import opened CatalogRun
  import opened CatalogRunnable

  datatype Link = Link(kind: string, src: string, dst: string)

  function LinkOf(w: EdgeWrite): Link { Link(w.kind, w.srcRef, w.dstRef) }

  // The links a plan asks for, and the links its projection holds.
  function Asked(ops: seq<Op>): set<Link> { set o | o in ops && o.PutEdge? :: LinkOf(o.edge) }
  function Held(ops: seq<Op>): set<Link> { set ref | ref in EdgePlan(ops) :: LinkOf(EdgePlan(ops)[ref]) }

  // Different links have different refs.
  ghost predicate NoCollision(ops: seq<Op>) {
    forall o, p | o in ops && p in ops && o.PutEdge? && p.PutEdge? && o.edge.ref == p.edge.ref ::
      LinkOf(o.edge) == LinkOf(p.edge)
  }

  // One link always spells the same ref.
  ghost predicate RefsByLink(ops: seq<Op>) {
    forall o, p | o in ops && p in ops && o.PutEdge? && p.PutEdge? && LinkOf(o.edge) == LinkOf(p.edge) ::
      o.edge.ref == p.edge.ref
  }

  lemma {:induction false} EdgePlanSources(ops: seq<Op>, ref: string)
    ensures ref in EdgePlan(ops) ==> PutEdge(EdgePlan(ops)[ref]) in ops && EdgePlan(ops)[ref].ref == ref
    ensures forall o | o in ops && o.PutEdge? && o.edge.ref == ref :: ref in EdgePlan(ops)
  {
    if ops != [] {
      var n := |ops| - 1;
      EdgePlanSources(ops[..n], ref);
      assert ops == ops[..n] + [ops[n]];
    }
  }

  /** Every requested link is held exactly when no two links share a ref. */
  lemma NoLinkLostIff(ops: seq<Op>)
    requires RefsByLink(ops)
    ensures Asked(ops) == Held(ops) <==> NoCollision(ops)
  {
    forall ref ensures ref in EdgePlan(ops) ==> PutEdge(EdgePlan(ops)[ref]) in ops && EdgePlan(ops)[ref].ref == ref
      ensures forall o | o in ops && o.PutEdge? && o.edge.ref == ref :: ref in EdgePlan(ops)
    {
      EdgePlanSources(ops, ref);
    }
    if NoCollision(ops) {
      forall l | l in Asked(ops) ensures l in Held(ops) {
        var o :| o in ops && o.PutEdge? && LinkOf(o.edge) == l;
        assert o.edge.ref in EdgePlan(ops) && PutEdge(EdgePlan(ops)[o.edge.ref]) in ops;
      }
      forall l | l in Held(ops) ensures l in Asked(ops) {
        var ref :| ref in EdgePlan(ops) && LinkOf(EdgePlan(ops)[ref]) == l;
        assert PutEdge(EdgePlan(ops)[ref]) in ops;
      }
    }
    if Asked(ops) == Held(ops) {
      forall o, p | o in ops && p in ops && o.PutEdge? && p.PutEdge? && o.edge.ref == p.edge.ref
        ensures LinkOf(o.edge) == LinkOf(p.edge)
      {
        HeldUnderItsRef(ops, o);
        HeldUnderItsRef(ops, p);
      }
    }
  }

  lemma HeldUnderItsRef(ops: seq<Op>, o: Op)
    requires RefsByLink(ops) && Asked(ops) == Held(ops) && o in ops && o.PutEdge?
    ensures o.edge.ref in EdgePlan(ops) && LinkOf(EdgePlan(ops)[o.edge.ref]) == LinkOf(o.edge)
  {
    assert LinkOf(o.edge) in Asked(ops);
    var ref :| ref in EdgePlan(ops) && LinkOf(EdgePlan(ops)[ref]) == LinkOf(o.edge);
    EdgePlanSources(ops, ref);
    assert PutEdge(EdgePlan(ops)[ref]) in ops;
  }

  // The kind of asset each kind of edge leaves.
  function SourceRef(kind: string, a: string): string {
    if kind == "parent_of" then FrameworkRef(a) else if kind == "satisfies" then ControlRef(a) else RequirementRef(a)
  }

  ghost predicate EdgeFrom(w: EdgeWrite, a: string, b: string) {
    w.srcRef == SourceRef(w.kind, a) && w.dstRef == RequirementRef(b) && w.ref == w.kind + ":" + a + ":" + b
  }

  // An edge upsert of the three kinds a catalog produces.
  ghost predicate CatalogEdge(w: EdgeWrite) {
    w.kind in {"parent_of", "satisfies", "cross_maps"} && exists a, b :: EdgeFrom(w, a, b)
  }

  lemma CatalogEdgeRefByLink(v: EdgeWrite, w: EdgeWrite)
    requires CatalogEdge(v) && CatalogEdge(w) && LinkOf(v) == LinkOf(w)
    ensures v.ref == w.ref
  {
    var a, b :| EdgeFrom(v, a, b);
    var c, d :| EdgeFrom(w, c, d);
    KindsDiffer(a, c);
    KindsDiffer(b, d);
  }

  ghost predicate AllCatalogEdges(ops: seq<Op>) { forall o | o in ops && o.PutEdge? :: CatalogEdge(o.edge) }

  lemma BuildersAreCatalogEdges(fw: Framework, q: Requirement, t: Control, req: string, x: Crosswalk)
    ensures CatalogEdge(ParentOf(fw, q)) && CatalogEdge(Satisfies(t, req)) && CatalogEdge(CrossMaps(x))
  {
    hide CrosswalkText;
    assert "parent_of" + ":" == "parent_of:" && "satisfies" + ":" == "satisfies:" && "cross_maps" + ":" == "cross_maps:";
    assert EdgeFrom(ParentOf(fw, q), fw.ref, q.ref);
    assert EdgeFrom(Satisfies(t, req), t.ref, req);
    assert EdgeFrom(CrossMaps(x), x.src, x.dst);
  }

  const NO_REQ := Requirement("", "", "", "", "", map[])
  const NO_FW := Framework("", "", "", map[], NotList)
  const NO_CTRL := Control("", "", "", map[], [])
  const NO_XW := Crosswalk("", "", None, "", "")

  lemma {:induction false} RequirementEdges(fw: Framework, qs: seq<Entry<Requirement>>)
    ensures AllCatalogEdges(RequirementOps(fw, qs))
  {
    if qs != [] {
      RequirementEdges(fw, qs[..|qs|-1]);
      var e := qs[|qs|-1];
      if e.Object? { BuildersAreCatalogEdges(fw, e.value, NO_CTRL, "", NO_XW); }
    }
  }

  lemma {:induction false} FrameworkEdges(fs: seq<Entry<Framework>>)
    ensures AllCatalogEdges(FrameworkOps(fs))
  {
    if fs != [] {
      FrameworkEdges(fs[..|fs|-1]);
      var e := fs[|fs|-1];
      if e.Object? { RequirementEdges(e.value, Items(e.value.requirements)); }
    }
  }

  lemma {:induction false} SatisfiesEdges(t: Control, reqs: seq<string>)
    ensures AllCatalogEdges(SatisfiesOps(t, reqs))
  {
    if reqs != [] {
      SatisfiesEdges(t, reqs[..|reqs|-1]);
      BuildersAreCatalogEdges(NO_FW, NO_REQ, t, reqs[|reqs|-1], NO_XW);
    }
  }

  lemma {:induction false} ControlEdges(ts: seq<Entry<Control>>)
    ensures AllCatalogEdges(ControlOps(ts))
  {
    if ts != [] {
      ControlEdges(ts[..|ts|-1]);
      var e := ts[|ts|-1];
      if e.Object? { SatisfiesEdges(e.value, e.value.satisfies); }
    }
  }

  lemma {:induction false} CrosswalkEdges(xs: seq<Entry<Crosswalk>>)
    ensures AllCatalogEdges(CrosswalkOps(xs))
  {
    if xs != [] {
      CrosswalkEdges(xs[..|xs|-1]);
      var e := xs[|xs|-1];
      if e.Object? { BuildersAreCatalogEdges(NO_FW, NO_REQ, NO_CTRL, "", e.value); }
    }
  }

  lemma CatalogOpsEdges(c: Catalog)
    ensures AllCatalogEdges(Ops(c))
  {
    FrameworkEdges(Frameworks(c));
    ControlEdges(Controls(c));
    CrosswalkEdges(Crosswalks(c));
  }

  /** For any catalog: the synchronised edges hold every link the catalog asks for, and no other,
      exactly when no two of its links share a ref. */
  lemma CatalogKeepsLinksIff(c: Catalog)
    ensures Asked(Ops(c)) == Held(Ops(c)) <==> NoCollision(Ops(c))
  {
    CatalogOpsEdges(c);
    var ops := Ops(c);
    forall o, p | o in ops && p in ops && o.PutEdge? && p.PutEdge? && LinkOf(o.edge) == LinkOf(p.edge)
      ensures o.edge.ref == p.edge.ref
    {
      CatalogEdgeRefByLink(o.edge, p.edge);
    }
    NoLinkLostIff(ops);
  }

  // The part of an edge ref before its last separator is a ref without ':'.
  lemma {:induction false} SplitAtColon(a: string, b: string, c: string, d: string)
    requires a + ":" + b == c + ":" + d && ':' !in a && ':' !in c
    ensures a == c && b == d
  {
    var s := a + ":" + b;
    assert s[|a|] == ':' && s[|c|] == ':';
    assert s[..|a|] == a && s[..|c|] == c;
    assert s[|a|+1..] == b && s[|c|+1..] == d;
  }

  // The text after the kind of the source's ref.
  ghost predicate PlainSource(w: EdgeWrite) {
    forall a :: w.srcRef == FrameworkRef(a) || w.srcRef == ControlRef(a) || w.srcRef == RequirementRef(a) ==> ':' !in a
  }

  lemma PlainEdgesDoNotCollide(v: EdgeWrite, w: EdgeWrite)
    requires CatalogEdge(v) && CatalogEdge(w) && PlainSource(v) && PlainSource(w) && v.ref == w.ref
    ensures LinkOf(v) == LinkOf(w)
  {
    var vk, va, vb := EdgeParts(v);
    var wk, wa, wb := EdgeParts(w);
    hide *;
    SplitTwice(vk, va, vb, wk, wa, wb);
    SameParts(v, w, vk, va, vb);
  }

  lemma SplitTwice(k: string, a: string, b: string, l: string, c: string, d: string)
    requires k + ":" + a + ":" + b == l + ":" + c + ":" + d
    requires ':' !in k && ':' !in l && ':' !in a && ':' !in c
    ensures k == l && a == c && b == d
  {
    assert k + ":" + a + ":" + b == k + ":" + (a + ":" + b);
    assert l + ":" + c + ":" + d == l + ":" + (c + ":" + d);
    SplitAtColon(k, a + ":" + b, l, c + ":" + d);
    SplitAtColon(a, b, c, d);
  }

  lemma SameParts(v: EdgeWrite, w: EdgeWrite, kind: string, a: string, b: string)
    requires v.kind == kind == w.kind
    requires v.srcRef == SourceRef(kind, a) == w.srcRef && v.dstRef == RequirementRef(b) == w.dstRef
    ensures LinkOf(v) == LinkOf(w)
  {}

  lemma EdgeParts(w: EdgeWrite) returns (kind: string, a: string, b: string)
    requires CatalogEdge(w) && PlainSource(w)
    ensures kind == w.kind && ':' !in kind && ':' !in a
    ensures w.ref == kind + ":" + a + ":" + b
    ensures w.srcRef == SourceRef(kind, a) && w.dstRef == RequirementRef(b)
  {
    kind := w.kind;
    a, b :| EdgeFrom(w, a, b);
  }

  /** Refs without ':' on the source side are enough to keep every link. */
  lemma PlainSourcesKeepLinks(c: Catalog)
    requires forall o | o in Ops(c) && o.PutEdge? :: PlainSource(o.edge)
    ensures Asked(Ops(c)) == Held(Ops(c))
  {
    CatalogOpsEdges(c);
    var ops := Ops(c);
    forall o, p | o in ops && p in ops && o.PutEdge? && p.PutEdge? && o.edge.ref == p.edge.ref
      ensures LinkOf(o.edge) == LinkOf(p.edge)
    {
      PlainEdgesDoNotCollide(o.edge, p.edge);
    }
    CatalogKeepsLinksIff(c);
  }

  // Two frameworks, "a" above requirement "b:c" and "a:b" above requirement "c".
  function CollidingCatalog(): Catalog {
    Catalog(List([Object(FRAMEWORK_A), Object(FRAMEWORK_AB)]), List([]), List([]))
  }

  lemma CollidingCatalogIsWellFormed()
    ensures WellFormed(CollidingCatalog())
  {
    CollidingRequirements();
    hide RequirementsDistinct;
    assert CrosswalksWellFormed(CollidingCatalog());
  }

  lemma CollidingRequirements()
    ensures RequirementsDistinct(CollidingCatalog())
  {
    var c := CollidingCatalog();
    assert forall i, j :: HasReq(c, i, j) ==> i < 2 && j == 0;
  }

  lemma CollidingLinks()
    ensures PutEdge(EdgeWrite("framework:a", "requirement:b:c", "parent_of", "", "parent_of:a:b:c")) in Ops(CollidingCatalog())
    ensures PutEdge(EdgeWrite("framework:a:b", "requirement:c", "parent_of", "", "parent_of:a:b:c")) in Ops(CollidingCatalog())
  {
    CollidingOps();
    CollidingParents();
    hide Ops, CollidingCatalog, ParentOf;
  }

  const FRAMEWORK_A := Framework("a", "A", "", map[], List([Object(Requirement("b:c", "R", "", "", "", map[]))]))
  const FRAMEWORK_AB := Framework("a:b", "B", "", map[], List([Object(Requirement("c", "S", "", "", "", map[]))]))

  lemma CollidingParents()
    ensures ParentOf(FRAMEWORK_A, Requirement("b:c", "R", "", "", "", map[])) ==
            EdgeWrite("framework:a", "requirement:b:c", "parent_of", "", "parent_of:a:b:c")
    ensures ParentOf(FRAMEWORK_AB, Requirement("c", "S", "", "", "", map[])) ==
            EdgeWrite("framework:a:b", "requirement:c", "parent_of", "", "parent_of:a:b:c")
  {
    assert FrameworkRef("a") == "framework:a" && FrameworkRef("a:b") == "framework:a:b";
    assert RequirementRef("b:c") == "requirement:b:c" && RequirementRef("c") == "requirement:c";
    assert ParentOfRef("a", "b:c") == "parent_of:a:b:c" == ParentOfRef("a:b", "c");
  }

  lemma CollidingOps()
    ensures PutEdge(ParentOf(FRAMEWORK_A, Requirement("b:c", "R", "", "", "", map[]))) in Ops(CollidingCatalog())
    ensures PutEdge(ParentOf(FRAMEWORK_AB, Requirement("c", "S", "", "", "", map[]))) in Ops(CollidingCatalog())
  {
    hide RequirementWrite, FrameworkWrite, ParentOf;
    var c := CollidingCatalog();
    var f, g := Frameworks(c)[0].value, Frameworks(c)[1].value;
    assert Frameworks(c)[..1] == [Object(f)];
    OneRequirement(f, f.requirements.items[0].value);
    OneRequirement(g, g.requirements.items[0].value);
    assert f.requirements.items == [f.requirements.items[0]] && g.requirements.items == [g.requirements.items[0]];
    assert PutEdge(ParentOf(f, f.requirements.items[0].value)) in OneFrameworkOps(f);
    assert PutEdge(ParentOf(g, g.requirements.items[0].value)) in OneFrameworkOps(g);
    assert FrameworkOps([Object(f)]) == FrameworkOps([]) + OneFrameworkOps(f) by { assert [Object(f)][..0] == []; }
    assert FrameworkOps(Frameworks(c)) == FrameworkOps([Object(f)]) + OneFrameworkOps(g);
  }

  lemma OneRequirement(fw: Framework, q: Requirement)
    ensures PutEdge(ParentOf(fw, q)) in RequirementOps(fw, [Object(q)])
  {}

  /** A well-formed catalog can lose a link. */
  lemma CollisionLosesALink()
    ensures WellFormed(CollidingCatalog())
    ensures Asked(Ops(CollidingCatalog())) != Held(Ops(CollidingCatalog()))
  {
    hide Ops, CollidingCatalog, WellFormed, Asked, Held;
    CollidingCatalogIsWellFormed();
    CollidingLinks();
    assert "framework:a" != "framework:a:b";
    CatalogKeepsLinksIff(CollidingCatalog());
  }
}
