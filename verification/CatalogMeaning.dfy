/** What a committed run leaves behind and reports, entry by entry of the document, in the document's own fields. */
module CatalogMeaning {
  import opened Options
  import opened Graph
  import opened CatalogDocument
  import opened CatalogPlan
  import opened CatalogRun
  import opened CatalogRunnable
  import opened CatalogCommit
  import opened CatalogLinks

  /*************** the statement ***************/

  // The name as the column holds it: all of it, or its first 255 characters.
  predicate Fitted(shown: string, name: string) { shown <= name && |shown| <= 255 && (shown != name ==> |shown| == 255) }

  // Row i stands under this ref with this name and description.  A row that was there before keeps its type and
  // status; a new one is of this type, active and unowned.
  predicate RowIs(org: Org, source: string, before: Db, after: Db, i: Id, ref: string, kind: string, name: string, description: string) {
    && i in after.assets
    && var a := after.assets[i];
       && a.org == org && a.origin == Some(Origin(source, ref)) && Fitted(a.name, name) && a.description == description
       && if i in before.assets
          then before.assets[i].origin == a.origin && a.kind == before.assets[i].kind && a.status == before.assets[i].status
          else a.kind == kind && a.status == "active" && a.owner == None
  }

  ghost predicate FrameworkShown(org: Org, source: string, before: Db, after: Db, f: Framework) {
    exists i :: RowIs(org, source, before, after, i, "framework:" + f.ref, "framework", f.name, f.description) &&
                after.assets[i].metadata == f.metadata
  }

  // A requirement's own metadata, and three defaults derived from the document.
  predicate WithDefaults(meta: Meta, f: Framework, q: Requirement) {
    && (forall k | k in q.metadata :: k in meta && meta[k] == q.metadata[k])
    && "framework" in meta && ("framework" !in q.metadata ==> meta["framework"] == f.name)
    && (q.referenceId != "" ==> "reference_id" in meta && ("reference_id" !in q.metadata ==> meta["reference_id"] == q.referenceId))
    && (q.category != "" ==> "category" in meta && ("category" !in q.metadata ==> meta["category"] == q.category))
    && (forall k | k in meta :: k in q.metadata || k == "framework" || (k == "reference_id" && q.referenceId != "")
                                || (k == "category" && q.category != ""))
  }

  ghost predicate RequirementShown(org: Org, source: string, before: Db, after: Db, f: Framework, q: Requirement) {
    exists i :: RowIs(org, source, before, after, i, "requirement:" + q.ref, "requirement", q.name, q.description) &&
                WithDefaults(after.assets[i].metadata, f, q)
  }

  ghost predicate ControlShown(org: Org, source: string, before: Db, after: Db, t: Control) {
    exists i :: RowIs(org, source, before, after, i, "control:" + t.ref, "control", t.name, t.description) &&
                after.assets[i].metadata == t.metadata
  }

  // The three kinds of edge a document asks for.
  predicate IsParentOf(w: EdgeWrite, f: Framework, q: Requirement) {
    w == EdgeWrite("framework:" + f.ref, "requirement:" + q.ref, "parent_of", "", "parent_of:" + f.ref + ":" + q.ref)
  }

  predicate IsSatisfies(w: EdgeWrite, t: Control, req: string) {
    w == EdgeWrite("control:" + t.ref, "requirement:" + req, "satisfies", "", "satisfies:" + t.ref + ":" + req)
  }

  predicate IsCrossMaps(w: EdgeWrite, x: Crosswalk) {
    w == EdgeWrite("requirement:" + x.src, "requirement:" + x.dst, "cross_maps", Join(" \U{B7} ", Bits(x)), "cross_maps:" + x.src + ":" + x.dst)
  }

  // The relationship, the confidence and the note, as far as given.
  function Bits(x: Crosswalk): seq<string> {
    [if x.relationship in {None, Some("")} then "related" else x.relationship.value]
    + (if x.confidence == "" then [] else ["confidence: " + x.confidence]) + (if x.note == "" then [] else [x.note])
  }

  function Join(separator: string, bits: seq<string>): string {
    if bits == [] then "" else if |bits| == 1 then bits[0] else bits[0] + separator + Join(separator, bits[1..])
  }

  ghost predicate Asks(c: Catalog, w: EdgeWrite) {
    || (exists f, q :: f in Frameworks(c) && f.Object? && q in Requirements(f) && q.Object? && IsParentOf(w, f.value, q.value))
    || (exists t, req :: t in Controls(c) && t.Object? && req in t.value.satisfies && IsSatisfies(w, t.value, req))
    || (exists x :: x in Crosswalks(c) && x.Object? && IsCrossMaps(w, x.value))
  }

  // The source's edges are edges the document asks for, and each it asks for is there unless another one of the
  // document spells the same ref.
  ghost predicate EdgesShown(c: Catalog, org: Org, source: string, after: Db) {
    && (forall e | e in after.edges && OwnsEdge(org, source, after.edges[e]) :: exists w :: Asks(c, w) && EdgeMatches(org, source, after, e, w))
    && (forall w | Asks(c, w) && Alone(c, w) :: exists e :: e in after.edges && EdgeMatches(org, source, after, e, w))
  }

  ghost predicate Alone(c: Catalog, w: EdgeWrite) { forall v | Asks(c, v) && v.ref == w.ref :: v == w }

  /** What a committed run shows of the document. */
  ghost predicate Shows(c: Catalog, org: Org, source: string, before: Db, after: Db) {
    && (forall f | f in Frameworks(c) && f.Object? :: FrameworkShown(org, source, before, after, f.value))
    && (forall f, q | f in Frameworks(c) && f.Object? && q in Requirements(f) && q.Object? ::
          RequirementShown(org, source, before, after, f.value, q.value))
    && (forall t | t in Controls(c) && t.Object? :: ControlShown(org, source, before, after, t.value))
    && EdgesShown(c, org, source, after)
  }

  function RequirementCount(fs: seq<Entry<Framework>>): nat {
    if fs == [] then 0 else RequirementCount(fs[..|fs| - 1]) + |Requirements(fs[|fs| - 1])|
  }

  // The four document counters.
  predicate CountsEntries(c: Catalog, t: Tally) {
    && t.frameworks == |Frameworks(c)| && t.requirements == RequirementCount(Frameworks(c))
    && t.controls == |Controls(c)| && t.crosswalks == |Crosswalks(c)|
  }

  /*************** which upserts the document asks for ***************/

  lemma {:induction false} InRequirementOps(fw: Framework, qs: seq<Entry<Requirement>>, o: Op)
    ensures o in RequirementOps(fw, qs) <==> 
            exists q :: q in qs && q.Object? && o in [PutAsset(RequirementWrite(fw, q.value)), PutEdge(ParentOf(fw, q.value))]
  {
    hide RequirementWrite, ParentOf;
    if qs != [] {
      var (init, last) := (qs[..|qs| - 1], qs[|qs| - 1]);
      InRequirementOps(fw, init, o);
      RequirementOpsLast(fw, qs, o);
      hide RequirementOps;
      assert qs == init + [last];
      assert forall q :: q in qs <==> q in init || q == last;
    }
  }

  lemma RequirementOpsLast(fw: Framework, qs: seq<Entry<Requirement>>, o: Op)
    requires qs != []
    ensures var (init, last) := (qs[..|qs| - 1], qs[|qs| - 1]);
            o in RequirementOps(fw, qs) <==>
            (o in RequirementOps(fw, init) ||
             (last.Object? && o in [PutAsset(RequirementWrite(fw, last.value)), PutEdge(ParentOf(fw, last.value))]))
  {
    hide RequirementWrite, ParentOf;
  }

  lemma {:induction false} InFrameworkOps(fs: seq<Entry<Framework>>, o: Op)
    ensures o in FrameworkOps(fs) <==> exists f :: f in fs && f.Object? && o in OneFrameworkOps(f.value)
  {
    hide OneFrameworkOps;
    if fs != [] {
      var (init, last) := (fs[..|fs| - 1], fs[|fs| - 1]);
      InFrameworkOps(init, o);
      FrameworkOpsLast(fs, o);
      hide FrameworkOps;
      assert fs == init + [last];
      assert forall f :: f in fs <==> f in init || f == last;
    }
  }

  lemma FrameworkOpsLast(fs: seq<Entry<Framework>>, o: Op)
    requires fs != []
    ensures var (init, last) := (fs[..|fs| - 1], fs[|fs| - 1]);
            o in FrameworkOps(fs) <==> o in FrameworkOps(init) || (last.Object? && o in OneFrameworkOps(last.value))
  {
    hide OneFrameworkOps;
  }

  lemma {:induction false} InSatisfiesOps(t: Control, reqs: seq<string>, o: Op)
    ensures o in SatisfiesOps(t, reqs) <==> exists r :: r in reqs && o == PutEdge(Satisfies(t, r))
  {
    hide Satisfies;
    if reqs != [] {
      var n := |reqs| - 1;
      InSatisfiesOps(t, reqs[..n], o);
      assert reqs == reqs[..n] + [reqs[n]];
    }
  }

  lemma {:induction false} InControlOps(ts: seq<Entry<Control>>, o: Op)
    ensures o in ControlOps(ts) <==> exists t :: t in ts && t.Object? && o in OneControlOps(t.value)
  {
    hide OneControlOps;
    if ts != [] {
      var (init, last) := (ts[..|ts| - 1], ts[|ts| - 1]);
      InControlOps(init, o);
      ControlOpsLast(ts, o);
      hide ControlOps;
      assert ts == init + [last];
      assert forall t :: t in ts <==> t in init || t == last;
    }
  }

  lemma ControlOpsLast(ts: seq<Entry<Control>>, o: Op)
    requires ts != []
    ensures var (init, last) := (ts[..|ts| - 1], ts[|ts| - 1]);
            o in ControlOps(ts) <==> o in ControlOps(init) || (last.Object? && o in OneControlOps(last.value))
  {
    hide OneControlOps;
  }

  lemma {:induction false} InCrosswalkOps(xs: seq<Entry<Crosswalk>>, o: Op)
    ensures o in CrosswalkOps(xs) <==> exists x :: x in xs && x.Object? && o == PutEdge(CrossMaps(x.value))
  {
    hide CrossMaps;
    if xs != [] {
      var (init, last) := (xs[..|xs| - 1], xs[|xs| - 1]);
      InCrosswalkOps(init, o);
      CrosswalkOpsLast(xs, o);
      hide CrosswalkOps;
      assert xs == init + [last];
      assert forall x :: x in xs <==> x in init || x == last;
    }
  }

  lemma CrosswalkOpsLast(xs: seq<Entry<Crosswalk>>, o: Op)
    requires xs != []
    ensures var (init, last) := (xs[..|xs| - 1], xs[|xs| - 1]);
            o in CrosswalkOps(xs) <==> o in CrosswalkOps(init) || (last.Object? && o == PutEdge(CrossMaps(last.value)))
  {
    hide CrossMaps;
  }

  lemma TextIsJoined(x: Crosswalk)
    ensures CrosswalkText(x) == Join(" \U{B7} ", Bits(x))
  {
    var rel := if x.relationship in {None, Some("")} then "related" else x.relationship.value;
    var (c, n) := ("confidence: " + x.confidence, x.note);
    assert Bits(x) == [rel] + (if x.confidence == "" then [] else [c]) + (if n == "" then [] else [n]);
    assert (if x.relationship.Some? && x.relationship.value != "" then x.relationship.value else "related") == rel;
    JoinUpToThree(rel, c, n);
    assert DOT + "confidence: " + x.confidence == DOT + c;
  }

  lemma JoinUpToThree(a: string, b: string, c: string)
    ensures Join(DOT, [a] + [] + []) == a + "" + "" && Join(DOT, [a] + [b] + []) == a + (DOT + b) + ""
    ensures Join(DOT, [a] + [] + [c]) == a + "" + (DOT + c) && Join(DOT, [a] + [b] + [c]) == a + (DOT + b) + (DOT + c)
  {
    assert [a] + [] + [] == [a] && [a] + [b] + [] == [a, b] && [a] + [] + [c] == [a, c] && [a] + [b] + [c] == [a, b, c];
    assert [a, b][1..] == [b] && [a, c][1..] == [c] && [a, b, c][1..] == [b, c] && [b, c][1..] == [c];
  }

  lemma BuildersAre(f: Framework, q: Requirement, t: Control, r: string, x: Crosswalk)
    ensures forall w :: w == ParentOf(f, q) <==> IsParentOf(w, f, q)
    ensures forall w :: w == Satisfies(t, r) <==> IsSatisfies(w, t, r)
    ensures forall w :: w == CrossMaps(x) <==> IsCrossMaps(w, x)
  {
    TextIsJoined(x);
    hide CrosswalkText, Join, Bits;
  }

  lemma FromFramework(c: Catalog, w: EdgeWrite)
    ensures PutEdge(w) in FrameworkOps(Frameworks(c)) <==>
            exists f, q :: f in Frameworks(c) && f.Object? && q in Requirements(f) && q.Object? && IsParentOf(w, f.value, q.value)
  {
    InFrameworkOps(Frameworks(c), PutEdge(w));
    hide FrameworkOps, IsParentOf, RequirementOps, ParentOf, RequirementWrite, FrameworkWrite;
    forall f | f in Frameworks(c) && f.Object?
      ensures PutEdge(w) in OneFrameworkOps(f.value) <==> exists q :: q in Requirements(f) && q.Object? && IsParentOf(w, f.value, q.value)
    {
      InRequirementOps(f.value, Requirements(f), PutEdge(w));
      forall q | q in Requirements(f) && q.Object? ensures w == ParentOf(f.value, q.value) <==> IsParentOf(w, f.value, q.value) {
        BuildersAre(f.value, q.value, NO_CTRL, "", NO_XW);
      }
    }
  }

  lemma FromControl(c: Catalog, w: EdgeWrite)
    ensures PutEdge(w) in ControlOps(Controls(c)) <==>
            exists t, req :: t in Controls(c) && t.Object? && req in t.value.satisfies && IsSatisfies(w, t.value, req)
  {
    InControlOps(Controls(c), PutEdge(w));
    hide ControlOps, IsSatisfies, SatisfiesOps, Satisfies, ControlWrite;
    forall t | t in Controls(c) && t.Object?
      ensures PutEdge(w) in OneControlOps(t.value) <==> exists r :: r in t.value.satisfies && IsSatisfies(w, t.value, r)
    {
      InSatisfiesOps(t.value, t.value.satisfies, PutEdge(w));
      forall r | r in t.value.satisfies ensures w == Satisfies(t.value, r) <==> IsSatisfies(w, t.value, r) {
        BuildersAre(NO_FW, NO_REQ, t.value, r, NO_XW);
      }
    }
  }

  lemma FromCrosswalk(c: Catalog, w: EdgeWrite)
    ensures PutEdge(w) in CrosswalkOps(Crosswalks(c)) <==> exists x :: x in Crosswalks(c) && x.Object? && IsCrossMaps(w, x.value)
  {
    InCrosswalkOps(Crosswalks(c), PutEdge(w));
    hide CrosswalkOps, IsCrossMaps, CrossMaps;
    forall x | x in Crosswalks(c) && x.Object? ensures w == CrossMaps(x.value) <==> IsCrossMaps(w, x.value) {
      BuildersAre(NO_FW, NO_REQ, NO_CTRL, "", x.value);
    }
  }

  /** The plan's edges are the ones the document asks for. */
  lemma AsksIff(c: Catalog, w: EdgeWrite)
    ensures Asks(c, w) <==> PutEdge(w) in Ops(c)
  {
    FromFramework(c, w);
    FromControl(c, w);
    FromCrosswalk(c, w);
    hide FrameworkOps, ControlOps, CrosswalkOps, IsParentOf, IsSatisfies, IsCrossMaps;
  }

  /*************** the rows ***************/

  lemma {:induction false} PlanHolds(ops: seq<Op>, w: AssetWrite)
    requires DistinctAssets(ops) && PutAsset(w) in ops
    ensures w.ref in AssetPlan(ops) && AssetPlan(ops)[w.ref] == w
  {
    var n := |ops| - 1;
    assert ops == ops[..n] + [ops[n]];
    if PutAsset(w) in ops[..n] {
      PlanHolds(ops[..n], w);
      var i :| 0 <= i < n && ops[i] == PutAsset(w);
      assert ops[n].PutAsset? ==> ops[i].asset.ref != ops[n].asset.ref;
    }
  }

  lemma CutFits(name: string)
    ensures Fitted(Cut(name), name)
  {}

  lemma PlannedRow(org: Org, source: string, prune: bool, before: Db, ops: seq<Op>, w: AssetWrite, name: string)
    requires Valid(before) && Runnable(ops) && PutAsset(w) in ops && Fitted(w.name, name)
    ensures exists i :: RowIs(org, source, before, Committed(org, source, prune, before, ops), i, w.ref, w.kind, name, w.description) &&
                        Committed(org, source, prune, before, ops).assets[i].metadata == w.metadata
  {
    PlanHolds(ops, w);
    PlannedAssets(org, source, before, ops, w.ref);
    var plain := Committed(org, source, false, before, ops);
    hide Valid, Runnable, Committed, Fitted, DistinctAssets;
    var i :| i in plain.assets && AssetKeyed(org, Origin(source, w.ref), plain.assets[i]) && Carries(plain.assets[i], w) &&
      (if HasAsset(before, org, source, w.ref)
       then i in before.assets && AssetKeyed(org, Origin(source, w.ref), before.assets[i]) && KeepsIdentity(before.assets[i], plain.assets[i])
       else i !in before.assets && plain.assets[i] == NewAsset(org, source, w));
    RowIsKept(org, source, before, plain, i, w, name);
    hide RowIs;
    if prune {
      PruneIsExact(org, source, before, ops);
      var gone := Dropped(org, source, AssetPlan(ops), before);
      assert i !in gone;
      assert Committed(org, source, true, before, ops).assets[i] == Disowned(plain.assets[i], gone);
      DisownedRow(org, source, before, plain, Committed(org, source, true, before, ops), gone, i, w, name);
    }
  }

  lemma RowIsKept(org: Org, source: string, before: Db, plain: Db, i: Id, w: AssetWrite, name: string)
    requires i in plain.assets && AssetKeyed(org, Origin(source, w.ref), plain.assets[i]) && Carries(plain.assets[i], w) && Fitted(w.name, name)
    requires if i in before.assets then KeepsIdentity(before.assets[i], plain.assets[i]) else plain.assets[i] == NewAsset(org, source, w)
    ensures RowIs(org, source, before, plain, i, w.ref, w.kind, name, w.description)
  {}

  lemma DisownedRow(org: Org, source: string, before: Db, plain: Db, after: Db, gone: set<Id>, i: Id, w: AssetWrite, name: string)
    requires RowIs(org, source, before, plain, i, w.ref, w.kind, name, w.description)
    requires i in after.assets && after.assets[i] == Disowned(plain.assets[i], gone)
    ensures RowIs(org, source, before, after, i, w.ref, w.kind, name, w.description)
    ensures after.assets[i].metadata == plain.assets[i].metadata
  {}

  lemma MetaIsDefaulted(f: Framework, q: Requirement)
    ensures WithDefaults(RequirementMeta(f, q), f, q)
  {}

  lemma FrameworkIsShown(c: Catalog, org: Org, source: string, prune: bool, before: Db, f: Entry<Framework>)
    requires Valid(before) && Runnable(Ops(c)) && f in Frameworks(c) && f.Object?
    ensures FrameworkShown(org, source, before, Committed(org, source, prune, before, Ops(c)), f.value)
  {
    var w := FrameworkWrite(f.value);
    InFrameworkOps(Frameworks(c), PutAsset(w));
    assert OneFrameworkOps(f.value)[0] == PutAsset(w);
    assert PutAsset(w) in Ops(c);
    CutFits(f.value.name);
    hide Valid, Runnable, Committed, Ops, Fitted, RowIs;
    PlannedRow(org, source, prune, before, Ops(c), w, f.value.name);
  }

  lemma RequirementIsShown(c: Catalog, org: Org, source: string, prune: bool, before: Db, f: Entry<Framework>, q: Entry<Requirement>)
    requires Valid(before) && Runnable(Ops(c)) && f in Frameworks(c) && f.Object? && q in Requirements(f) && q.Object?
    ensures RequirementShown(org, source, before, Committed(org, source, prune, before, Ops(c)), f.value, q.value)
  {
    var w := RequirementWrite(f.value, q.value);
    MetaIsDefaulted(f.value, q.value);
    hide WithDefaults, RequirementMeta, Valid, Runnable, Committed;
    InRequirementOps(f.value, Requirements(f), PutAsset(w));
    InFrameworkOps(Frameworks(c), PutAsset(w));
    assert PutAsset(w) in Ops(c);
    CutFits(q.value.name);
    hide Ops, Fitted, RowIs;
    PlannedRow(org, source, prune, before, Ops(c), w, q.value.name);
  }

  lemma ControlIsShown(c: Catalog, org: Org, source: string, prune: bool, before: Db, t: Entry<Control>)
    requires Valid(before) && Runnable(Ops(c)) && t in Controls(c) && t.Object?
    ensures ControlShown(org, source, before, Committed(org, source, prune, before, Ops(c)), t.value)
  {
    var w := ControlWrite(t.value);
    InControlOps(Controls(c), PutAsset(w));
    assert OneControlOps(t.value)[0] == PutAsset(w);
    assert PutAsset(w) in Ops(c);
    CutFits(t.value.name);
    hide Valid, Runnable, Committed, Ops, Fitted, RowIs;
    PlannedRow(org, source, prune, before, Ops(c), w, t.value.name);
  }

  /*************** the edges ***************/

  lemma EdgesAreShown(c: Catalog, org: Org, source: string, prune: bool, before: Db)
    requires Valid(before) && Runnable(Ops(c))
    ensures EdgesShown(c, org, source, Committed(org, source, prune, before, Ops(c)))
  {
    var (ops, after) := (Ops(c), Committed(org, source, prune, before, Ops(c)));
    EdgesConverge(org, source, prune, before, ops);
    hide Valid, Runnable, Committed, Ops, Asks, EdgeMatches, HasEdge;
    forall e | e in after.edges && OwnsEdge(org, source, after.edges[e]) ensures exists w :: Asks(c, w) && EdgeMatches(org, source, after, e, w) {
      var ref := after.edges[e].origin.value.ref;
      EdgePlanSources(ops, ref);
      AsksIff(c, EdgePlan(ops)[ref]);
    }
    forall w | Asks(c, w) && Alone(c, w) ensures exists e :: e in after.edges && EdgeMatches(org, source, after, e, w) {
      AloneIsThere(c, org, source, after, w);
    }
  }

  lemma AloneIsThere(c: Catalog, org: Org, source: string, after: Db, w: EdgeWrite)
    requires EdgesConverged(org, source, EdgePlan(Ops(c)), after) && Asks(c, w) && Alone(c, w)
    ensures exists e :: e in after.edges && EdgeMatches(org, source, after, e, w)
  {
    var ops := Ops(c);
    hide Ops, Asks, EdgeMatches;
    AsksIff(c, w);
    EdgePlanSources(ops, w.ref);
    AsksIff(c, EdgePlan(ops)[w.ref]);
    assert EdgePlan(ops)[w.ref] == w;
    assert HasEdge(after, org, source, w.ref);
    var e :| e in after.edges && EdgeKeyed(org, Origin(source, w.ref), after.edges[e]);
  }

  /** A committed run of a well-formed document shows it. */
  lemma CommittedShows(c: Catalog, org: Org, source: string, prune: bool, before: Db)
    requires Valid(before) && Runnable(Ops(c))
    ensures Shows(c, org, source, before, Committed(org, source, prune, before, Ops(c)))
  {
    EdgesAreShown(c, org, source, prune, before);
    hide Valid, Runnable, Committed, Ops, EdgesShown, FrameworkShown, RequirementShown, ControlShown;
    var after := Committed(org, source, prune, before, Ops(c));
    forall f | f in Frameworks(c) && f.Object? ensures FrameworkShown(org, source, before, after, f.value) {
      FrameworkIsShown(c, org, source, prune, before, f);
    }
    forall f, q | f in Frameworks(c) && f.Object? && q in Requirements(f) && q.Object?
      ensures RequirementShown(org, source, before, after, f.value, q.value)
    {
      RequirementIsShown(c, org, source, prune, before, f, q);
    }
    forall t | t in Controls(c) && t.Object? ensures ControlShown(org, source, before, after, t.value) {
      ControlIsShown(c, org, source, prune, before, t);
    }
  }

  /*************** the counters ***************/

  datatype Entries = Entries(frameworks: nat, requirements: nat, controls: nat, crosswalks: nat)

  function Plus(a: Entries, b: Entries): Entries {
    Entries(a.frameworks + b.frameworks, a.requirements + b.requirements, a.controls + b.controls, a.crosswalks + b.crosswalks)
  }

  function EntryOf(o: Op): Entries {
    match o
    case PutAsset(w) =>
      if w.kind == "framework" then Entries(1, 0, 0, 0)
      else if w.kind == "requirement" then Entries(0, 1, 0, 0)
      else if w.kind == "control" then Entries(0, 0, 1, 0) else Entries(0, 0, 0, 0)
    case PutEdge(w) => if w.kind == "cross_maps" then Entries(0, 0, 0, 1) else Entries(0, 0, 0, 0)
  }

  function EntriesOf(ops: seq<Op>): Entries {
    if ops == [] then Entries(0, 0, 0, 0) else Plus(EntriesOf(ops[..|ops| - 1]), EntryOf(ops[|ops| - 1]))
  }

  function Counted(t: Tally): Entries { Entries(t.frameworks, t.requirements, t.controls, t.crosswalks) }

  lemma {:induction false} EntriesAppend(a: seq<Op>, b: seq<Op>)
    ensures EntriesOf(a + b) == Plus(EntriesOf(a), EntriesOf(b))
  {
    hide EntryOf;
    if b == [] {
      assert a + b == a;
    } else {
      EntriesAppend(a, b[..|b| - 1]);
      assert (a + b)[..|a + b| - 1] == a + b[..|b| - 1];
    }
  }

  lemma StepCounts(org: Org, source: string, r: Run, o: Op)
    requires o.PutEdge? ==> o.edge.srcRef in r.ids && o.edge.dstRef in r.ids
    ensures Counted(Step(org, source, r, o).tally) == Plus(Counted(r.tally), EntryOf(o))
  {
    hide AssetSlot, EdgeSlot;
  }

  lemma {:induction false} PlayCounts(org: Org, source: string, before: Db, ops: seq<Op>)
    requires Valid(before) && Runnable(ops)
    ensures Counted(Play(org, source, Start(before), ops).tally) == EntriesOf(ops)
  {
    hide Valid, Runnable, Step, EntryOf, Played;
    if ops != [] {
      var n := |ops| - 1;
      RunnablePrefix(ops);
      PlayCounts(org, source, before, ops[..n]);
      PlayIsPlayed(org, source, before, ops[..n]);
      var r := Play(org, source, Start(before), ops[..n]);
      PlayedParts(org, source, before, ops[..n], r);
      hide IdsName, SeenAre, Resolved, AssetsAfter, EdgesAfter, TallyIs;
      StepCounts(org, source, r, ops[n]);
    }
  }

  lemma BuilderEntries(f: Framework, q: Requirement, t: Control, r: string, x: Crosswalk)
    ensures EntryOf(PutAsset(FrameworkWrite(f))) == Entries(1, 0, 0, 0)
    ensures EntryOf(PutAsset(RequirementWrite(f, q))) == Entries(0, 1, 0, 0) && EntryOf(PutEdge(ParentOf(f, q))) == Entries(0, 0, 0, 0)
    ensures EntryOf(PutAsset(ControlWrite(t))) == Entries(0, 0, 1, 0)
    ensures EntryOf(PutEdge(Satisfies(t, r))) == Entries(0, 0, 0, 0)
    ensures EntryOf(PutEdge(CrossMaps(x))) == Entries(0, 0, 0, 1)
  {
    hide RequirementMeta, CrosswalkText;
  }

  lemma OneEntry(o: Op)
    ensures EntriesOf([o]) == EntryOf(o)
  {
    assert [o][..0] == [];
  }

  lemma {:induction false} RequirementEntries(fw: Framework, qs: seq<Entry<Requirement>>)
    requires forall q | q in qs :: q.Object?
    ensures EntriesOf(RequirementOps(fw, qs)) == Entries(0, |qs|, 0, 0)
  {
    hide EntryOf, RequirementWrite, ParentOf, EntriesOf;
    if qs == [] {
      NoEntries();
    } else {
      var n := |qs| - 1;
      assert qs[n] in qs;
      RequirementEntries(fw, qs[..n]);
      OneRequirementEntries(fw, qs[n].value);
      EntriesAppend(RequirementOps(fw, qs[..n]), [PutAsset(RequirementWrite(fw, qs[n].value)), PutEdge(ParentOf(fw, qs[n].value))]);
    }
  }

  lemma OneRequirementEntries(fw: Framework, q: Requirement)
    ensures EntriesOf([PutAsset(RequirementWrite(fw, q)), PutEdge(ParentOf(fw, q))]) == Entries(0, 1, 0, 0)
  {
    BuilderEntries(fw, q, NO_CTRL, "", NO_XW);
    hide EntryOf, RequirementWrite, ParentOf, EntriesOf;
    TwoEntries(PutAsset(RequirementWrite(fw, q)), PutEdge(ParentOf(fw, q)));
  }

  lemma TwoEntries(a: Op, b: Op)
    ensures EntriesOf([a, b]) == Plus(EntryOf(a), EntryOf(b))
  {
    hide EntryOf, EntriesOf;
    OneEntry(a);
    OneEntry(b);
    EntriesAppend([a], [b]);
    assert [a] + [b] == [a, b];
  }

  lemma {:induction false} FrameworkEntries(fs: seq<Entry<Framework>>)
    requires forall f | f in fs :: f.Object? && forall q | q in Requirements(f) :: q.Object?
    ensures EntriesOf(FrameworkOps(fs)) == Entries(|fs|, RequirementCount(fs), 0, 0)
  {
    hide EntriesOf, OneFrameworkOps, Requirements;
    if fs == [] {
      NoEntries();
    } else {
      var n := |fs| - 1;
      assert fs[n] in fs;
      FrameworkEntries(fs[..n]);
      OneFrameworkEntries(fs[n]);
      EntriesAppend(FrameworkOps(fs[..n]), OneFrameworkOps(fs[n].value));
    }
  }

  lemma NoEntries()
    ensures EntriesOf([]) == Entries(0, 0, 0, 0)
  {}

  lemma OneFrameworkEntries(f: Entry<Framework>)
    requires f.Object? && forall q | q in Requirements(f) :: q.Object?
    ensures EntriesOf(OneFrameworkOps(f.value)) == Entries(1, |Requirements(f)|, 0, 0)
  {
    hide EntryOf, FrameworkWrite, RequirementOps, EntriesOf;
    RequirementEntries(f.value, Requirements(f));
    BuilderEntries(f.value, NO_REQ, NO_CTRL, "", NO_XW);
    OneEntry(PutAsset(FrameworkWrite(f.value)));
    EntriesAppend([PutAsset(FrameworkWrite(f.value))], RequirementOps(f.value, Requirements(f)));
  }

  lemma {:induction false} SatisfiesEntries(t: Control, reqs: seq<string>)
    ensures EntriesOf(SatisfiesOps(t, reqs)) == Entries(0, 0, 0, 0)
  {
    hide EntryOf, Satisfies;
    if reqs != [] {
      var n := |reqs| - 1;
      SatisfiesEntries(t, reqs[..n]);
      BuilderEntries(NO_FW, NO_REQ, t, reqs[n], NO_XW);
      OneEntry(PutEdge(Satisfies(t, reqs[n])));
      EntriesAppend(SatisfiesOps(t, reqs[..n]), [PutEdge(Satisfies(t, reqs[n]))]);
    }
  }

  lemma {:induction false} ControlEntries(ts: seq<Entry<Control>>)
    requires forall t | t in ts :: t.Object?
    ensures EntriesOf(ControlOps(ts)) == Entries(0, 0, |ts|, 0)
  {
    hide EntryOf, ControlWrite, SatisfiesOps;
    if ts != [] {
      var n := |ts| - 1;
      var t := ts[n].value;
      ControlEntries(ts[..n]);
      SatisfiesEntries(t, t.satisfies);
      BuilderEntries(NO_FW, NO_REQ, t, "", NO_XW);
      OneEntry(PutAsset(ControlWrite(t)));
      EntriesAppend([PutAsset(ControlWrite(t))], SatisfiesOps(t, t.satisfies));
      EntriesAppend(ControlOps(ts[..n]), OneControlOps(t));
    }
  }

  lemma {:induction false} CrosswalkEntries(xs: seq<Entry<Crosswalk>>)
    requires forall x | x in xs :: x.Object?
    ensures EntriesOf(CrosswalkOps(xs)) == Entries(0, 0, 0, |xs|)
  {
    hide EntryOf, CrossMaps;
    if xs != [] {
      var n := |xs| - 1;
      CrosswalkEntries(xs[..n]);
      BuilderEntries(NO_FW, NO_REQ, NO_CTRL, "", xs[n].value);
      OneEntry(PutEdge(CrossMaps(xs[n].value)));
      EntriesAppend(CrosswalkOps(xs[..n]), [PutEdge(CrossMaps(xs[n].value))]);
    }
  }

  lemma AllObjects(c: Catalog)
    requires WellFormed(c)
    ensures forall f | f in Frameworks(c) :: f.Object? && forall q | q in Requirements(f) :: q.Object?
    ensures (forall t | t in Controls(c) :: t.Object?) && forall x | x in Crosswalks(c) :: x.Object?
  {
    forall f | f in Frameworks(c) ensures FrameworkOk(f) { var i :| 0 <= i < |Frameworks(c)| && Frameworks(c)[i] == f; }
    forall t | t in Controls(c) ensures ControlOk(c, t) { var i :| 0 <= i < |Controls(c)| && Controls(c)[i] == t; }
    forall x | x in Crosswalks(c) ensures CrosswalkOk(c, x) { var i :| 0 <= i < |Crosswalks(c)| && Crosswalks(c)[i] == x; }
    forall f, q | f in Frameworks(c) && q in Requirements(f) ensures q.Object? {
      var j :| 0 <= j < |Requirements(f)| && Requirements(f)[j] == q;
    }
  }

  /** The run counts the document's entries, each once. */
  lemma RunCountsEntries(c: Catalog, org: Org, source: string, before: Db)
    requires WellFormed(c) && Valid(before) && Runnable(Ops(c))
    ensures CountsEntries(c, Play(org, source, Start(before), Ops(c)).tally)
  {
    AllObjects(c);
    hide WellFormed, Valid, Runnable, FrameworkOps, ControlOps, CrosswalkOps, Play;
    PlayCounts(org, source, before, Ops(c));
    FrameworkEntries(Frameworks(c));
    ControlEntries(Controls(c));
    CrosswalkEntries(Crosswalks(c));
    EntriesAppend(FrameworkOps(Frameworks(c)), ControlOps(Controls(c)));
    EntriesAppend(FrameworkOps(Frameworks(c)) + ControlOps(Controls(c)), CrosswalkOps(Crosswalks(c)));
  }
}
