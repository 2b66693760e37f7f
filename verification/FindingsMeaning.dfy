/** What a run leaves of every finding an export lists and of its host, in the export's own fields. */
module FindingsMeaning {
  import opened Options
  import opened Graph
  import opened CatalogDocument
  import opened CatalogPlan
  import opened CatalogRun
  import opened ExternalSync
  import opened FindingsSync
  import Meaning = CatalogMeaning
  import Links = CatalogLinks

  /*************** the statement ***************/

  predicate Lists(x: Export, f: Finding) { Object(f) in Entries(x) }

  predicate Host(db: Db, org: Org, p: Id) {
    p in db.assets && db.assets[p].org == org && db.assets[p].kind in {"system", "device"}
  }

  predicate HasKey(db: Db, org: Org, p: Id, key: string, value: string) {
    Host(db, org, p) && key in db.assets[p].metadata && db.assets[p].metadata[key] == value
  }

  predicate HasName(db: Db, org: Org, p: Id, name: string) { Host(db, org, p) && db.assets[p].name == name }

  /* The system or device a resource is found on: the oldest whose cloud_resource_id is the resource's id, else the
     oldest whose external_id is, else the oldest of the resource's name. */
  ghost predicate HostOf(db: Db, org: Org, r: Resource, h: Id) {
    if r.id != "" && exists p :: HasKey(db, org, p, "cloud_resource_id", r.id)
    then HasKey(db, org, h, "cloud_resource_id", r.id) && forall q | HasKey(db, org, q, "cloud_resource_id", r.id) :: h <= q
    else if r.id != "" && exists p :: HasKey(db, org, p, "external_id", r.id)
    then HasKey(db, org, h, "external_id", r.id) && forall q | HasKey(db, org, q, "external_id", r.id) :: h <= q
    else r.name != "" && HasName(db, org, h, r.name) && forall q | HasName(db, org, q, r.name) :: h <= q
  }

  predicate FindingRow(org: Org, source: string, before: Db, after: Db, f: Finding, i: Id) {
    && i in after.assets
    && var a := after.assets[i];
       && a.org == org && a.origin == Some(Origin(source, "finding:" + f.id)) && a.kind == "finding"
       && Meaning.Fitted(a.name, f.title) && a.description == f.text && a.status == "active" && a.metadata == f.metadata
       && (i in before.assets ==> before.assets[i].origin == a.origin)
       && a.owner == if i in before.assets then before.assets[i].owner else None
  }

  // An affected_by edge from the finding's host to the finding.
  ghost predicate AffectsEdge(org: Org, source: string, before: Db, after: Db, f: Finding, e: Id) {
    && e in after.edges && EdgeKeyed(org, Origin(source, "affects:" + f.id), after.edges[e])
    && after.edges[e].kind == "affected_by" && after.edges[e].description == ""
    && f.resource.Some? && HostOf(before, org, f.resource.value, after.edges[e].src)
    && after.edges[e].dst in after.assets && AssetKeyed(org, Origin(source, "finding:" + f.id), after.assets[after.edges[e].dst])
  }

  ghost predicate HasHost(before: Db, org: Org, f: Finding) { f.resource.Some? && exists h :: HostOf(before, org, f.resource.value, h) }

  ghost predicate EdgesShown(x: Export, org: Org, source: string, before: Db, after: Db) {
    && (forall e | e in after.edges && OwnsEdge(org, source, after.edges[e]) ::
          exists f :: Lists(x, f) && AffectsEdge(org, source, before, after, f, e))
    && (forall f | Lists(x, f) && HasHost(before, org, f) :: exists e :: AffectsEdge(org, source, before, after, f, e))
  }

  predicate ListedAt(x: Export, org: Org, source: string, before: Db, i: Id, f: Finding) {
    i in before.assets && Lists(x, f) && AssetKeyed(org, Origin(source, "finding:" + f.id), before.assets[i])
  }

  // A row the export does not list stays as it was, but for the source's own open findings when missing ones are
  // resolved.
  ghost predicate OthersShown(x: Export, org: Org, source: string, resolve: bool, before: Db, after: Db) {
    forall i | i in before.assets && !(exists f :: ListedAt(x, org, source, before, i, f)) ::
      i in after.assets &&
      after.assets[i] == if resolve && OwnsAsset(org, source, before.assets[i]) && before.assets[i].kind == "finding" &&
                            before.assets[i].status != "archived"
                         then before.assets[i].(status := "archived", metadata := before.assets[i].metadata["finding_status" := "remediated"])
                         else before.assets[i]
  }

  /** What a run shows of the export: every listed finding, its host, and nothing else. */
  ghost predicate Shows(x: Export, org: Org, source: string, resolve: bool, before: Db, after: Db) {
    && (forall f | Lists(x, f) :: exists i :: FindingRow(org, source, before, after, f, i))
    && EdgesShown(x, org, source, before, after)
    && OthersShown(x, org, source, resolve, before, after)
  }

  /*************** the lookup ***************/

  lemma {:induction false} OldestIs(assets: map<Id, Asset>, org: Org, p: Probe, start: Id, end: Id)
    ensures var r := Oldest(assets, org, p, start, end);
            && (r.Some? ==> start <= r.value < end && Hit(org, p, assets[r.value]))
            && forall q | start <= q < end && (r.None? || q < r.value) :: !(q in assets && Hit(org, p, assets[q]))
    decreases end - start
  {
    hide Hit;
    if start < end && !(start in assets && Hit(org, p, assets[start])) { OldestIs(assets, org, p, start + 1, end); }
  }

  // The oldest row that meets a probe, over all rows.
  lemma OldestOfAll(db: Db, org: Org, p: Probe)
    requires IdsBelow(db)
    ensures var r := Oldest(db.assets, org, p, 0, db.next);
            && (r.Some? ==> Hit(org, p, db.assets[r.value]) && forall q | q in db.assets && Hit(org, p, db.assets[q]) :: r.value <= q)
            && (r.None? ==> forall q | q in db.assets :: !Hit(org, p, db.assets[q]))
  {
    OldestIs(db.assets, org, p, 0, db.next);
    hide Hit, Oldest;
  }

  lemma HitIs(db: Db, org: Org, r: Resource)
    ensures forall q, key | q in db.assets :: Hit(org, ByKey(key, r.id), db.assets[q]) <==> HasKey(db, org, q, key, r.id)
    ensures forall q | q in db.assets :: Hit(org, ByName(r.name), db.assets[q]) <==> HasName(db, org, q, r.name)
  {}

  lemma HostIsFound(db: Db, org: Org, r: Resource)
    requires IdsBelow(db)
    ensures var found := FirstHit(db, org, Probes(r));
            (found.Some? ==> HostOf(db, org, r, found.value)) && forall h: Id | HostOf(db, org, r, h) :: found == Some(h)
  {
    var (a, b, c) := (ByKey("cloud_resource_id", r.id), ByKey("external_id", r.id), ByName(r.name));
    HitIs(db, org, r);
    OldestOfAll(db, org, a);
    OldestOfAll(db, org, b);
    OldestOfAll(db, org, c);
    ProbesAre(r);
    FirstOfThree(db, org, a, b, c);
    hide Oldest, Hit, Probes, FirstHit;
    HostOrder(db, org, r);
  }

  lemma HostOrder(db: Db, org: Org, r: Resource)
    ensures forall g, h | HostOf(db, org, r, g) && HostOf(db, org, r, h) :: g == h
  {}

  lemma ProbesAre(r: Resource)
    ensures var (a, b, c) := (ByKey("cloud_resource_id", r.id), ByKey("external_id", r.id), ByName(r.name));
            Probes(r) == if r.id != "" then (if r.name != "" then [a, b, c] else [a, b]) else if r.name != "" then [c] else []
  {}

  lemma FirstOfThree(db: Db, org: Org, a: Probe, b: Probe, c: Probe)
    ensures var (x, y, z) := (Oldest(db.assets, org, a, 0, db.next), Oldest(db.assets, org, b, 0, db.next), Oldest(db.assets, org, c, 0, db.next));
            && FirstHit(db, org, [a, b, c]) == (if x.Some? then x else if y.Some? then y else z)
            && FirstHit(db, org, [a, b]) == (if x.Some? then x else y) && FirstHit(db, org, [c]) == z && FirstHit(db, org, []) == None
  {
    hide Oldest;
    assert [a, b, c][1..] == [b, c] && [b, c][1..] == [c] && [a, b][1..] == [b] && [c][1..] == [] && [b][1..] == [];
    assert FirstHit(db, org, [c]) == Oldest(db.assets, org, c, 0, db.next);
    assert FirstHit(db, org, [b]) == Oldest(db.assets, org, b, 0, db.next);
  }

  lemma AffectedIs(db: Db, org: Org, f: Finding)
    requires IdsBelow(db)
    ensures AffectedBy(db, org, f).Some? ==> f.resource.Some? && HostOf(db, org, f.resource.value, AffectedBy(db, org, f).value)
    ensures HasHost(db, org, f) ==> AffectedBy(db, org, f).Some?
  {
    if f.resource.Some? { HostIsFound(db, org, f.resource.value); }
    hide HostOf, FirstHit, Probes;
  }

  /*************** the plan ***************/

  lemma {:induction false} InFindings(items: seq<Entry<Finding>>, f: Finding)
    ensures f in Findings(items) <==> Object(f) in items
  {
    if items != [] {
      var n := |items| - 1;
      InFindings(items[..n], f);
      assert items == items[..n] + [items[n]];
    }
  }

  lemma {:induction false} PlanEntry(fs: seq<Finding>, f: Finding)
    requires DistinctIds(fs) && f in fs
    ensures RefOf(f) in PlanFor(fs) && PlanFor(fs)[RefOf(f)] == WriteOf(f)
  {
    var n := |fs| - 1;
    PlanSnocOf(fs[..n], fs[n]);
    hide WriteOf, PlanFor;
    assert fs == fs[..n] + [fs[n]];
    if f != fs[n] {
      var i :| 0 <= i < n && fs[i] == f;
      assert fs[..n][i] == f;
      assert RefOf(f)[8..] == f.id && RefOf(fs[n])[8..] == fs[n].id;
      PlanEntry(fs[..n], f);
    }
  }

  lemma {:induction false} InEdgeOps(db: Db, org: Org, fs: seq<Finding>, o: Op)
    ensures o in EdgeOps(db, org, fs) <==> exists f :: f in fs && AffectedBy(db, org, f).Some? && o == PutEdge(Affects(f))
  {
    hide AffectedBy, Affects;
    if fs != [] {
      var (init, last) := (fs[..|fs| - 1], fs[|fs| - 1]);
      InEdgeOps(db, org, init, o);
      assert fs == init + [last];
      assert forall f :: f in fs <==> f in init || f == last;
    }
  }

  lemma PlannedAffects(before: Db, org: Org, fs: seq<Finding>, ref: string) returns (f: Finding)
    requires ref in EdgePlanFor(before, org, fs)
    ensures f in fs && AffectedBy(before, org, f).Some? && EdgePlanFor(before, org, fs)[ref] == Affects(f) && ref == "affects:" + f.id
  {
    var ops := EdgeOps(before, org, fs);
    Links.EdgePlanSources(ops, ref);
    InEdgeOps(before, org, fs, PutEdge(EdgePlan(ops)[ref]));
    hide EdgeOps, AffectedBy;
    f :| f in fs && AffectedBy(before, org, f).Some? && PutEdge(EdgePlan(ops)[ref]) == PutEdge(Affects(f));
  }

  lemma AffectsPlanned(before: Db, org: Org, fs: seq<Finding>, f: Finding)
    requires f in fs && AffectedBy(before, org, f).Some?
    ensures "affects:" + f.id in EdgePlanFor(before, org, fs)
  {
    var ops := EdgeOps(before, org, fs);
    InEdgeOps(before, org, fs, PutEdge(Affects(f)));
    Links.EdgePlanSources(ops, "affects:" + f.id);
    hide EdgeOps, AffectedBy;
  }

  /*************** the proof ***************/

  lemma SyncedRow(org: Org, source: string, r: Retirement, plan: map<string, Write>, before: Db, after: Db, ref: string) returns (i: Id)
    requires AssetsSynced(org, source, r, plan, before, after) && ref in plan
    ensures i in after.assets && AssetKeyed(org, Origin(source, ref), after.assets[i])
    ensures if i in before.assets then after.assets[i] == Projected(before.assets[i], plan[ref]) else after.assets[i] == Created(org, source, plan[ref])
  {
    assert HasAsset(after, org, source, ref);
    i :| i in after.assets && AssetKeyed(org, Origin(source, ref), after.assets[i]);
    hide HasAsset;
    if i in before.assets {
      assert after.assets[i] == Synced(org, source, r, plan, before.assets[i]);
    } else {
      assert IsNew(org, source, plan, before, after.assets[i]);
    }
  }

  lemma FindingIsShown(org: Org, source: string, fs: seq<Finding>, resolve: bool, before: Db, after: Db, ends: map<string, Id>, f: Finding)
    requires DistinctIds(fs) && f in fs && Effect(org, source, fs, resolve, before, after, ends)
    ensures exists i :: FindingRow(org, source, before, after, f, i)
  {
    PlanEntry(fs, f);
    hide PlanFor, EdgePlanFor, EdgesSynced, Ends, Valid;
    var i := SyncedRow(org, source, RetirementFor(resolve), PlanFor(fs), before, after, RefOf(f));
    Meaning.CutFits(f.title);
    hide Cut, Meaning.Fitted, AssetsSynced;
    assert "finding:" <= RefOf(f);
    assert FindingRow(org, source, before, after, f, i);
  }

  lemma SyncedEdge(org: Org, source: string, plan: map<string, EdgeWrite>, ends: map<string, Id>, before: Db, after: Db, e: Id)
    requires Resolved(ends, plan) && EdgesSynced(org, source, plan, ends, None, before, after)
    requires e in after.edges && OwnsEdge(org, source, after.edges[e])
    ensures after.edges[e].origin.value.ref in plan
    ensures var (w, edge) := (plan[after.edges[e].origin.value.ref], after.edges[e]);
            edge.src == ends[w.srcRef] && edge.dst == ends[w.dstRef] && edge.kind == w.kind && edge.description == w.description
  {
    hide HasEdge;
    if e !in before.edges { assert EdgeIsNew(org, source, plan, ends, before, after.edges[e]); }
  }

  lemma EdgeIsShown(org: Org, source: string, fs: seq<Finding>, resolve: bool, before: Db, after: Db, ends: map<string, Id>, e: Id) returns (f: Finding)
    requires IdsBelow(before) && Effect(org, source, fs, resolve, before, after, ends) && e in after.edges && OwnsEdge(org, source, after.edges[e])
    ensures f in fs && AffectsEdge(org, source, before, after, f, e)
  {
    var plan := EdgePlanFor(before, org, fs);
    hide PlanFor, EdgePlanFor, AssetsSynced, Valid, HostOf, AffectedBy, IdsBelow, Classed;
    SyncedEdge(org, source, plan, ends, before, after, e);
    hide EdgesSynced;
    f := PlannedAffects(before, org, fs, after.edges[e].origin.value.ref);
    AffectedIs(before, org, f);
  }

  lemma HostEdge(org: Org, source: string, fs: seq<Finding>, resolve: bool, before: Db, after: Db, ends: map<string, Id>, f: Finding) returns (e: Id)
    requires IdsBelow(before) && DistinctIds(fs) && Effect(org, source, fs, resolve, before, after, ends) && f in fs && HasHost(before, org, f)
    ensures AffectsEdge(org, source, before, after, f, e)
  {
    AffectedIs(before, org, f);
    AffectsPlanned(before, org, fs, f);
    var ref := "affects:" + f.id;
    hide PlanFor, EdgePlanFor, AssetsSynced, Valid, Classed, Ends, AffectsEdge, HasHost, IdsBelow;
    assert HasEdge(after, org, source, ref);
    e :| e in after.edges && EdgeKeyed(org, Origin(source, ref), after.edges[e]);
    var g := EdgeIsShown(org, source, fs, resolve, before, after, ends, e);
    SameFinding(org, source, before, after, fs, f, g, e);
  }

  lemma SameFinding(org: Org, source: string, before: Db, after: Db, fs: seq<Finding>, f: Finding, g: Finding, e: Id)
    requires DistinctIds(fs) && f in fs && g in fs && AffectsEdge(org, source, before, after, g, e)
    requires e in after.edges && EdgeKeyed(org, Origin(source, "affects:" + f.id), after.edges[e])
    ensures f == g
  {
    hide HostOf;
    assert ("affects:" + f.id)[8..] == f.id && ("affects:" + g.id)[8..] == g.id;
    var i :| 0 <= i < |fs| && fs[i] == f;
    var j :| 0 <= j < |fs| && fs[j] == g;
  }

  lemma PlannedIsListed(org: Org, source: string, x: Export, before: Db, i: Id)
    requires i in before.assets && Planned(org, source, PlanFor(Findings(Entries(x))), before.assets[i])
    ensures exists f :: ListedAt(x, org, source, before, i, f)
  {
    PlanIsFindings(Findings(Entries(x)));
    hide PlanFor, Findings, Entries;
    var f :| f in Findings(Entries(x)) && RefOf(f) == before.assets[i].origin.value.ref;
    InFindings(Entries(x), f);
    assert ListedAt(x, org, source, before, i, f);
  }

  lemma RowIsOther(org: Org, source: string, x: Export, resolve: bool, before: Db, i: Id)
    requires i in before.assets && !(exists f :: ListedAt(x, org, source, before, i, f))
    ensures Synced(org, source, RetirementFor(resolve), PlanFor(Findings(Entries(x))), before.assets[i]) ==
            if resolve && OwnsAsset(org, source, before.assets[i]) && before.assets[i].kind == "finding" && before.assets[i].status != "archived"
            then before.assets[i].(status := "archived", metadata := before.assets[i].metadata["finding_status" := "remediated"])
            else before.assets[i]
  {
    var a := before.assets[i];
    hide PlanFor, Findings, Entries, ListedAt, Planned;
    if Planned(org, source, PlanFor(Findings(Entries(x))), a) { PlannedIsListed(org, source, x, before, i); }
    assert a.metadata + NOTE == a.metadata["finding_status" := "remediated"];
  }

  lemma ListsIff(x: Export, f: Finding)
    ensures Lists(x, f) <==> f in Findings(Entries(x))
  {
    InFindings(Entries(x), f);
  }

  lemma EdgesAreShown(org: Org, source: string, x: Export, resolve: bool, before: Db, after: Db, ends: map<string, Id>)
    requires IdsBelow(before) && DistinctIds(Findings(Entries(x))) && Effect(org, source, Findings(Entries(x)), resolve, before, after, ends)
    ensures EdgesShown(x, org, source, before, after)
  {
    var fs := Findings(Entries(x));
    hide Effect, IdsBelow, AffectsEdge, HasHost, Lists, Findings, DistinctIds;
    forall e | e in after.edges && OwnsEdge(org, source, after.edges[e]) ensures exists f :: Lists(x, f) && AffectsEdge(org, source, before, after, f, e) {
      var f := EdgeIsShown(org, source, fs, resolve, before, after, ends, e);
      ListsIff(x, f);
    }
    forall f | Lists(x, f) && HasHost(before, org, f) ensures exists e :: AffectsEdge(org, source, before, after, f, e) {
      ListsIff(x, f);
      var e := HostEdge(org, source, fs, resolve, before, after, ends, f);
    }
  }

  lemma OthersAreShown(org: Org, source: string, x: Export, resolve: bool, before: Db, after: Db, ends: map<string, Id>)
    requires Effect(org, source, Findings(Entries(x)), resolve, before, after, ends)
    ensures OthersShown(x, org, source, resolve, before, after)
  {
    hide PlanFor, EdgePlanFor, EdgesSynced, Ends, Valid, Findings, Classed, ListedAt, Synced, RetirementFor;
    forall i | i in before.assets && !(exists f :: ListedAt(x, org, source, before, i, f))
      ensures i in after.assets && after.assets[i] == Synced(org, source, RetirementFor(resolve), PlanFor(Findings(Entries(x))), before.assets[i])
    {
    }
    forall i | i in before.assets && !(exists f :: ListedAt(x, org, source, before, i, f)) { RowIsOther(org, source, x, resolve, before, i); }
  }

  /** The effect of a run of a usable export shows the export. */
  lemma EffectShows(org: Org, source: string, x: Export, resolve: bool, before: Db, after: Db, ends: map<string, Id>)
    requires Valid(before) && DistinctIds(Findings(Entries(x))) && Effect(org, source, Findings(Entries(x)), resolve, before, after, ends)
    ensures Shows(x, org, source, resolve, before, after)
  {
    EdgesAreShown(org, source, x, resolve, before, after, ends);
    OthersAreShown(org, source, x, resolve, before, after, ends);
    hide Effect, Valid, FindingRow, Lists, Findings, DistinctIds, EdgesShown, OthersShown;
    forall f | Lists(x, f) ensures exists i :: FindingRow(org, source, before, after, f, i) {
      ListsIff(x, f);
      FindingIsShown(org, source, Findings(Entries(x)), resolve, before, after, ends, f);
    }
  }
}
