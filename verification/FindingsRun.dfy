/** The transaction of `sync_findings` against its effect, and what the effect means. */
module FindingsRun {
  import opened Options
  import opened Graph
  import opened CatalogDocument
  import opened CatalogPlan
  import opened CatalogRun
  import opened ExternalSync
  import opened FindingsSync
  import Meaning = FindingsMeaning

  ghost function CountNew(org: Org, source: string, before: Db, fs: seq<Finding>): nat {
    if fs == [] then 0
    else CountNew(org, source, before, fs[..|fs| - 1]) + if HasAsset(before, org, source, RefOf(fs[|fs| - 1])) then 0 else 1
  }

  function Unresolved(before: Db, org: Org, fs: seq<Finding>): seq<string> {
    if fs == [] then []
    else
      var f := fs[|fs| - 1];
      Unresolved(before, org, fs[..|fs| - 1]) + if f.resource.Some? && AffectedBy(before, org, f).None? then [f.id] else []
  }

  function Refs(fs: seq<Finding>): seq<string> { seq(|fs|, i requires 0 <= i < |fs| => RefOf(fs[i])) }

  /** What a run reports, in terms of the database before it. */
  ghost predicate Reports(org: Org, source: string, fs: seq<Finding>, resolve: bool, before: Db, r: SyncResult) {
    var missing := MissingIds(org, source, KINDS, PlanFor(fs), before);
    && r.created == CountNew(org, source, before, fs) && r.created + r.updated == |fs|
    && r.affects == |EdgeOps(before, org, fs)| && r.unresolved == Unresolved(before, org, fs)
    && r.edgesPruned == |SweptIds(org, source, EdgePlanFor(before, org, fs), None, before)|
    && r.stale == RefsAt(before, missing)
    && r.resolved == if resolve then |Unarchived(before, missing)| else 0
  }

  class Session {
    const org: Org
    const source: string
    var db: Db
    var seenFindingRefs: seq<string>
    var seenEdgeRefs: seq<string>
    ghost var ends: map<string, Id>

    // `upsert_external_asset`
    method UpsertAsset(w: Write) returns (inserted: bool, id: Id)
      requires Valid(db)
      modifies `db
      ensures db == Put(org, source, old(db), w)
      ensures id == AssetSlot(old(db), org, Origin(source, w.ref)) && inserted == (id !in old(db).assets)
    {
      hide AssetSlot, Valid, Projected, Created;
      var found;
      found, id := FindAsset(db, org, Origin(source, w.ref));
      inserted := !found;
      db := db.(assets := db.assets[id := if found then Projected(db.assets[id], w) else Created(org, source, w)],
                next := if found then db.next else db.next + 1);
    }

    // `upsert_external_edge`
    method UpsertEdge(w: EdgeWrite, src: Id, dst: Id, ghost more: map<string, Id>)
      requires Valid(db) && w.srcRef in more && w.dstRef in more && more[w.srcRef] == src && more[w.dstRef] == dst
      modifies `db, `seenEdgeRefs
      ensures var r := StepEdge(org, source, Run(old(db), more, [], old(seenEdgeRefs), NO_TALLY), w);
              db == r.db && seenEdgeRefs == r.seenEdges
    {
      hide EdgeSlot, Valid, Redrawn, NewEdge, CountEdge;
      var found, id := FindEdge(db, org, Origin(source, w.ref));
      db := db.(edges := db.edges[id := if found then Redrawn(db.edges[id], w, src, dst) else NewEdge(org, source, w, src, dst)],
                next := if found then db.next else db.next + 1);
      seenEdgeRefs := seenEdgeRefs + [w.ref];
    }

    // One round of the loop.
    method SyncFinding(f: Finding, ghost before: Db, ghost fs: seq<Finding>, ghost ids: map<string, Id>)
        returns (inserted: bool, system: Option<Id>, ghost ids': map<string, Id>)
      requires Valid(before) && Classed(org, source, before) && DistinctIds(fs + [f])
      requires Progress(org, source, before, fs, db, ids, ends, seenEdgeRefs)
      modifies this
      ensures Progress(org, source, before, fs + [f], db, ids', ends, seenEdgeRefs)
      ensures inserted <==> !HasAsset(before, org, source, RefOf(f))
      ensures system == AffectedBy(before, org, f)
      ensures seenFindingRefs == old(seenFindingRefs) + [RefOf(f)]
    {
      ghost var was := db;
      hide *;
      ProgressParts(org, source, before, fs, db, ids, ends, seenEdgeRefs);
      UpsertStep(org, source, before, fs, db, ids, ends, seenEdgeRefs, f);
      WriteRef(f);
      var id;
      inserted, id := UpsertAsset(WriteOf(f));
      seenFindingRefs := seenFindingRefs + [RefOf(f)];
      ids' := ids[RefOf(f) := id];
      MidwayParts(org, source, before, fs, f, db, id, ids', ends, seenEdgeRefs);
      LookupNow(org, source, before, fs + [f], f, db, ids');
      system := AffectedBy(db, org, f);
      if system.None? {
        SkipStep(org, source, before, fs, f, db, id, ids', ends, seenEdgeRefs);
      } else {
        DrawStep(org, source, before, fs, f, db, id, ids', ends, seenEdgeRefs);
        DrawnIs(org, source, before, f, db, id, ends, seenEdgeRefs);
        ghost var more := MoreEnds(ends, f, system.value, id);
        UpsertEdge(Affects(f), system.value, id, more);
        ends := more;
      }
    }

    // The loop.
    method SyncAll(items: seq<Entry<Finding>>, ghost before: Db)
        returns (created: nat, updated: nat, affects: nat, unresolved: seq<string>, ghost ids: map<string, Id>)
      requires (forall i | 0 <= i < |items| :: items[i].Object?) && DistinctIds(Findings(items))
      requires Valid(before) && Classed(org, source, before) && db == before && ends == map[] && seenEdgeRefs == [] && seenFindingRefs == []
      modifies this
      ensures Progress(org, source, before, Findings(items), db, ids, ends, seenEdgeRefs)
      ensures created == CountNew(org, source, before, Findings(items)) && created + updated == |items|
      ensures affects == |EdgeOps(before, org, Findings(items))| && unresolved == Unresolved(before, org, Findings(items))
      ensures seenFindingRefs == Refs(Findings(items))
    {
      hide *;
      created, updated, affects, unresolved, ids := 0, 0, 0, [], map[];
      FirstRound(org, source, before, items);
      NoProgress(org, source, before);
      for k := 0 to |items|
        invariant Progress(org, source, before, Findings(items[..k]), db, ids, ends, seenEdgeRefs)
        invariant created == CountNew(org, source, before, Findings(items[..k])) && created + updated == k
        invariant affects == |EdgeOps(before, org, Findings(items[..k]))| && unresolved == Unresolved(before, org, Findings(items[..k]))
        invariant seenFindingRefs == Refs(Findings(items[..k]))
      {
        var f := items[k].value;
        NextRound(org, source, before, items, k);
        var inserted, system;
        inserted, system, ids := SyncFinding(f, before, Findings(items[..k]), ids);
        if inserted { created := created + 1; } else { updated := updated + 1; }
        if f.resource.Some? {
          if system.Some? { affects := affects + 1; } else { unresolved := unresolved + [f.id]; }
        }
      }
      assert items[..|items|] == items;
    }

    // `prune_stale_edges` over everything the source owns.
    method PruneStaleEdges(ghost plan: map<string, EdgeWrite>) returns (count: nat)
      requires forall ref :: ref in seenEdgeRefs <==> ref in plan
      modifies `db
      ensures db == Sweep(org, source, plan, None, old(db))
      ensures count == |SweptIds(org, source, plan, None, old(db))|
    {
      var stale := set e | e in db.edges && OwnsEdge(org, source, db.edges[e]) && db.edges[e].origin.value.ref !in seenEdgeRefs;
      assert stale == SweptIds(org, source, plan, None, db);
      count := |stale|;
      db := db.(edges := map e | e in db.edges && e !in stale :: db.edges[e]);
      assert db.edges == Sweep(org, source, plan, None, old(db)).edges;
    }

    // The missing findings, and their resolution: only rows not archived yet are written and counted.
    method ResolveMissing(resolve: bool, ghost plan: map<string, Write>) returns (count: nat, refs: set<string>)
      requires forall ref :: ref in seenFindingRefs <==> ref in plan
      modifies `db
      ensures db == RetireMissing(org, source, RetirementFor(resolve), plan, old(db))
      ensures count == (if resolve then |Unarchived(old(db), MissingIds(org, source, KINDS, plan, old(db)))| else 0)
      ensures refs == RefsAt(old(db), MissingIds(org, source, KINDS, plan, old(db)))
    {
      var stale := set i | i in db.assets && OwnsAsset(org, source, db.assets[i]) && db.assets[i].kind == FINDING
                           && db.assets[i].origin.value.ref !in seenFindingRefs;
      assert stale == MissingIds(org, source, KINDS, plan, db);
      refs := RefsAt(db, stale);
      count := 0;
      if resolve {
        var open := Unarchived(db, stale);
        count := |open|;
        db := db.(assets := map i | i in db.assets ::
          if i in open then db.assets[i].(status := ARCHIVED, metadata := db.assets[i].metadata + NOTE) else db.assets[i]);
      }
      assert db.assets == RetireMissing(org, source, RetirementFor(resolve), plan, old(db)).assets;
    }

    /** `sync_findings`.  A malformed export changes nothing, and neither does an empty one that would resolve
        every finding, unless that is asked for.  Otherwise `work` is the database at the end of the
        transaction, which a dry run rolls back. */
    method SyncFindings(x: Export, dryRun: bool, resolveMissing: bool, allowEmpty: bool)
        returns (r: SyncResult, ghost work: Db)
      requires Valid(db) && Classed(org, source, db)
      modifies this
      ensures r.errors == [] <==> Usable(x) && (Entries(x) != [] || !resolveMissing || allowEmpty)
      ensures r.errors == [EmptyExport] <==> Usable(x) && Entries(x) == [] && resolveMissing && !allowEmpty
      ensures r.errors != [] ==> db == old(db)
      ensures r.errors == [] ==> Effect(org, source, Findings(Entries(x)), resolveMissing, old(db), work, ends)
      ensures r.errors == [] ==> Reports(org, source, Findings(Entries(x)), resolveMissing, old(db), r)
      ensures r.errors == [] ==> Meaning.Shows(x, org, source, resolveMissing, old(db), work)
      ensures r.errors == [] ==> Promised(org, source, Findings(Entries(x)), resolveMissing, old(db), work)
      ensures r.errors == [] ==> db == (if dryRun then old(db) else work) && r.dryRun == dryRun
    {
      hide *;
      work := db;
      r := SyncResult([], 0, 0, 0, 0, 0, {}, [], dryRun);
      var errors := ValidateExport(x);
      if errors != [] {
        r := r.(errors := errors);
        return;
      }
      if Entries(x) == [] && resolveMissing && !allowEmpty {
        r := r.(errors := [EmptyExport]);
        return;
      }
      var before := db;
      var items := Entries(x);
      ghost var fs := Findings(items);
      UsableFindings(x);
      seenFindingRefs, seenEdgeRefs, ends := [], [], map[];
      ghost var ids;
      var created, updated, affects, unresolved;
      created, updated, affects, unresolved, ids := SyncAll(items, before);
      ghost var plan, edgePlan, drawn := PlanFor(fs), EdgePlanFor(before, org, fs), db;
      ProgressParts(org, source, before, fs, db, ids, ends, seenEdgeRefs);
      RefsPlanned(fs);
      var pruned := PruneStaleEdges(edgePlan);
      ghost var swept := db;
      Phased(org, source, fs, before, drawn, swept, ids, ends);
      var resolved, stale := ResolveMissing(resolveMissing, plan);
      work := db;
      r := SyncResult([], created, updated, resolved, affects, pruned, stale, unresolved, dryRun);
      Assembled(org, source, fs, resolveMissing, before, drawn, swept, work, ids, ends);
      Counted(org, source, fs, before, drawn, swept, ids, ends);
      Reported(org, source, fs, resolveMissing, before, r);
      PromisesKept(org, source, fs, resolveMissing, before, work, ends);
      Meaning.EffectShows(org, source, x, resolveMissing, before, work, ends);
      if dryRun { db := before; }
    }
  }

  lemma WriteRef(f: Finding)
    ensures WriteOf(f).ref == RefOf(f)
  {
  }

  lemma DrawnIs(org: Org, source: string, before: Db, f: Finding, db: Db, id: Id, ends: map<string, Id>, seenEdges: seq<string>)
    requires AffectedBy(before, org, f).Some?
    ensures var more := MoreEnds(ends, f, AffectedBy(before, org, f).value, id);
            && Affects(f).srcRef in more && Affects(f).dstRef in more
            && more[Affects(f).srcRef] == AffectedBy(before, org, f).value && more[Affects(f).dstRef] == id
            && DrawnFinding(org, source, before, f, db, id, ends, seenEdges) == StepEdge(org, source, Run(db, more, [], seenEdges, NO_TALLY), Affects(f))
            && DrawnFinding(org, source, before, f, db, id, ends, seenEdges).ids == more
  {
    AffectsEnds(f);
    assert SystemKey(f)[0] == 'r' && RefOf(f)[0] == 'f';
    hide AffectedBy, SystemKey, RefOf, Affects, StepEdge;
    StepEdgeRest(org, source, Run(db, MoreEnds(ends, f, AffectedBy(before, org, f).value, id), [], seenEdges, NO_TALLY), Affects(f));
  }

  lemma FirstRound(org: Org, source: string, before: Db, items: seq<Entry<Finding>>)
    ensures var fs := Findings(items[..0]);
            fs == [] && CountNew(org, source, before, fs) == 0 && EdgeOps(before, org, fs) == [] && Unresolved(before, org, fs) == [] && Refs(fs) == []
  {
  }

  lemma {:induction false} FindingsAre(items: seq<Entry<Finding>>)
    requires forall i | 0 <= i < |items| :: items[i].Object?
    ensures |Findings(items)| == |items| && forall i | 0 <= i < |items| :: Findings(items)[i] == items[i].value
  {
    if items != [] { FindingsAre(items[..|items| - 1]); }
  }

  lemma NextRound(org: Org, source: string, before: Db, items: seq<Entry<Finding>>, k: nat)
    requires k < |items| && (forall i | 0 <= i < |items| :: items[i].Object?) && DistinctIds(Findings(items))
    ensures var (fs, f, more) := (Findings(items[..k]), items[k].value, Findings(items[..k + 1]));
            && fs + [f] == more && DistinctIds(fs + [f])
            && CountNew(org, source, before, more) == CountNew(org, source, before, fs) + (if HasAsset(before, org, source, RefOf(f)) then 0 else 1)
            && |EdgeOps(before, org, more)| == |EdgeOps(before, org, fs)| + (if AffectedBy(before, org, f).Some? then 1 else 0)
            && Unresolved(before, org, more) ==
                 (if f.resource.Some? && AffectedBy(before, org, f).None? then Unresolved(before, org, fs) + [f.id] else Unresolved(before, org, fs))
            && Refs(more) == Refs(fs) + [RefOf(f)]
            && (AffectedBy(before, org, f).Some? ==> f.resource.Some?)
  {
    FindingsAre(items);
    FindingsAre(items[..k + 1]);
    assert items[..k + 1][..k] == items[..k];
    hide HasAsset, RefOf, FirstHit, Probes;
    var (fs, f, more) := (Findings(items[..k]), items[k].value, Findings(items[..k + 1]));
    assert more == fs + [f] && more[..|more| - 1] == fs;
    assert forall i | 0 <= i < |more| :: more[i] == Findings(items)[i];
    EdgeOpsSnoc(before, org, fs, f);
  }

  lemma UsableFindings(x: Export)
    requires Usable(x)
    ensures (forall i | 0 <= i < |Entries(x)| :: Entries(x)[i].Object?) && DistinctIds(Findings(Entries(x)))
    ensures |Findings(Entries(x))| == |Entries(x)|
  {
    FindingsAre(Entries(x));
    hide Findings, Entries;
  }

  lemma RefsPlanned(fs: seq<Finding>)
    ensures forall ref :: ref in Refs(fs) <==> ref in PlanFor(fs)
  {
    PlanIsFindings(fs);
    hide PlanFor, RefOf;
    forall ref ensures ref in Refs(fs) <==> exists f :: f in fs && RefOf(f) == ref {
      if ref in Refs(fs) {
        var i :| 0 <= i < |fs| && Refs(fs)[i] == ref;
        assert fs[i] in fs;
      }
      if f :| f in fs && RefOf(f) == ref {
        var i :| 0 <= i < |fs| && fs[i] == f;
        assert Refs(fs)[i] == ref;
      }
    }
  }

  /*************** from the statements to the effect ***************/

  ghost predicate Phases(org: Org, source: string, fs: seq<Finding>, before: Db, drawn: Db, swept: Db, ids: map<string, Id>, ends: map<string, Id>) {
    && Valid(before) && Classed(org, source, before) && Valid(drawn)
    && Projects(org, source, PlanFor(fs), before, AssetView(drawn, before), ids)
    && Ends(org, source, before, fs, drawn, ends)
    && Resolved(ends, EdgePlanFor(before, org, fs)) && EdgesAfter(org, source, EdgePlanFor(before, org, fs), ends, before, drawn)
    && swept == Sweep(org, source, EdgePlanFor(before, org, fs), None, drawn)
  }

  lemma Phased(org: Org, source: string, fs: seq<Finding>, before: Db, drawn: Db, swept: Db, ids: map<string, Id>, ends: map<string, Id>)
    requires Valid(before) && Classed(org, source, before) && Valid(drawn)
    requires Projects(org, source, PlanFor(fs), before, AssetView(drawn, before), ids)
    requires Ends(org, source, before, fs, drawn, ends)
    requires Resolved(ends, EdgePlanFor(before, org, fs)) && EdgesAfter(org, source, EdgePlanFor(before, org, fs), ends, before, drawn)
    requires swept == Sweep(org, source, EdgePlanFor(before, org, fs), None, drawn)
    ensures Phases(org, source, fs, before, drawn, swept, ids, ends)
  {
  }

  lemma ProjectionIsClassed(org: Org, source: string, plan: map<string, Write>, before: Db, db: Db, ids: map<string, Id>)
    requires Classed(org, source, before) && FindingPlan(plan) && Projects(org, source, plan, before, db, ids)
    ensures Classed(org, source, db)
  {
    hide Valid, Names, HasAsset;
    forall i | i in db.assets && OwnsAsset(org, source, db.assets[i])
      ensures "finding:" <= db.assets[i].origin.value.ref ==> db.assets[i].kind == FINDING
    {
      if i !in before.assets { assert IsNew(org, source, plan, before, db.assets[i]); }
    }
  }

  lemma RetireKeepsClassed(org: Org, source: string, r: Retirement, plan: map<string, Write>, db: Db)
    requires Classed(org, source, db)
    ensures Classed(org, source, RetireMissing(org, source, r, plan, db))
  {
    var after := RetireMissing(org, source, r, plan, db);
    forall i | i in after.assets && OwnsAsset(org, source, after.assets[i])
      ensures "finding:" <= after.assets[i].origin.value.ref ==> after.assets[i].kind == FINDING
    {
      assert OwnsAsset(org, source, db.assets[i]);
    }
  }

  lemma RetireKeepsKeys(org: Org, source: string, r: Retirement, plan: map<string, Write>, db: Db)
    ensures forall i, o | i in db.assets && AssetKeyed(org, o, db.assets[i]) ::
      i in RetireMissing(org, source, r, plan, db).assets && AssetKeyed(org, o, RetireMissing(org, source, r, plan, db).assets[i])
  {
  }

  lemma SameAssets(org: Org, source: string, r: Retirement, plan: map<string, Write>, before: Db, view: Db, db: Db)
    requires AssetsSynced(org, source, r, plan, before, RetireMissing(org, source, r, plan, view)) && view.assets == db.assets
    ensures AssetsSynced(org, source, r, plan, before, RetireMissing(org, source, r, plan, db))
  {
    var (a, b) := (RetireMissing(org, source, r, plan, view), RetireMissing(org, source, r, plan, db));
    assert a.assets == b.assets;
    hide Synced, IsNew, RetireMissing;
    forall ref | ref in plan ensures HasAsset(b, org, source, ref) { assert HasAsset(a, org, source, ref); }
  }

  lemma SweptEdgesStay(org: Org, source: string, r: Retirement, plan: map<string, Write>, edgePlan: map<string, EdgeWrite>,
                       ends: map<string, Id>, before: Db, swept: Db)
    requires Resolved(ends, edgePlan) && EdgesSynced(org, source, edgePlan, ends, None, before, swept)
    ensures EdgesSynced(org, source, edgePlan, ends, None, before, RetireMissing(org, source, r, plan, swept))
  {
    var work := RetireMissing(org, source, r, plan, swept);
    RetireFields(org, source, r, plan, swept);
    hide EdgeBecomes, EdgeIsNew, RetireMissing;
    forall ref | ref in edgePlan ensures HasEdge(work, org, source, ref) { SameEdges(org, source, swept, work, ref); }
  }

  lemma Assembled(org: Org, source: string, fs: seq<Finding>, resolve: bool, before: Db, drawn: Db, swept: Db, work: Db,
                  ids: map<string, Id>, ends: map<string, Id>)
    requires Phases(org, source, fs, before, drawn, swept, ids, ends)
    requires work == RetireMissing(org, source, RetirementFor(resolve), PlanFor(fs), swept)
    ensures Effect(org, source, fs, resolve, before, work, ends)
  {
    var (plan, edgePlan, r) := (PlanFor(fs), EdgePlanFor(before, org, fs), RetirementFor(resolve));
    var view := AssetView(drawn, before);
    PlanIsFindings(fs);
    SweepFields(org, source, edgePlan, drawn);
    RetireFields(org, source, r, plan, swept);
    NextOf(org, source, plan, before, view, ids);
    hide PlanFor, EdgePlanFor, RetirementFor, Valid, Projects, Ends, EdgesAfter, EdgesSynced, Classed, Sweep, AssetsSynced, RetireMissing, FindingPlan, Resolved;
    ProjectionIsClassed(org, source, plan, before, view, ids);
    ClassedSame(org, source, view, swept);
    RetireKeepsClassed(org, source, r, plan, swept);
    SweepKeepsValid(org, source, edgePlan, None, drawn);
    RetireKeepsValid(org, source, r, plan, swept);
    RetiredProjection(org, source, r, plan, before, view, ids);
    SameAssets(org, source, r, plan, before, view, swept);
    RetireKeepsKeys(org, source, r, plan, swept);
    EndsKept(org, source, before, fs, drawn, work, ends);
    SweptEdges(org, source, edgePlan, ends, None, before, drawn);
    SweptEdgesStay(org, source, r, plan, edgePlan, ends, before, swept);
  }

  lemma SweepFields(org: Org, source: string, plan: map<string, EdgeWrite>, db: Db)
    ensures Sweep(org, source, plan, None, db).assets == db.assets && Sweep(org, source, plan, None, db).next == db.next
  {
  }

  lemma RetireFields(org: Org, source: string, r: Retirement, plan: map<string, Write>, db: Db)
    ensures RetireMissing(org, source, r, plan, db).next == db.next && RetireMissing(org, source, r, plan, db).edges == db.edges
  {
  }

  lemma NextOf(org: Org, source: string, plan: map<string, Write>, before: Db, db: Db, ids: map<string, Id>)
    requires Projects(org, source, plan, before, db, ids)
    ensures before.next <= db.next
  {
  }

  lemma ClassedSame(org: Org, source: string, a: Db, b: Db)
    requires Classed(org, source, a) && a.assets == b.assets
    ensures Classed(org, source, b)
  {
  }

  /*************** from the counts to the report ***************/

  lemma Counted(org: Org, source: string, fs: seq<Finding>, before: Db, drawn: Db, swept: Db, ids: map<string, Id>, ends: map<string, Id>)
    requires Phases(org, source, fs, before, drawn, swept, ids, ends)
    ensures var missing := MissingIds(org, source, KINDS, PlanFor(fs), before);
            && MissingIds(org, source, KINDS, PlanFor(fs), swept) == missing
            && Unarchived(swept, missing) == Unarchived(before, missing) && RefsAt(swept, missing) == RefsAt(before, missing)
    ensures SweptIds(org, source, EdgePlanFor(before, org, fs), None, drawn) == SweptIds(org, source, EdgePlanFor(before, org, fs), None, before)
  {
    SweepFields(org, source, EdgePlanFor(before, org, fs), drawn);
    hide Valid, Ends, Classed, PlanFor, EdgePlanFor, Sweep, Resolved;
    MissingStays(org, source, PlanFor(fs), before, AssetView(drawn, before), ids);
    hide Projects;
    var missing := MissingIds(org, source, KINDS, PlanFor(fs), before);
    assert forall i | i in missing :: i in swept.assets && swept.assets[i] == before.assets[i];
    assert MissingIds(org, source, KINDS, PlanFor(fs), swept) == MissingIds(org, source, KINDS, PlanFor(fs), AssetView(drawn, before));
    SweptBefore(org, source, EdgePlanFor(before, org, fs), ends, None, before, drawn);
  }

  lemma MissingStays(org: Org, source: string, plan: map<string, Write>, before: Db, db: Db, ids: map<string, Id>)
    requires Projects(org, source, plan, before, db, ids)
    ensures MissingIds(org, source, KINDS, plan, db) == MissingIds(org, source, KINDS, plan, before)
    ensures forall i | i in MissingIds(org, source, KINDS, plan, before) :: i in db.assets && db.assets[i] == before.assets[i]
  {
    hide Valid, HasAsset, Names;
    forall i ensures i in MissingIds(org, source, KINDS, plan, db) <==> i in MissingIds(org, source, KINDS, plan, before) {
      if i in db.assets && i !in before.assets { assert IsNew(org, source, plan, before, db.assets[i]); }
    }
  }

  lemma Reported(org: Org, source: string, fs: seq<Finding>, resolve: bool, before: Db, r: SyncResult)
    requires var missing := MissingIds(org, source, KINDS, PlanFor(fs), before);
             && r.created == CountNew(org, source, before, fs) && r.created + r.updated == |fs|
             && r.affects == |EdgeOps(before, org, fs)| && r.unresolved == Unresolved(before, org, fs)
             && r.edgesPruned == |SweptIds(org, source, EdgePlanFor(before, org, fs), None, before)|
             && r.stale == RefsAt(before, missing)
             && r.resolved == if resolve then |Unarchived(before, missing)| else 0
    ensures Reports(org, source, fs, resolve, before, r)
  {
    hide PlanFor, EdgePlanFor, EdgeOps, Unresolved, CountNew, MissingIds, SweptIds, RefsAt, Unarchived;
  }

  /*************** what a run means ***************/

  /** With `resolveMissing` every finding of the source that the export no longer lists ends up archived: one
      that was open is marked remediated, one archived earlier is not written again. */
  lemma ResolvesTheMissing(org: Org, source: string, fs: seq<Finding>, before: Db, after: Db, ends: map<string, Id>, i: Id)
    requires Effect(org, source, fs, true, before, after, ends) && i in MissingIds(org, source, KINDS, PlanFor(fs), before)
    ensures i in after.assets && after.assets[i].status == ARCHIVED
    ensures if before.assets[i].status == ARCHIVED then after.assets[i] == before.assets[i]
            else "finding_status" in after.assets[i].metadata && after.assets[i].metadata["finding_status"] == "remediated"
  {
    hide PlanFor, Classed, Valid, EdgesSynced, Ends, EdgePlanFor;
  }

  /** Without it nothing is archived: every row the export does not list stays exactly as it was. */
  lemma UnlistedStayWithoutResolving(org: Org, source: string, fs: seq<Finding>, before: Db, after: Db, ends: map<string, Id>, i: Id)
    requires Effect(org, source, fs, false, before, after, ends) && i in before.assets
    requires !Planned(org, source, PlanFor(fs), before.assets[i])
    ensures i in after.assets && after.assets[i] == before.assets[i]
  {
    hide PlanFor, Classed, Valid, EdgesSynced, Ends, EdgePlanFor;
  }

  /** What a run promises of every row that was there.  Resolving, one that the export no longer lists ends up
      archived, marked remediated if it was open.  Not resolving, one that it does not list stays as it was.  And
      the systems and devices that findings are looked up on are the same rows before and after. */
  ghost predicate Promised(org: Org, source: string, fs: seq<Finding>, resolve: bool, before: Db, after: Db) {
    && (forall i | i in before.assets :: i in after.assets &&
          (resolve && Missing(org, source, KINDS, PlanFor(fs), before.assets[i]) ==> ResolvedRow(before.assets[i], after.assets[i])) &&
          (!resolve && !Planned(org, source, PlanFor(fs), before.assets[i]) ==> after.assets[i] == before.assets[i]))
    && SameHosts(before, after)
  }

  predicate ResolvedRow(before: Asset, after: Asset) {
    after.status == ARCHIVED &&
    if before.status == ARCHIVED then after == before
    else "finding_status" in after.metadata && after.metadata["finding_status"] == "remediated"
  }

  lemma PromisesKept(org: Org, source: string, fs: seq<Finding>, resolve: bool, before: Db, after: Db, ends: map<string, Id>)
    requires Valid(before) && Classed(org, source, before) && Effect(org, source, fs, resolve, before, after, ends)
    ensures Promised(org, source, fs, resolve, before, after)
  {
    HostsAreUntouched(org, source, fs, resolve, before, after, ends);
    forall i | i in before.assets
      ensures i in after.assets
      ensures resolve && Missing(org, source, KINDS, PlanFor(fs), before.assets[i]) ==> ResolvedRow(before.assets[i], after.assets[i])
      ensures !resolve && !Planned(org, source, PlanFor(fs), before.assets[i]) ==> after.assets[i] == before.assets[i]
    {
      RowPromise(org, source, fs, resolve, before, after, ends, i);
    }
    hide Missing, Planned, ResolvedRow, SameHosts, PlanFor, Effect;
  }

  lemma RowPromise(org: Org, source: string, fs: seq<Finding>, resolve: bool, before: Db, after: Db, ends: map<string, Id>, i: Id)
    requires Effect(org, source, fs, resolve, before, after, ends) && i in before.assets
    ensures i in after.assets
    ensures resolve && Missing(org, source, KINDS, PlanFor(fs), before.assets[i]) ==> ResolvedRow(before.assets[i], after.assets[i])
    ensures !resolve && !Planned(org, source, PlanFor(fs), before.assets[i]) ==> after.assets[i] == before.assets[i]
  {
    if resolve {
      if Missing(org, source, KINDS, PlanFor(fs), before.assets[i]) { ResolvesTheMissing(org, source, fs, before, after, ends, i); }
    } else if !Planned(org, source, PlanFor(fs), before.assets[i]) {
      UnlistedStayWithoutResolving(org, source, fs, before, after, ends, i);
    }
    hide PlanFor, Classed, Valid, EdgesSynced, Ends, EdgePlanFor;
  }

  lemma EffectParts(org: Org, source: string, fs: seq<Finding>, resolve: bool, before: Db, after: Db, ends: map<string, Id>)
    requires Effect(org, source, fs, resolve, before, after, ends)
    ensures UniqueAssets(after.assets) && before.next <= after.next
    ensures AssetsSynced(org, source, RetirementFor(resolve), PlanFor(fs), before, after)
    ensures Ends(org, source, before, fs, after, ends) && Resolved(ends, EdgePlanFor(before, org, fs))
    ensures EdgesSynced(org, source, EdgePlanFor(before, org, fs), ends, None, before, after)
  {
    hide UniqueAssets, UniqueEdges, NoDangling, IdsBelow, AssetsSynced, EdgesSynced, Ends, Classed, PlanFor, EdgePlanFor, Resolved;
  }

  /** The systems and devices a run looks findings up on are the same rows before and after. */
  lemma HostsAreUntouched(org: Org, source: string, fs: seq<Finding>, resolve: bool, before: Db, after: Db, ends: map<string, Id>)
    requires Valid(before) && Classed(org, source, before) && Effect(org, source, fs, resolve, before, after, ends)
    ensures SameHosts(before, after)
  {
    EffectParts(org, source, fs, resolve, before, after, ends);
    PlanIsFindings(fs);
    assert RetirementFor(resolve).kinds <= KINDS;
    hide UniqueAssets, UniqueEdges, NoDangling, IdsBelow, EdgesSynced, Ends, Classed, PlanFor, EdgePlanFor, Synced, IsNew, FindingPlan, RetirementFor, SameHosts;
    HostsStay(org, source, RetirementFor(resolve), PlanFor(fs), before, after);
  }

  lemma {:induction false} SameEdgeOps(before: Db, after: Db, org: Org, fs: seq<Finding>)
    requires SameHosts(before, after)
    ensures EdgeOps(after, org, fs) == EdgeOps(before, org, fs)
  {
    hide SameHosts, AffectedBy, Affects;
    if fs != [] {
      SameEdgeOps(before, after, org, fs[..|fs| - 1]);
      AffectedSame(before, after, org, fs[|fs| - 1]);
    }
  }

  // The ends of the planned edges are settled by the rows.
  ghost predicate SameEnds(fs: seq<Finding>, before: Db, org: Org, one: map<string, Id>, two: map<string, Id>) {
    forall f | f in fs && AffectedBy(before, org, f).Some? ::
      SystemKey(f) in one && SystemKey(f) in two && RefOf(f) in one && RefOf(f) in two
      && one[SystemKey(f)] == two[SystemKey(f)] && one[RefOf(f)] == two[RefOf(f)]
  }

  lemma EndsAgree(org: Org, source: string, before: Db, mid: Db, fs: seq<Finding>, a: Db, b: Db, one: map<string, Id>, two: map<string, Id>)
    requires UniqueAssets(a.assets) && a.assets == b.assets && SameHosts(before, mid)
    requires Ends(org, source, before, fs, a, one) && Ends(org, source, mid, fs, b, two)
    ensures SameEnds(fs, before, org, one, two)
  {
    hide SameHosts, AffectedBy, RefOf, SystemKey;
    forall f | f in fs && AffectedBy(before, org, f).Some?
      ensures SystemKey(f) in one && SystemKey(f) in two && RefOf(f) in one && RefOf(f) in two
      ensures one[SystemKey(f)] == two[SystemKey(f)] && one[RefOf(f)] == two[RefOf(f)]
    {
      AffectedSame(before, mid, org, f);
      assert AssetKeyed(org, Origin(source, RefOf(f)), a.assets[one[RefOf(f)]]) && AssetKeyed(org, Origin(source, RefOf(f)), a.assets[two[RefOf(f)]]);
    }
  }

  lemma {:induction false} PlannedEnds(before: Db, org: Org, fs: seq<Finding>, ref: string)
    requires ref in EdgePlanFor(before, org, fs)
    ensures exists f :: f in fs && AffectedBy(before, org, f).Some? && EdgePlanFor(before, org, fs)[ref] == Affects(f)
  {
    hide AffectedBy, Affects;
    var n := |fs| - 1;
    assert fs == fs[..n] + [fs[n]];
    EdgeOpsSnoc(before, org, fs[..n], fs[n]);
    if AffectedBy(before, org, fs[n]).Some? && Affects(fs[n]).ref == ref {
      assert fs[n] in fs;
    } else {
      PlannedEnds(before, org, fs[..n], ref);
      var f :| f in fs[..n] && AffectedBy(before, org, f).Some? && EdgePlanFor(before, org, fs[..n])[ref] == Affects(f);
      assert f in fs;
    }
  }

  lemma EdgesSyncedWith(org: Org, source: string, fs: seq<Finding>, before: Db, one: map<string, Id>, two: map<string, Id>, a: Db, b: Db)
    requires SameEnds(fs, before, org, one, two)
    requires Resolved(one, EdgePlanFor(before, org, fs)) && Resolved(two, EdgePlanFor(before, org, fs))
    requires EdgesSynced(org, source, EdgePlanFor(before, org, fs), two, None, a, b)
    ensures EdgesSynced(org, source, EdgePlanFor(before, org, fs), one, None, a, b)
  {
    var plan := EdgePlanFor(before, org, fs);
    forall ref | ref in plan ensures one[plan[ref].srcRef] == two[plan[ref].srcRef] && one[plan[ref].dstRef] == two[plan[ref].dstRef] {
      PlannedEnds(before, org, fs, ref);
      var f :| f in fs && AffectedBy(before, org, f).Some? && plan[ref] == Affects(f);
      AffectsEnds(f);
    }
    hide SameEnds, EdgePlanFor, HasEdge, Affects, AffectedBy, Resolved;
    forall i | i in a.edges ensures EdgeBecomes(org, source, plan, one, a.edges[i]) == EdgeBecomes(org, source, plan, two, a.edges[i]) {
    }
    forall i | i in b.edges && i !in a.edges ensures EdgeIsNew(org, source, plan, one, a, b.edges[i]) {
      assert EdgeIsNew(org, source, plan, two, a, b.edges[i]);
    }
  }

  /** The same export again changes nothing. */
  lemma SecondExportIsIdle(org: Org, source: string, fs: seq<Finding>, resolve: bool, before: Db, mid: Db, after: Db,
                           one: map<string, Id>, two: map<string, Id>)
    requires Valid(before) && Classed(org, source, before)
    requires Effect(org, source, fs, resolve, before, mid, one) && Effect(org, source, fs, resolve, mid, after, two)
    ensures after.assets == mid.assets && after.edges == mid.edges
  {
    EffectParts(org, source, fs, resolve, before, mid, one);
    EffectParts(org, source, fs, resolve, mid, after, two);
    HostsAreUntouched(org, source, fs, resolve, before, mid, one);
    SameEdgeOps(before, mid, org, fs);
    assert EdgePlanFor(mid, org, fs) == EdgePlanFor(before, org, fs);
    hide *;
    SecondProjectionIsIdle(org, source, RetirementFor(resolve), PlanFor(fs), before, mid, after);
    EndsAgree(org, source, before, mid, fs, mid, after, one, two);
    EdgesSyncedWith(org, source, fs, before, one, two, mid, after);
    SecondSweepIsIdle(org, source, EdgePlanFor(before, org, fs), one, None, before, mid, after);
  }
}
