/** The committed effect of `sync_catalog`: the plan, then the two prunes, and what that makes of
    the graph. */
module CatalogCommit {
  import opened Options
  import opened Graph
  import opened CatalogPlan
  import opened CatalogRun

  // `DELETE FROM relationships WHERE organization_id = .. AND source = .. AND source_ref <> ALL(seen)`
  function StaleEdges(org: Org, source: string, seen: seq<string>, db: Db): set<Id> {
    set e | e in db.edges && OwnsEdge(org, source, db.edges[e]) && db.edges[e].origin.value.ref !in seen
  }

  function StaleAssets(org: Org, source: string, seen: seq<string>, db: Db): set<Id> {
    set a | a in db.assets && OwnsAsset(org, source, db.assets[a]) && db.assets[a].origin.value.ref !in seen
  }

  function DeleteEdges(db: Db, gone: set<Id>): Db {
    db.(edges := map e | e in db.edges && e !in gone :: db.edges[e])
  }

  // `owner_id .. ON DELETE SET NULL`
  function Disowned(a: Asset, gone: set<Id>): Asset {
    if a.owner.Some? && a.owner.value in gone then a.(owner := None) else a
  }

  // Deleting assets cascades to every edge that touches one.
  function DeleteAssets(db: Db, gone: set<Id>): Db {
    db.(assets := map a | a in db.assets && a !in gone :: Disowned(db.assets[a], gone),
        edges := map e | e in db.edges && db.edges[e].src !in gone && db.edges[e].dst !in gone :: db.edges[e])
  }

  // The source_refs of a set of synced assets.
  function RefsOf(db: Db, ids: set<Id>): set<string>
    requires forall i | i in ids :: i in db.assets && db.assets[i].origin.Some?
  {
    set i | i in ids :: db.assets[i].origin.value.ref
  }

  ghost function AfterEdgePrune(org: Org, source: string, r: Run): Db {
    DeleteEdges(r.db, StaleEdges(org, source, r.seenEdges, r.db))
  }

  ghost function AfterPrunes(org: Org, source: string, prune: bool, r: Run): Db {
    var db := AfterEdgePrune(org, source, r);
    if prune then DeleteAssets(db, StaleAssets(org, source, r.seenAssets, db)) else db
  }

  /** The database a committed run leaves. */
  ghost function Committed(org: Org, source: string, prune: bool, before: Db, ops: seq<Op>): Db {
    AfterPrunes(org, source, prune, Play(org, source, Start(before), ops))
  }

  // Rows of the source that the plan no longer names.
  function Dropped(org: Org, source: string, plan: map<string, AssetWrite>, db: Db): set<Id> {
    set a | a in db.assets && OwnsAsset(org, source, db.assets[a]) && db.assets[a].origin.value.ref !in plan
  }

  lemma DeleteEdgesKeepsValid(db: Db, gone: set<Id>)
    requires Valid(db)
    ensures Valid(DeleteEdges(db, gone))
  {}

  lemma DeleteAssetsKeepsValid(db: Db, gone: set<Id>)
    requires Valid(db)
    ensures Valid(DeleteAssets(db, gone))
  {}

  /** Unique keys and foreign keys survive a run, pruning or not. */
  lemma CommittedKeepsValid(org: Org, source: string, prune: bool, before: Db, ops: seq<Op>)
    requires Valid(before) && Runnable(ops)
    ensures Valid(Committed(org, source, prune, before, ops))
  {
    hide Valid, Runnable, Play, StaleEdges, StaleAssets, DeleteEdges, DeleteAssets, Played;
    PlayIsPlayed(org, source, before, ops);
    var r := Play(org, source, Start(before), ops);
    PlayedParts(org, source, before, ops, r);
    DeleteEdgesKeepsValid(r.db, StaleEdges(org, source, r.seenEdges, r.db));
    var db := AfterEdgePrune(org, source, r);
    DeleteAssetsKeepsValid(db, StaleAssets(org, source, r.seenAssets, db));
  }

  // The rows a pruning run removes were there, unnamed by the plan, before it began.
  lemma StaleIsDropped(org: Org, source: string, before: Db, ops: seq<Op>, r: Run)
    requires Played(org, source, before, ops, r)
    ensures StaleAssets(org, source, r.seenAssets, AfterEdgePrune(org, source, r)) == Dropped(org, source, AssetPlan(ops), before)
  {
    hide Valid, Resolved, EdgesAfter, TallyIs, IdsName;
    var plan := AssetPlan(ops);
    var db := AfterEdgePrune(org, source, r);
    assert db.assets == r.db.assets;
    forall a ensures a in StaleAssets(org, source, r.seenAssets, db) <==> a in Dropped(org, source, plan, before) {
      if a in before.assets {
        assert r.db.assets[a] == AssetBecomes(org, source, plan, before.assets[a]);
      } else if a in r.db.assets {
        assert AssetIsNew(org, source, plan, before, r.db.assets[a]);
      }
    }
  }

  /*************** rows of other authors ***************/

  /** Without pruning, every row that is not the source's own is exactly what it was, every asset of
      the source keeps its id, type, status and owner, and no row appears outside the source. */
  lemma OthersUntouched(org: Org, source: string, before: Db, ops: seq<Op>)
    requires Valid(before) && Runnable(ops)
    ensures var after := Committed(org, source, false, before, ops);
            && (forall a | a in before.assets && !OwnsAsset(org, source, before.assets[a]) ::
                  a in after.assets && after.assets[a] == before.assets[a])
            && (forall a | a in after.assets && !OwnsAsset(org, source, after.assets[a]) ::
                  a in before.assets && after.assets[a] == before.assets[a])
            && (forall e | e in before.edges && !OwnsEdge(org, source, before.edges[e]) ::
                  e in after.edges && after.edges[e] == before.edges[e])
            && (forall e | e in after.edges && !OwnsEdge(org, source, after.edges[e]) ::
                  e in before.edges && after.edges[e] == before.edges[e])
  {
    hide Valid, Runnable, Play, TallyIs, IdsName, Played;
    PlayIsPlayed(org, source, before, ops);
    var r := Play(org, source, Start(before), ops);
    PlayedParts(org, source, before, ops, r);
    forall a | a in r.db.assets && a !in before.assets ensures OwnsAsset(org, source, r.db.assets[a]) {
      assert AssetIsNew(org, source, AssetPlan(ops), before, r.db.assets[a]);
    }
    forall e | e in r.db.edges && e !in before.edges ensures OwnsEdge(org, source, r.db.edges[e]) {
      assert EdgeIsNew(org, source, EdgePlan(ops), r.ids, before, r.db.edges[e]);
    }
  }

  // A row of the source that was there before keeps what the catalog does not own.
  ghost predicate KeepsIdentity(before: Asset, after: Asset) {
    && after.kind == before.kind && after.status == before.status && after.owner == before.owner
    && after.org == before.org && after.origin == before.origin
  }

  predicate Carries(a: Asset, w: AssetWrite) {
    a.name == w.name && a.description == w.description && a.metadata == w.metadata
  }

  /** Every planned asset is in the graph with the catalog's content: a row that was there keeps its
      id, type, status and owner, a new one is active and unowned. */
  lemma PlannedAssets(org: Org, source: string, before: Db, ops: seq<Op>, ref: string)
    requires Valid(before) && Runnable(ops) && ref in AssetPlan(ops)
    ensures var after := Committed(org, source, false, before, ops);
            exists i :: i in after.assets && AssetKeyed(org, Origin(source, ref), after.assets[i]) &&
              Carries(after.assets[i], AssetPlan(ops)[ref]) &&
              (if HasAsset(before, org, source, ref)
               then i in before.assets && AssetKeyed(org, Origin(source, ref), before.assets[i]) &&
                    KeepsIdentity(before.assets[i], after.assets[i])
               else i !in before.assets && after.assets[i] == NewAsset(org, source, AssetPlan(ops)[ref]))
  {
    hide Valid, Runnable, Play, TallyIs, IdsName, Played, EdgesAfter, Resolved;
    PlayIsPlayed(org, source, before, ops);
    var r := Play(org, source, Start(before), ops);
    PlayedParts(org, source, before, ops, r);
    var after := Committed(org, source, false, before, ops);
    assert after.assets == r.db.assets;
    if HasAsset(before, org, source, ref) {
      var i :| i in before.assets && AssetKeyed(org, Origin(source, ref), before.assets[i]);
      assert after.assets[i] == AssetBecomes(org, source, AssetPlan(ops), before.assets[i]);
    } else {
      assert HasAsset(r.db, org, source, ref);
      var i :| i in r.db.assets && AssetKeyed(org, Origin(source, ref), r.db.assets[i]);
      if i !in before.assets {
        assert AssetIsNew(org, source, AssetPlan(ops), before, r.db.assets[i]);
      }
    }
  }

  /*************** convergence ***************/

  // An edge of the graph is the edge `w` of the plan, its ends named by source_ref.
  ghost predicate EdgeMatches(org: Org, source: string, db: Db, e: Id, w: EdgeWrite)
    requires e in db.edges
  {
    && EdgeKeyed(org, Origin(source, w.ref), db.edges[e])
    && db.edges[e].kind == w.kind && db.edges[e].description == w.description
    && db.edges[e].src in db.assets && AssetKeyed(org, Origin(source, w.srcRef), db.assets[db.edges[e].src])
    && db.edges[e].dst in db.assets && AssetKeyed(org, Origin(source, w.dstRef), db.assets[db.edges[e].dst])
  }

  /** The edges of the source are exactly the plan's projection, one row per ref. */
  ghost predicate EdgesConverged(org: Org, source: string, plan: map<string, EdgeWrite>, db: Db) {
    && (forall e | e in db.edges && OwnsEdge(org, source, db.edges[e]) ::
          db.edges[e].origin.value.ref in plan && EdgeMatches(org, source, db, e, plan[db.edges[e].origin.value.ref]))
    && (forall ref | ref in plan :: HasEdge(db, org, source, ref))
  }

  // Keys of the plan agree with the refs stored under them.
  lemma {:induction false} EdgePlanRefs(ops: seq<Op>)
    ensures forall ref | ref in EdgePlan(ops) :: EdgePlan(ops)[ref].ref == ref
  {
    if ops != [] { EdgePlanRefs(ops[..|ops|-1]); }
  }

  lemma PlayedEdgeMatches(org: Org, source: string, before: Db, ops: seq<Op>, r: Run, e: Id)
    requires Played(org, source, before, ops, r)
    requires e in r.db.edges && OwnsEdge(org, source, r.db.edges[e]) && r.db.edges[e].origin.value.ref in EdgePlan(ops)
    ensures EdgeMatches(org, source, r.db, e, EdgePlan(ops)[r.db.edges[e].origin.value.ref])
  {
    hide Valid, TallyIs, AssetsAfter, SeenAre;
    EdgePlanRefs(ops);
    if e in before.edges {
      assert r.db.edges[e] == EdgeBecomes(org, source, EdgePlan(ops), r.ids, before.edges[e]);
    } else {
      assert EdgeIsNew(org, source, EdgePlan(ops), r.ids, before, r.db.edges[e]);
    }
  }

  lemma ConvergedAfterEdgePrune(org: Org, source: string, before: Db, ops: seq<Op>, r: Run)
    requires Played(org, source, before, ops, r)
    ensures EdgesConverged(org, source, EdgePlan(ops), AfterEdgePrune(org, source, r))
  {
    hide Valid, TallyIs, AssetsAfter, IdsName;
    var db := AfterEdgePrune(org, source, r);
    var plan := EdgePlan(ops);
    forall e | e in db.edges && OwnsEdge(org, source, db.edges[e])
      ensures db.edges[e].origin.value.ref in plan && EdgeMatches(org, source, db, e, plan[db.edges[e].origin.value.ref])
    {
      assert e !in StaleEdges(org, source, r.seenEdges, r.db);
      PlayedEdgeMatches(org, source, before, ops, r, e);
    }
    forall ref | ref in plan ensures HasEdge(db, org, source, ref) {
      assert HasEdge(r.db, org, source, ref);
      var e :| e in r.db.edges && EdgeKeyed(org, Origin(source, ref), r.db.edges[e]);
      assert EdgeKeyed(org, Origin(source, ref), db.edges[e]);
    }
  }

  // No planned edge is lost when the unnamed assets go: both its ends are named.
  lemma ConvergedAfterAssetPrune(org: Org, source: string, plan: map<string, EdgeWrite>, aplan: map<string, AssetWrite>, db: Db, gone: set<Id>)
    requires EdgesConverged(org, source, plan, db)
    requires forall ref | ref in plan :: plan[ref].srcRef in aplan && plan[ref].dstRef in aplan
    requires forall a | a in gone :: a in db.assets && OwnsAsset(org, source, db.assets[a]) && db.assets[a].origin.value.ref !in aplan
    ensures EdgesConverged(org, source, plan, DeleteAssets(db, gone))
    ensures forall e | e in db.edges && OwnsEdge(org, source, db.edges[e]) :: e in DeleteAssets(db, gone).edges
  {
    var after := DeleteAssets(db, gone);
    forall e | e in db.edges && OwnsEdge(org, source, db.edges[e])
      ensures e in after.edges && EdgeMatches(org, source, after, e, plan[db.edges[e].origin.value.ref])
    {
      assert EdgeMatches(org, source, db, e, plan[db.edges[e].origin.value.ref]);
    }
    forall ref | ref in plan ensures HasEdge(after, org, source, ref) {
      var e :| e in db.edges && EdgeKeyed(org, Origin(source, ref), db.edges[e]);
      assert EdgeKeyed(org, Origin(source, ref), after.edges[e]);
    }
  }

  /** Whatever the graph held before, a committed run leaves exactly the plan's edges. */
  lemma EdgesConverge(org: Org, source: string, prune: bool, before: Db, ops: seq<Op>)
    requires Valid(before) && Runnable(ops)
    ensures EdgesConverged(org, source, EdgePlan(ops), Committed(org, source, prune, before, ops))
  {
    hide Valid, Runnable, Play, TallyIs, Played, EdgesConverged, DeleteAssets, EdgesAfter, AssetsAfter;
    PlayIsPlayed(org, source, before, ops);
    var r := Play(org, source, Start(before), ops);
    PlayedParts(org, source, before, ops, r);
    ConvergedAfterEdgePrune(org, source, before, ops, r);
    if prune {
      var db := AfterEdgePrune(org, source, r);
      ConvergedAfterAssetPrune(org, source, EdgePlan(ops), AssetPlan(ops), db, StaleAssets(org, source, r.seenAssets, db));
    }
  }

  /*************** pruning ***************/

  /** A pruning run removes exactly the source's assets the catalog no longer names.  Every asset of
      the source that is left is in the catalog, an edge of another author survives exactly when
      neither of its ends was removed, and another author's asset loses at most an owner that was
      removed. */
  lemma PruneIsExact(org: Org, source: string, before: Db, ops: seq<Op>)
    requires Valid(before) && Runnable(ops)
    ensures var after, gone := Committed(org, source, true, before, ops), Dropped(org, source, AssetPlan(ops), before);
            && after == DeleteAssets(Committed(org, source, false, before, ops), gone)
            && (forall a | a in after.assets && OwnsAsset(org, source, after.assets[a]) ::
                  after.assets[a].origin.value.ref in AssetPlan(ops))
            && (forall a | a in before.assets && !OwnsAsset(org, source, before.assets[a]) ::
                  a in after.assets && after.assets[a] == Disowned(before.assets[a], gone))
            && (forall e | e in before.edges && !OwnsEdge(org, source, before.edges[e]) ::
                  (e in after.edges <==> before.edges[e].src !in gone && before.edges[e].dst !in gone) &&
                  (e in after.edges ==> after.edges[e] == before.edges[e]))
  {
    hide Valid, Runnable, Play, TallyIs, Played, EdgesAfter, IdsName, AssetsAfter, StaleAssets;
    PlayIsPlayed(org, source, before, ops);
    var r := Play(org, source, Start(before), ops);
    PlayedParts(org, source, before, ops, r);
    StaleIsDropped(org, source, before, ops, r);
    OthersUntouched(org, source, before, ops);
    var plain, gone := Committed(org, source, false, before, ops), Dropped(org, source, AssetPlan(ops), before);
    forall a | a in plain.assets && a !in gone && OwnsAsset(org, source, plain.assets[a])
      ensures plain.assets[a].origin.value.ref in AssetPlan(ops)
    {
      SurvivorIsPlanned(org, source, before, ops, r, a);
    }
  }

  lemma SurvivorIsPlanned(org: Org, source: string, before: Db, ops: seq<Op>, r: Run, a: Id)
    requires AssetsAfter(org, source, AssetPlan(ops), before, r.db)
    requires a in r.db.assets && OwnsAsset(org, source, r.db.assets[a]) && a !in Dropped(org, source, AssetPlan(ops), before)
    ensures r.db.assets[a].origin.value.ref in AssetPlan(ops)
    ensures Carries(r.db.assets[a], AssetPlan(ops)[r.db.assets[a].origin.value.ref])
  {
    if a in before.assets {
      assert r.db.assets[a] == AssetBecomes(org, source, AssetPlan(ops), before.assets[a]);
    } else {
      assert AssetIsNew(org, source, AssetPlan(ops), before, r.db.assets[a]);
    }
  }

  /*************** a second run ***************/

  /** The source's planned rows already carry the plan. */
  ghost predicate AssetsConverged(org: Org, source: string, plan: map<string, AssetWrite>, db: Db) {
    && (forall a | a in db.assets && OwnsAsset(org, source, db.assets[a]) && db.assets[a].origin.value.ref in plan ::
          Carries(db.assets[a], plan[db.assets[a].origin.value.ref]))
    && (forall ref | ref in plan :: HasAsset(db, org, source, ref))
  }

  lemma PlayedAssetsConverge(org: Org, source: string, plan: map<string, AssetWrite>, before: Db, db: Db)
    requires AssetsAfter(org, source, plan, before, db)
    ensures AssetsConverged(org, source, plan, db)
  {
    hide HasAsset;
    forall a | a in db.assets && OwnsAsset(org, source, db.assets[a]) && db.assets[a].origin.value.ref in plan
      ensures Carries(db.assets[a], plan[db.assets[a].origin.value.ref])
    {
      if a in before.assets {
        assert db.assets[a] == AssetBecomes(org, source, plan, before.assets[a]);
      } else {
        assert AssetIsNew(org, source, plan, before, db.assets[a]);
      }
    }
  }

  lemma ConvergedAfterDelete(org: Org, source: string, plan: map<string, AssetWrite>, db: Db, gone: set<Id>)
    requires AssetsConverged(org, source, plan, db)
    requires forall a | a in gone && a in db.assets && db.assets[a].origin.Some? :: db.assets[a].origin.value.ref !in plan
    ensures AssetsConverged(org, source, plan, DeleteAssets(db, gone))
  {
    var after := DeleteAssets(db, gone);
    forall ref | ref in plan ensures HasAsset(after, org, source, ref) {
      var a :| a in db.assets && AssetKeyed(org, Origin(source, ref), db.assets[a]);
      assert a in after.assets && AssetKeyed(org, Origin(source, ref), after.assets[a]);
    }
  }

  lemma SameAssetsConverge(org: Org, source: string, plan: map<string, AssetWrite>, db: Db, after: Db)
    requires AssetsConverged(org, source, plan, db) && after.assets == db.assets
    ensures AssetsConverged(org, source, plan, after)
  {
    forall ref | ref in plan ensures HasAsset(after, org, source, ref) { assert HasAsset(db, org, source, ref); }
  }

  lemma AssetsConverge(org: Org, source: string, prune: bool, before: Db, ops: seq<Op>)
    requires Valid(before) && Runnable(ops)
    ensures AssetsConverged(org, source, AssetPlan(ops), Committed(org, source, prune, before, ops))
  {
    hide Valid, Runnable, Play, TallyIs, Played, EdgesAfter, IdsName, AssetsConverged, AssetsAfter, Resolved;
    PlayIsPlayed(org, source, before, ops);
    var r := Play(org, source, Start(before), ops);
    PlayedParts(org, source, before, ops, r);
    PlayedAssetsConverge(org, source, AssetPlan(ops), before, r.db);
    var db := AfterEdgePrune(org, source, r);
    SameAssetsConverge(org, source, AssetPlan(ops), r.db, db);
    ConvergedAfterDelete(org, source, AssetPlan(ops), db, StaleAssets(org, source, r.seenAssets, db));
  }

  lemma ConvergedAssetsStay(org: Org, source: string, db: Db, ops: seq<Op>, r: Run)
    requires AssetsConverged(org, source, AssetPlan(ops), db)
    requires AssetsAfter(org, source, AssetPlan(ops), db, r.db)
    ensures r.db.assets == db.assets
  {
    hide HasAsset;
    forall a | a in db.assets ensures r.db.assets[a] == db.assets[a] {
      assert r.db.assets[a] == AssetBecomes(org, source, AssetPlan(ops), db.assets[a]);
    }
  }

  lemma ConvergedEdgeStays(org: Org, source: string, db: Db, ops: seq<Op>, r: Run, e: Id)
    requires UniqueAssets(db.assets) && r.db.assets == db.assets && IdsName(org, source, AssetPlan(ops), r)
    requires Resolved(r.ids, EdgePlan(ops))
    requires e in db.edges && OwnsEdge(org, source, db.edges[e]) && db.edges[e].origin.value.ref in EdgePlan(ops)
    requires EdgeMatches(org, source, db, e, EdgePlan(ops)[db.edges[e].origin.value.ref])
    ensures EdgeBecomes(org, source, EdgePlan(ops), r.ids, db.edges[e]) == db.edges[e]
  {
    var w := EdgePlan(ops)[db.edges[e].origin.value.ref];
    assert AssetKeyed(org, Origin(source, w.srcRef), db.assets[r.ids[w.srcRef]]);
    assert AssetKeyed(org, Origin(source, w.dstRef), db.assets[r.ids[w.dstRef]]);
  }

  lemma ConvergedEdgesStay(org: Org, source: string, db: Db, ops: seq<Op>, r: Run)
    requires Valid(db) && r.db.assets == db.assets && IdsName(org, source, AssetPlan(ops), r)
    requires Resolved(r.ids, EdgePlan(ops)) && EdgesConverged(org, source, EdgePlan(ops), db)
    requires EdgesAfter(org, source, EdgePlan(ops), r.ids, db, r.db)
    ensures r.db.edges == db.edges
  {
    hide HasEdge, EdgeBecomes, EdgeMatches, IdsName, UniqueAssets, UniqueEdges, NoDangling, IdsBelow;
    var plan := EdgePlan(ops);
    forall e | e in db.edges ensures r.db.edges[e] == db.edges[e] {
      assert r.db.edges[e] == EdgeBecomes(org, source, plan, r.ids, db.edges[e]);
      if OwnsEdge(org, source, db.edges[e]) {
        ConvergedEdgeStays(org, source, db, ops, r, e);
      } else {
        OtherEdgeStays(org, source, plan, r.ids, db.edges[e]);
      }
    }
  }

  lemma OtherEdgeStays(org: Org, source: string, plan: map<string, EdgeWrite>, ids: map<string, Id>, e: Edge)
    requires Resolved(ids, plan) && !OwnsEdge(org, source, e)
    ensures EdgeBecomes(org, source, plan, ids, e) == e
  {}

  /** Playing a plan over a graph that already carries it changes no row and creates none. */
  lemma ReplayIsIdle(org: Org, source: string, db: Db, ops: seq<Op>)
    requires Valid(db) && Runnable(ops)
    requires AssetsConverged(org, source, AssetPlan(ops), db) && EdgesConverged(org, source, EdgePlan(ops), db)
    ensures var r := Play(org, source, Start(db), ops);
            && r.db == db
            && r.tally.assetsCreated == 0 && r.tally.edgesCreated == 0
            && r.tally.assetsUpdated == AssetOps(ops) && r.tally.edgesUpdated == |ops| - AssetOps(ops)
            && StaleEdges(org, source, r.seenEdges, r.db) == {}
            && AfterEdgePrune(org, source, r) == db
  {
    hide Valid, Runnable, Play, Played, EdgesAfter, AssetsAfter, IdsName, AssetsConverged, EdgeMatches;
    PlayIsPlayed(org, source, db, ops);
    var r := Play(org, source, Start(db), ops);
    PlayedParts(org, source, db, ops, r);
    ConvergedAssetsStay(org, source, db, ops, r);
    ConvergedEdgesStay(org, source, db, ops, r);
  }

  /** Idempotence: an immediate second run of the same kind creates nothing, prunes nothing and leaves
      the graph exactly as it is. */
  lemma SecondRunIsIdle(org: Org, source: string, prune: bool, before: Db, ops: seq<Op>)
    requires Valid(before) && Runnable(ops)
    ensures var after := Committed(org, source, prune, before, ops);
            var again := Play(org, source, Start(after), ops);
            && Committed(org, source, prune, after, ops) == after
            && again.tally.assetsCreated == 0 && again.tally.edgesCreated == 0
            && StaleEdges(org, source, again.seenEdges, again.db) == {}
            && (prune ==> StaleAssets(org, source, again.seenAssets, after) == {})
  {
    hide Valid, Runnable, Play, Played, AssetsConverged, EdgesConverged, AfterEdgePrune;
    var after := Committed(org, source, prune, before, ops);
    CommittedKeepsValid(org, source, prune, before, ops);
    AssetsConverge(org, source, prune, before, ops);
    EdgesConverge(org, source, prune, before, ops);
    ReplayIsIdle(org, source, after, ops);
    if prune {
      PruneIsExact(org, source, before, ops);
      PlayIsPlayed(org, source, after, ops);
      PlayedParts(org, source, after, ops, Play(org, source, Start(after), ops));
      NothingDropped(org, source, before, after, ops);
    }
  }

  lemma NothingDropped(org: Org, source: string, before: Db, after: Db, ops: seq<Op>)
    requires Valid(after)
    requires forall a | a in after.assets && OwnsAsset(org, source, after.assets[a]) :: after.assets[a].origin.value.ref in AssetPlan(ops)
    requires forall ref :: ref in Play(org, source, Start(after), ops).seenAssets <==> ref in AssetPlan(ops)
    ensures StaleAssets(org, source, Play(org, source, Start(after), ops).seenAssets, after) == {}
    ensures DeleteAssets(after, {}) == after
  {}

  /*************** history ***************/

  function RefAt(db: Db, i: Id): string {
    if i in db.assets && db.assets[i].origin.Some? then db.assets[i].origin.value.ref else ""
  }

  // The source's part of the graph with the row ids forgotten.
  function AssetContent(org: Org, source: string, db: Db): set<(string, string, string, Meta)> {
    set a | a in db.assets && OwnsAsset(org, source, db.assets[a]) ::
      (db.assets[a].origin.value.ref, db.assets[a].name, db.assets[a].description, db.assets[a].metadata)
  }

  function EdgeContent(org: Org, source: string, db: Db): set<EdgeWrite> {
    set e | e in db.edges && OwnsEdge(org, source, db.edges[e]) ::
      EdgeWrite(RefAt(db, db.edges[e].src), RefAt(db, db.edges[e].dst), db.edges[e].kind, db.edges[e].description,
                db.edges[e].origin.value.ref)
  }

  lemma ConvergedEdgeContent(org: Org, source: string, plan: map<string, EdgeWrite>, db: Db)
    requires EdgesConverged(org, source, plan, db) && forall ref | ref in plan :: plan[ref].ref == ref
    ensures EdgeContent(org, source, db) == plan.Values
  {
    forall w | w in plan.Values ensures w in EdgeContent(org, source, db) {
      var ref :| ref in plan && plan[ref] == w;
      assert HasEdge(db, org, source, ref);
      var e :| e in db.edges && EdgeKeyed(org, Origin(source, ref), db.edges[e]);
      assert EdgeMatches(org, source, db, e, w);
    }
    forall w | w in EdgeContent(org, source, db) ensures w in plan.Values {
      var e :| e in db.edges && OwnsEdge(org, source, db.edges[e]) &&
        w == EdgeWrite(RefAt(db, db.edges[e].src), RefAt(db, db.edges[e].dst), db.edges[e].kind, db.edges[e].description,
                       db.edges[e].origin.value.ref);
      assert EdgeMatches(org, source, db, e, plan[db.edges[e].origin.value.ref]);
      assert plan[db.edges[e].origin.value.ref] == w;
    }
  }

  /** History independence: from any two graphs, one run of the same catalog leaves the same edges of
      the source; with pruning it also leaves the same assets, namely the catalog's. */
  lemma HistoryIndependent(org: Org, source: string, prune: bool, b1: Db, b2: Db, ops: seq<Op>)
    requires Valid(b1) && Valid(b2) && Runnable(ops)
    ensures var a1, a2 := Committed(org, source, prune, b1, ops), Committed(org, source, prune, b2, ops);
            && EdgeContent(org, source, a1) == EdgeContent(org, source, a2) == EdgePlan(ops).Values
            && (prune ==> AssetContent(org, source, a1) == AssetContent(org, source, a2) == PlanContent(AssetPlan(ops)))
  {
    hide Valid, Runnable, Committed, EdgesConverged, EdgeContent, AssetContent, PlanContent;
    EdgePlanRefs(ops);
    EdgesConverge(org, source, prune, b1, ops);
    EdgesConverge(org, source, prune, b2, ops);
    ConvergedEdgeContent(org, source, EdgePlan(ops), Committed(org, source, prune, b1, ops));
    ConvergedEdgeContent(org, source, EdgePlan(ops), Committed(org, source, prune, b2, ops));
    if prune {
      PrunedContent(org, source, b1, ops);
      PrunedContent(org, source, b2, ops);
    }
  }

  function PlanContent(plan: map<string, AssetWrite>): set<(string, string, string, Meta)> {
    set ref | ref in plan :: (ref, plan[ref].name, plan[ref].description, plan[ref].metadata)
  }

  lemma PrunedContent(org: Org, source: string, before: Db, ops: seq<Op>)
    requires Valid(before) && Runnable(ops)
    ensures AssetContent(org, source, Committed(org, source, true, before, ops)) == PlanContent(AssetPlan(ops))
  {
    hide Valid, Runnable, Committed;
    var after, plan := Committed(org, source, true, before, ops), AssetPlan(ops);
    PruneIsExact(org, source, before, ops);
    AssetsConverge(org, source, true, before, ops);
    forall t | t in PlanContent(plan) ensures t in AssetContent(org, source, after) {
      assert HasAsset(after, org, source, t.0);
      var a :| a in after.assets && AssetKeyed(org, Origin(source, t.0), after.assets[a]);
      assert Carries(after.assets[a], plan[t.0]);
    }
  }
}
