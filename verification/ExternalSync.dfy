/** The projection an authoritative source makes of itself: upserts that own the whole record, status
    included, a sweep of its stale edges, and the retirement of records it no longer lists. */
module ExternalSync {
  import opened Options
  import opened Graph
  import opened CatalogPlan
  import opened CatalogRun

  // One record to project, with the owner found for it (None leaves the owner alone).
  datatype Write = Write(kind: string, name: string, description: string, status: string, metadata: Meta,
                         ref: string, owner: Option<Id>)

  function Projected(a: Asset, w: Write): Asset {
    a.(name := w.name, description := w.description, status := w.status, metadata := w.metadata,
       owner := if w.owner.Some? then w.owner else a.owner)
  }

  function Created(org: Org, source: string, w: Write): Asset {
    Asset(org, w.kind, w.name, w.description, w.status, w.owner, w.metadata, Some(Origin(source, w.ref)))
  }

  function PlanOf(ws: seq<Write>): map<string, Write> {
    if ws == [] then map[] else PlanOf(ws[..|ws| - 1])[ws[|ws| - 1].ref := ws[|ws| - 1]]
  }

  predicate Planned(org: Org, source: string, plan: map<string, Write>, a: Asset) {
    OwnsAsset(org, source, a) && a.origin.value.ref in plan
  }

  ghost predicate IsNew(org: Org, source: string, plan: map<string, Write>, before: Db, a: Asset) {
    && a.origin.Some? && a.origin.value.ref in plan
    && a == Created(org, source, plan[a.origin.value.ref])
    && !HasAsset(before, org, source, a.origin.value.ref)
  }

  // `ids` names the row of every ref written.
  ghost predicate Names(org: Org, source: string, plan: map<string, Write>, db: Db, ids: map<string, Id>) {
    && ids.Keys == plan.Keys
    && forall ref | ref in ids :: ids[ref] in db.assets && AssetKeyed(org, Origin(source, ref), db.assets[ids[ref]])
  }

  /*************** the upserts ***************/

  function Upserted(org: Org, source: string, plan: map<string, Write>, a: Asset): Asset {
    if Planned(org, source, plan, a) then Projected(a, plan[a.origin.value.ref]) else a
  }

  ghost predicate Projects(org: Org, source: string, plan: map<string, Write>, before: Db, after: Db, ids: map<string, Id>) {
    && Valid(after) && before.next <= after.next && after.edges == before.edges
    && (forall i | i in before.assets :: i in after.assets && after.assets[i] == Upserted(org, source, plan, before.assets[i]))
    && (forall i | i in after.assets && i !in before.assets :: IsNew(org, source, plan, before, after.assets[i]))
    && Names(org, source, plan, after, ids)
  }

  ghost function Put(org: Org, source: string, db: Db, w: Write): Db {
    var id := AssetSlot(db, org, Origin(source, w.ref));
    var found := id in db.assets;
    db.(assets := db.assets[id := if found then Projected(db.assets[id], w) else Created(org, source, w)],
        next := if found then db.next else db.next + 1)
  }

  lemma ProjectsNothing(org: Org, source: string, db: Db)
    requires Valid(db)
    ensures Projects(org, source, map[], db, db, map[])
  {
    hide Valid;
  }

  lemma PutKeepsValid(org: Org, source: string, db: Db, w: Write)
    requires Valid(db) && (w.owner.Some? ==> w.owner.value in db.assets)
    ensures Valid(Put(org, source, db, w))
  {
    AssetSlotIs(db, org, Origin(source, w.ref));
  }

  lemma PutOldRow(org: Org, source: string, plan: map<string, Write>, before: Db, db: Db, w: Write, i: Id)
    requires Valid(db) && w.ref !in plan && i in before.assets && i in db.assets
    requires db.assets[i] == Upserted(org, source, plan, before.assets[i])
    ensures i in Put(org, source, db, w).assets
    ensures Put(org, source, db, w).assets[i] == Upserted(org, source, plan[w.ref := w], before.assets[i])
  {
    AssetSlotIs(db, org, Origin(source, w.ref));
  }

  lemma PutNewRow(org: Org, source: string, plan: map<string, Write>, before: Db, db: Db, w: Write, i: Id)
    requires Valid(db) && w.ref !in plan && i !in before.assets && i in Put(org, source, db, w).assets
    requires i in db.assets ==> IsNew(org, source, plan, before, db.assets[i])
    requires HasAsset(before, org, source, w.ref) ==> HasAsset(db, org, source, w.ref)
    ensures IsNew(org, source, plan[w.ref := w], before, Put(org, source, db, w).assets[i])
  {
    AssetSlotIs(db, org, Origin(source, w.ref));
    var id := AssetSlot(db, org, Origin(source, w.ref));
    if i == id {
      assert id !in db.assets;
      assert !HasAsset(db, org, source, w.ref);
    }
  }

  lemma PutNames(org: Org, source: string, plan: map<string, Write>, db: Db, ids: map<string, Id>, w: Write)
    requires Valid(db) && w.ref !in plan && Names(org, source, plan, db, ids)
    ensures Names(org, source, plan[w.ref := w], Put(org, source, db, w), ids[w.ref := AssetSlot(db, org, Origin(source, w.ref))])
  {
    AssetSlotIs(db, org, Origin(source, w.ref));
  }

  lemma StillHas(org: Org, source: string, plan: map<string, Write>, before: Db, db: Db, ref: string)
    requires forall i | i in before.assets :: i in db.assets && db.assets[i] == Upserted(org, source, plan, before.assets[i])
    requires HasAsset(before, org, source, ref)
    ensures HasAsset(db, org, source, ref)
  {
    var k :| k in before.assets && AssetKeyed(org, Origin(source, ref), before.assets[k]);
    assert AssetKeyed(org, Origin(source, ref), db.assets[k]);
  }

  lemma ProjectsOneMore(org: Org, source: string, plan: map<string, Write>, before: Db, db: Db, ids: map<string, Id>, w: Write)
    requires Projects(org, source, plan, before, db, ids) && w.ref !in plan
    requires w.owner.Some? ==> w.owner.value in db.assets
    ensures Projects(org, source, plan[w.ref := w], before, Put(org, source, db, w),
                     ids[w.ref := AssetSlot(db, org, Origin(source, w.ref))])
  {
    var after := Put(org, source, db, w);
    PutKeepsValid(org, source, db, w);
    PutNames(org, source, plan, db, ids, w);
    assert after.edges == before.edges && before.next <= after.next;
    hide Valid, Upserted, IsNew, Names, AssetSlot, Projected, Created;
    forall i | i in before.assets
      ensures i in after.assets && after.assets[i] == Upserted(org, source, plan[w.ref := w], before.assets[i])
    {
      PutOldRow(org, source, plan, before, db, w, i);
    }
    if HasAsset(before, org, source, w.ref) { StillHas(org, source, plan, before, db, w.ref); }
    forall i | i in after.assets && i !in before.assets ensures IsNew(org, source, plan[w.ref := w], before, after.assets[i]) {
      PutNewRow(org, source, plan, before, db, w, i);
    }
  }

  /*************** records no longer listed ***************/

  const ARCHIVED := "archived"

  // What retiring does to a row: archives it, and may note why.
  datatype Retirement = Retirement(kinds: set<string>, note: Meta)

  predicate Missing(org: Org, source: string, kinds: set<string>, plan: map<string, Write>, a: Asset) {
    OwnsAsset(org, source, a) && a.kind in kinds && a.origin.value.ref !in plan
  }

  function MissingIds(org: Org, source: string, kinds: set<string>, plan: map<string, Write>, db: Db): set<Id> {
    set i | i in db.assets && Missing(org, source, kinds, plan, db.assets[i])
  }

  function Unarchived(db: Db, ids: set<Id>): set<Id> {
    set i | i in ids && i in db.assets && db.assets[i].status != ARCHIVED
  }

  function RefsAt(db: Db, ids: set<Id>): set<string>
    requires forall i | i in ids :: i in db.assets && db.assets[i].origin.Some?
  {
    set i | i in ids :: db.assets[i].origin.value.ref
  }

  function Retired(a: Asset, note: Meta): Asset {
    if a.status == ARCHIVED then a else a.(status := ARCHIVED, metadata := a.metadata + note)
  }

  function RetireMissing(org: Org, source: string, r: Retirement, plan: map<string, Write>, db: Db): Db {
    db.(assets := map i | i in db.assets ::
      if Missing(org, source, r.kinds, plan, db.assets[i]) then Retired(db.assets[i], r.note) else db.assets[i])
  }

  lemma RetireKeepsValid(org: Org, source: string, r: Retirement, plan: map<string, Write>, db: Db)
    requires Valid(db)
    ensures Valid(RetireMissing(org, source, r, plan, db))
  {
  }

  // What a whole run makes of a row that was there before.
  function Synced(org: Org, source: string, r: Retirement, plan: map<string, Write>, a: Asset): Asset {
    if Planned(org, source, plan, a) then Projected(a, plan[a.origin.value.ref])
    else if Missing(org, source, r.kinds, plan, a) then Retired(a, r.note) else a
  }

  ghost predicate AssetsSynced(org: Org, source: string, r: Retirement, plan: map<string, Write>, before: Db, after: Db) {
    && (forall i | i in before.assets :: i in after.assets && after.assets[i] == Synced(org, source, r, plan, before.assets[i]))
    && (forall i | i in after.assets && i !in before.assets :: IsNew(org, source, plan, before, after.assets[i]))
    && (forall ref | ref in plan :: HasAsset(after, org, source, ref))
  }

  lemma RetiredProjection(org: Org, source: string, r: Retirement, plan: map<string, Write>, before: Db, db: Db, ids: map<string, Id>)
    requires Projects(org, source, plan, before, db, ids)
    ensures AssetsSynced(org, source, r, plan, before, RetireMissing(org, source, r, plan, db))
    ensures Names(org, source, plan, RetireMissing(org, source, r, plan, db), ids)
  {
    hide Valid, HasAsset, RetireMissing, IsNew, Upserted, Synced;
    var after := RetireMissing(org, source, r, plan, db);
    assert after.assets.Keys == db.assets.Keys by { RetiredKeys(org, source, r, plan, db); }
    forall i | i in before.assets ensures after.assets[i] == Synced(org, source, r, plan, before.assets[i]) {
      RetiredOld(org, source, r, plan, before, db, i);
    }
    forall i | i in after.assets && i !in before.assets ensures IsNew(org, source, plan, before, after.assets[i]) {
      RetiredNew(org, source, r, plan, before, db, i);
    }
    forall ref | ref in plan ensures HasAsset(after, org, source, ref) && AssetKeyed(org, Origin(source, ref), after.assets[ids[ref]]) {
      RetiredKeyed(org, source, r, plan, db, ids[ref], ref);
    }
  }

  lemma RetiredKeys(org: Org, source: string, r: Retirement, plan: map<string, Write>, db: Db)
    ensures RetireMissing(org, source, r, plan, db).assets.Keys == db.assets.Keys
  {
  }

  lemma RetiredOld(org: Org, source: string, r: Retirement, plan: map<string, Write>, before: Db, db: Db, i: Id)
    requires i in before.assets && i in db.assets && db.assets[i] == Upserted(org, source, plan, before.assets[i])
    ensures RetireMissing(org, source, r, plan, db).assets[i] == Synced(org, source, r, plan, before.assets[i])
  {
  }

  lemma RetiredNew(org: Org, source: string, r: Retirement, plan: map<string, Write>, before: Db, db: Db, i: Id)
    requires i in db.assets && IsNew(org, source, plan, before, db.assets[i])
    ensures RetireMissing(org, source, r, plan, db).assets[i] == db.assets[i]
  {
    hide HasAsset;
  }

  lemma RetiredKeyed(org: Org, source: string, r: Retirement, plan: map<string, Write>, db: Db, i: Id, ref: string)
    requires i in db.assets && AssetKeyed(org, Origin(source, ref), db.assets[i])
    ensures i in RetireMissing(org, source, r, plan, db).assets
    ensures AssetKeyed(org, Origin(source, ref), RetireMissing(org, source, r, plan, db).assets[i])
    ensures HasAsset(RetireMissing(org, source, r, plan, db), org, source, ref)
  {
    assert AssetKeyed(org, Origin(source, ref), RetireMissing(org, source, r, plan, db).assets[i]);
  }

  /*************** what a run leaves alone ***************/

  /** Rows of other authors, and the source's own rows of a kind the run did not carry, stay exactly as they
      were unless the run names their ref; no row is deleted; and a row changes from not archived to archived
      only because the source says so or because it no longer lists it. */
  lemma OnlyCarriedRowsChange(org: Org, source: string, r: Retirement, plan: map<string, Write>, before: Db, after: Db, i: Id)
    requires AssetsSynced(org, source, r, plan, before, after) && i in before.assets
    ensures i in after.assets
    ensures !OwnsAsset(org, source, before.assets[i]) ==> after.assets[i] == before.assets[i]
    ensures !Planned(org, source, plan, before.assets[i]) && before.assets[i].kind !in r.kinds ==> after.assets[i] == before.assets[i]
    ensures after.assets[i].status == ARCHIVED && before.assets[i].status != ARCHIVED ==>
      if Planned(org, source, plan, before.assets[i]) then plan[before.assets[i].origin.value.ref].status == ARCHIVED
      else Missing(org, source, r.kinds, plan, before.assets[i])
    ensures Missing(org, source, r.kinds, plan, before.assets[i]) ==> after.assets[i].status == ARCHIVED
  {
  }

  lemma SyncedTwice(org: Org, source: string, r: Retirement, plan: map<string, Write>, a: Asset)
    ensures Synced(org, source, r, plan, Synced(org, source, r, plan, a)) == Synced(org, source, r, plan, a)
  {
  }

  lemma CreatedStays(org: Org, source: string, r: Retirement, plan: map<string, Write>, before: Db, a: Asset)
    requires IsNew(org, source, plan, before, a)
    ensures Synced(org, source, r, plan, a) == a
  {
  }

  lemma NothingNew(org: Org, source: string, plan: map<string, Write>, db: Db, a: Asset)
    requires forall ref | ref in plan :: HasAsset(db, org, source, ref)
    ensures !IsNew(org, source, plan, db, a)
  {
    hide HasAsset;
  }

  /** Running the same projection again changes no asset and creates none. */
  lemma SecondProjectionIsIdle(org: Org, source: string, r: Retirement, plan: map<string, Write>, before: Db, mid: Db, after: Db)
    requires AssetsSynced(org, source, r, plan, before, mid) && AssetsSynced(org, source, r, plan, mid, after)
    ensures after.assets == mid.assets
  {
    hide Synced, HasAsset;
    forall i | i in mid.assets ensures i in after.assets && after.assets[i] == mid.assets[i] {
      if i in before.assets {
        SyncedTwice(org, source, r, plan, before.assets[i]);
      } else {
        CreatedStays(org, source, r, plan, before, mid.assets[i]);
      }
    }
    forall i | i in after.assets ensures i in mid.assets {
      NothingNew(org, source, plan, mid, after.assets[i]);
    }
  }

  /*************** the edges ***************/

  // The sweep covers every edge of the source, or those leaving the given assets.
  predicate InScope(scope: Option<set<Id>>, e: Edge) { scope.None? || e.src in scope.value }

  predicate Swept(org: Org, source: string, plan: map<string, EdgeWrite>, scope: Option<set<Id>>, e: Edge) {
    OwnsEdge(org, source, e) && e.origin.value.ref !in plan && InScope(scope, e)
  }

  function Sweep(org: Org, source: string, plan: map<string, EdgeWrite>, scope: Option<set<Id>>, db: Db): Db {
    db.(edges := map e | e in db.edges && !Swept(org, source, plan, scope, db.edges[e]) :: db.edges[e])
  }

  ghost predicate EdgesSynced(org: Org, source: string, plan: map<string, EdgeWrite>, ids: map<string, Id>, scope: Option<set<Id>>,
                              before: Db, after: Db)
    requires Resolved(ids, plan)
  {
    && (forall i | i in before.edges ::
          if Swept(org, source, plan, scope, before.edges[i]) then i !in after.edges
          else i in after.edges && after.edges[i] == EdgeBecomes(org, source, plan, ids, before.edges[i]))
    && (forall i | i in after.edges && i !in before.edges :: EdgeIsNew(org, source, plan, ids, before, after.edges[i]))
    && (forall ref | ref in plan :: HasEdge(after, org, source, ref))
  }

  lemma SweepKeepsValid(org: Org, source: string, plan: map<string, EdgeWrite>, scope: Option<set<Id>>, db: Db)
    requires Valid(db)
    ensures Valid(Sweep(org, source, plan, scope, db))
  {
  }

  lemma SweptEdges(org: Org, source: string, plan: map<string, EdgeWrite>, ids: map<string, Id>, scope: Option<set<Id>>, before: Db, db: Db)
    requires Resolved(ids, plan) && EdgesAfter(org, source, plan, ids, before, db)
    ensures EdgesSynced(org, source, plan, ids, scope, before, Sweep(org, source, plan, scope, db))
  {
    hide EdgeIsNew, HasEdge;
    var after := Sweep(org, source, plan, scope, db);
    forall i | i in before.edges
      ensures if Swept(org, source, plan, scope, before.edges[i]) then i !in after.edges
              else i in after.edges && after.edges[i] == EdgeBecomes(org, source, plan, ids, before.edges[i])
    {
      assert db.edges[i] == EdgeBecomes(org, source, plan, ids, before.edges[i]);
    }
    forall ref | ref in plan ensures HasEdge(after, org, source, ref) { SweepKeepsPlanned(org, source, plan, scope, db, ref); }
  }

  // What the sweep removes was there, and is counted, before the run began.
  function SweptIds(org: Org, source: string, plan: map<string, EdgeWrite>, scope: Option<set<Id>>, db: Db): set<Id> {
    set e | e in db.edges && Swept(org, source, plan, scope, db.edges[e])
  }

  lemma SweptBefore(org: Org, source: string, plan: map<string, EdgeWrite>, ids: map<string, Id>, scope: Option<set<Id>>, before: Db, db: Db)
    requires Resolved(ids, plan) && EdgesAfter(org, source, plan, ids, before, db)
    ensures SweptIds(org, source, plan, scope, db) == SweptIds(org, source, plan, scope, before)
  {
    hide HasEdge;
    forall e ensures e in SweptIds(org, source, plan, scope, db) <==> e in SweptIds(org, source, plan, scope, before) {
      if e in before.edges {
        assert db.edges[e] == EdgeBecomes(org, source, plan, ids, before.edges[e]);
      } else if e in db.edges {
        assert EdgeIsNew(org, source, plan, ids, before, db.edges[e]);
      }
    }
  }

  lemma SweepKeepsPlanned(org: Org, source: string, plan: map<string, EdgeWrite>, scope: Option<set<Id>>, db: Db, ref: string)
    requires ref in plan && HasEdge(db, org, source, ref)
    ensures HasEdge(Sweep(org, source, plan, scope, db), org, source, ref)
  {
    var k :| k in db.edges && EdgeKeyed(org, Origin(source, ref), db.edges[k]);
    assert EdgeKeyed(org, Origin(source, ref), Sweep(org, source, plan, scope, db).edges[k]);
  }

  /** An edge of another author stays; an edge of the source stays too when the run does not name its ref
      and the sweep does not reach its starting asset; and of those it does reach, exactly the named ones
      are left. */
  lemma OnlySweptEdgesGo(org: Org, source: string, plan: map<string, EdgeWrite>, ids: map<string, Id>, scope: Option<set<Id>>,
                         before: Db, after: Db, i: Id)
    requires Resolved(ids, plan) && EdgesSynced(org, source, plan, ids, scope, before, after) && i in before.edges
    ensures !OwnsEdge(org, source, before.edges[i]) ==> i in after.edges && after.edges[i] == before.edges[i]
    ensures OwnsEdge(org, source, before.edges[i]) && before.edges[i].origin.value.ref !in plan ==>
      if InScope(scope, before.edges[i]) then i !in after.edges else i in after.edges && after.edges[i] == before.edges[i]
    ensures OwnsEdge(org, source, before.edges[i]) && before.edges[i].origin.value.ref in plan ==> i in after.edges
  {
  }

  lemma NoNewEdge(org: Org, source: string, plan: map<string, EdgeWrite>, ids: map<string, Id>, db: Db, e: Edge)
    requires Resolved(ids, plan) && forall ref | ref in plan :: HasEdge(db, org, source, ref)
    ensures !EdgeIsNew(org, source, plan, ids, db, e)
  {
    hide HasEdge;
  }

  /** Sweeping and redrawing again, from the same rows, changes no edge. */
  lemma SecondSweepIsIdle(org: Org, source: string, plan: map<string, EdgeWrite>, ids: map<string, Id>, scope: Option<set<Id>>,
                          before: Db, mid: Db, after: Db)
    requires Resolved(ids, plan)
    requires EdgesSynced(org, source, plan, ids, scope, before, mid) && EdgesSynced(org, source, plan, ids, scope, mid, after)
    ensures after.edges == mid.edges
  {
    hide HasEdge;
    forall i | i in mid.edges ensures i in after.edges && after.edges[i] == mid.edges[i] {
      if i !in before.edges { assert EdgeIsNew(org, source, plan, ids, before, mid.edges[i]); }
    }
    forall i | i in after.edges ensures i in mid.edges {
      NoNewEdge(org, source, plan, ids, mid, after.edges[i]);
    }
  }

  /*************** playing the edge upserts ***************/

  ghost predicate OnlyEdges(ops: seq<Op>) { forall i | 0 <= i < |ops| :: ops[i].PutEdge? }

  ghost predicate Drawn(org: Org, source: string, ops: seq<Op>, before: Db, ids: map<string, Id>, r: Run) {
    && Valid(r.db) && r.ids == ids && r.db.assets == before.assets && before.next <= r.db.next
    && Resolved(ids, EdgePlan(ops))
    && EdgesAfter(org, source, EdgePlan(ops), ids, before, r.db)
    && (forall ref :: ref in r.seenEdges <==> ref in EdgePlan(ops))
  }

  lemma DrawnNothing(org: Org, source: string, before: Db, r: Run)
    requires Valid(before) && r.db == before && r.seenEdges == []
    ensures Drawn(org, source, [], before, r.ids, r)
  {
    hide Valid;
  }

  lemma DrawnOneMore(org: Org, source: string, ops: seq<Op>, before: Db, ids: map<string, Id>, r: Run, w: EdgeWrite)
    requires Drawn(org, source, ops, before, ids, r) && w.srcRef in ids && w.dstRef in ids
    requires forall ref | ref in ids :: ids[ref] in before.assets
    ensures Drawn(org, source, ops + [PutEdge(w)], before, ids, StepEdge(org, source, r, w))
  {
    hide Valid, Resolved, EdgesAfter, EdgeSlot, StepEdge, EdgePlan;
    StepEdgeKeepsValid(org, source, r, w);
    StepEdgePuts(org, source, r, w);
    PutEdgeEdges(org, source, EdgePlan(ops), ids, before, r.db, w, EdgeSlot(r.db, org, Origin(source, w.ref)),
                 StepEdge(org, source, r, w).db);
    StepEdgeRest(org, source, r, w);
    PlanSnoc(ops, PutEdge(w));
  }

  lemma StepEdgeRest(org: Org, source: string, r: Run, w: EdgeWrite)
    requires w.srcRef in r.ids && w.dstRef in r.ids
    ensures var n := StepEdge(org, source, r, w);
            n.ids == r.ids && n.db.assets == r.db.assets && n.seenEdges == r.seenEdges + [w.ref] && r.db.next <= n.db.next
  {
    hide EdgeSlot, Redrawn, NewEdge, CountEdge;
  }
}
