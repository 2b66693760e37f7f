/** Playing a plan against the database, one upsert at a time, and what the tables look like
    afterwards. */
module CatalogRun {
  import opened Options
  import opened Graph
  import opened CatalogPlan

  datatype Tally = Tally(frameworks: nat, requirements: nat, controls: nat, crosswalks: nat,
                         assetsCreated: nat, assetsUpdated: nat, edgesCreated: nat, edgesUpdated: nat)

  // The transaction's working state: the tables, `asset_ids`, the two seen lists, the counters.
  datatype Run = Run(db: Db, ids: map<string, Id>, seenAssets: seq<string>, seenEdges: seq<string>, tally: Tally)

  const NO_TALLY := Tally(0, 0, 0, 0, 0, 0, 0, 0)

  function Start(db: Db): Run { Run(db, map[], [], [], NO_TALLY) }

  // `DO UPDATE SET` leaves type, status, owner and origin of the row alone.
  function Restamped(a: Asset, w: AssetWrite): Asset {
    a.(name := w.name, description := w.description, metadata := w.metadata)
  }

  function NewAsset(org: Org, source: string, w: AssetWrite): Asset {
    Asset(org, w.kind, w.name, w.description, "active", None, w.metadata, Some(Origin(source, w.ref)))
  }

  function Redrawn(e: Edge, w: EdgeWrite, src: Id, dst: Id): Edge {
    e.(src := src, dst := dst, kind := w.kind, description := w.description)
  }

  function NewEdge(org: Org, source: string, w: EdgeWrite, src: Id, dst: Id): Edge {
    Edge(org, src, dst, w.kind, w.description, Some(Origin(source, w.ref)))
  }

  function CountAsset(t: Tally, kind: string, inserted: bool): Tally {
    var t := if inserted then t.(assetsCreated := t.assetsCreated + 1) else t.(assetsUpdated := t.assetsUpdated + 1);
    if kind == "framework" then t.(frameworks := t.frameworks + 1)
    else if kind == "requirement" then t.(requirements := t.requirements + 1)
    else if kind == "control" then t.(controls := t.controls + 1) else t
  }

  function CountEdge(t: Tally, kind: string, inserted: bool): Tally {
    var t := if inserted then t.(edgesCreated := t.edgesCreated + 1) else t.(edgesUpdated := t.edgesUpdated + 1);
    if kind == "cross_maps" then t.(crosswalks := t.crosswalks + 1) else t
  }

  ghost function StepAsset(org: Org, source: string, r: Run, w: AssetWrite): Run {
    var id := AssetSlot(r.db, org, Origin(source, w.ref));
    var found := id in r.db.assets;
    var row := if found then Restamped(r.db.assets[id], w) else NewAsset(org, source, w);
    Run(r.db.(assets := r.db.assets[id := row], next := if found then r.db.next else r.db.next + 1),
        r.ids[w.ref := id], r.seenAssets + [w.ref], r.seenEdges, CountAsset(r.tally, w.kind, !found))
  }

  ghost function StepEdge(org: Org, source: string, r: Run, w: EdgeWrite): Run {
    if w.srcRef !in r.ids || w.dstRef !in r.ids then r else
    var src, dst := r.ids[w.srcRef], r.ids[w.dstRef];
    var id := EdgeSlot(r.db, org, Origin(source, w.ref));
    var found := id in r.db.edges;
    var row := if found then Redrawn(r.db.edges[id], w, src, dst) else NewEdge(org, source, w, src, dst);
    r.(db := r.db.(edges := r.db.edges[id := row], next := if found then r.db.next else r.db.next + 1),
       seenEdges := r.seenEdges + [w.ref], tally := CountEdge(r.tally, w.kind, !found))
  }

  ghost function Step(org: Org, source: string, r: Run, op: Op): Run {
    match op
    case PutAsset(w) => StepAsset(org, source, r, w)
    case PutEdge(w) => StepEdge(org, source, r, w)
  }

  ghost function Play(org: Org, source: string, r: Run, ops: seq<Op>): Run {
    if ops == [] then r else Step(org, source, Play(org, source, r, ops[..|ops|-1]), ops[|ops|-1])
  }

  /*************** the projection a plan denotes ***************/

  // Last write wins per ref.
  function AssetPlan(ops: seq<Op>): map<string, AssetWrite> {
    if ops == [] then map[] else
    var m, op := AssetPlan(ops[..|ops|-1]), ops[|ops|-1];
    if op.PutAsset? then m[op.asset.ref := op.asset] else m
  }

  function EdgePlan(ops: seq<Op>): map<string, EdgeWrite> {
    if ops == [] then map[] else
    var m, op := EdgePlan(ops[..|ops|-1]), ops[|ops|-1];
    if op.PutEdge? then m[op.edge.ref := op.edge] else m
  }

  /*************** the tables after a run ***************/

  // What a run makes of a row that was there before.
  function AssetBecomes(org: Org, source: string, plan: map<string, AssetWrite>, a: Asset): Asset {
    if OwnsAsset(org, source, a) && a.origin.value.ref in plan then Restamped(a, plan[a.origin.value.ref]) else a
  }

  ghost predicate AssetsAfter(org: Org, source: string, plan: map<string, AssetWrite>, before: Db, after: Db) {
    && (forall i | i in before.assets :: i in after.assets &&
          after.assets[i] == AssetBecomes(org, source, plan, before.assets[i]))
    && (forall i | i in after.assets && i !in before.assets :: AssetIsNew(org, source, plan, before, after.assets[i]))
    && (forall ref | ref in plan :: HasAsset(after, org, source, ref))
  }

  ghost predicate AssetIsNew(org: Org, source: string, plan: map<string, AssetWrite>, before: Db, a: Asset) {
    && a.origin.Some? && a.origin.value.ref in plan
    && a == NewAsset(org, source, plan[a.origin.value.ref])
    && !HasAsset(before, org, source, a.origin.value.ref)
  }

  ghost predicate HasAsset(db: Db, org: Org, source: string, ref: string) {
    exists i :: i in db.assets && AssetKeyed(org, Origin(source, ref), db.assets[i])
  }

  ghost predicate HasEdge(db: Db, org: Org, source: string, ref: string) {
    exists i :: i in db.edges && EdgeKeyed(org, Origin(source, ref), db.edges[i])
  }

  // Every planned edge has both ends among the run's assets.
  ghost predicate Resolved(ids: map<string, Id>, plan: map<string, EdgeWrite>) {
    forall ref | ref in plan :: plan[ref].srcRef in ids && plan[ref].dstRef in ids
  }

  function EdgeBecomes(org: Org, source: string, plan: map<string, EdgeWrite>, ids: map<string, Id>, e: Edge): Edge
    requires forall ref | ref in plan :: plan[ref].srcRef in ids && plan[ref].dstRef in ids
  {
    if OwnsEdge(org, source, e) && e.origin.value.ref in plan
    then var w := plan[e.origin.value.ref]; Redrawn(e, w, ids[w.srcRef], ids[w.dstRef]) else e
  }

  ghost predicate EdgeIsNew(org: Org, source: string, plan: map<string, EdgeWrite>, ids: map<string, Id>, before: Db, e: Edge)
    requires Resolved(ids, plan)
  {
    && e.origin.Some? && e.origin.value.ref in plan
    && (var w := plan[e.origin.value.ref]; e == NewEdge(org, source, w, ids[w.srcRef], ids[w.dstRef]))
    && !HasEdge(before, org, source, e.origin.value.ref)
  }

  ghost predicate EdgesAfter(org: Org, source: string, plan: map<string, EdgeWrite>, ids: map<string, Id>, before: Db, after: Db)
    requires Resolved(ids, plan)
  {
    && (forall i | i in before.edges :: i in after.edges &&
          after.edges[i] == EdgeBecomes(org, source, plan, ids, before.edges[i]))
    && (forall i | i in after.edges && i !in before.edges :: EdgeIsNew(org, source, plan, ids, before, after.edges[i]))
    && (forall ref | ref in plan :: HasEdge(after, org, source, ref))
  }

  // `asset_ids` names, for each ref written, the row that holds it.
  ghost predicate IdsName(org: Org, source: string, plan: map<string, AssetWrite>, r: Run) {
    && r.ids.Keys == plan.Keys
    && forall ref | ref in r.ids :: r.ids[ref] in r.db.assets && AssetKeyed(org, Origin(source, ref), r.db.assets[r.ids[ref]])
  }

  ghost predicate SeenAre(aplan: map<string, AssetWrite>, eplan: map<string, EdgeWrite>, r: Run) {
    && (forall ref :: ref in r.seenAssets <==> ref in aplan)
    && (forall ref :: ref in r.seenEdges <==> ref in eplan)
  }

  function AssetOps(ops: seq<Op>): nat {
    if ops == [] then 0 else AssetOps(ops[..|ops|-1]) + if ops[|ops|-1].PutAsset? then 1 else 0
  }

  // Rows created are exactly the growth of the tables, and every upsert is counted once.
  ghost predicate TallyIs(before: Db, ops: seq<Op>, r: Run) {
    && r.tally.assetsCreated == |r.db.assets| - |before.assets|
    && r.tally.assetsCreated + r.tally.assetsUpdated == AssetOps(ops)
    && r.tally.edgesCreated == |r.db.edges| - |before.edges|
    && r.tally.edgesCreated + r.tally.edgesUpdated == |ops| - AssetOps(ops)
    && r.db.next == before.next + r.tally.assetsCreated + r.tally.edgesCreated
  }

  ghost predicate Played(org: Org, source: string, before: Db, ops: seq<Op>, r: Run) {
    && Valid(r.db)
    && before.next <= r.db.next
    && IdsName(org, source, AssetPlan(ops), r)
    && SeenAre(AssetPlan(ops), EdgePlan(ops), r)
    && Resolved(r.ids, EdgePlan(ops))
    && AssetsAfter(org, source, AssetPlan(ops), before, r.db)
    && EdgesAfter(org, source, EdgePlan(ops), r.ids, before, r.db)
    && TallyIs(before, ops, r)
  }

  lemma AssetSlotIs(db: Db, org: Org, o: Origin)
    requires Valid(db)
    ensures var i := AssetSlot(db, org, o);
            if i in db.assets then AssetKeyed(org, o, db.assets[i])
            else i == db.next && forall k | k in db.assets :: !AssetKeyed(org, o, db.assets[k])
  {}

  lemma EdgeSlotIs(db: Db, org: Org, o: Origin)
    requires Valid(db)
    ensures var i := EdgeSlot(db, org, o);
            if i in db.edges then EdgeKeyed(org, o, db.edges[i])
            else i == db.next && forall k | k in db.edges :: !EdgeKeyed(org, o, db.edges[k])
  {}

  // The conflict lookup of `ON CONFLICT (organization_id, source, source_ref)`.
  method FindAsset(db: Db, org: Org, o: Origin) returns (found: bool, id: Id)
    requires Valid(db)
    ensures id == AssetSlot(db, org, o) && found == (id in db.assets)
  {
    AssetSlotIs(db, org, o);
    if i :| i in db.assets && AssetKeyed(org, o, db.assets[i]) {
      found, id := true, i;
    } else {
      found, id := false, db.next;
    }
  }

  method FindEdge(db: Db, org: Org, o: Origin) returns (found: bool, id: Id)
    requires Valid(db)
    ensures id == EdgeSlot(db, org, o) && found == (id in db.edges)
  {
    EdgeSlotIs(db, org, o);
    if i :| i in db.edges && EdgeKeyed(org, o, db.edges[i]) {
      found, id := true, i;
    } else {
      found, id := false, db.next;
    }
  }

  lemma StepAssetKeepsValid(org: Org, source: string, r: Run, w: AssetWrite)
    requires Valid(r.db)
    ensures Valid(StepAsset(org, source, r, w).db)
  {
    AssetSlotIs(r.db, org, Origin(source, w.ref));
  }

  lemma StepEdgeKeepsValid(org: Org, source: string, r: Run, w: EdgeWrite)
    requires Valid(r.db)
    requires forall ref | ref in r.ids :: r.ids[ref] in r.db.assets
    ensures Valid(StepEdge(org, source, r, w).db)
  {
    EdgeSlotIs(r.db, org, Origin(source, w.ref));
  }

  // `after` is `db` with row `id` written by one asset upsert.
  ghost predicate AssetPut(org: Org, source: string, db: Db, w: AssetWrite, id: Id, after: Db) {
    if id in db.assets
    then AssetKeyed(org, Origin(source, w.ref), db.assets[id]) &&
         after.assets == db.assets[id := Restamped(db.assets[id], w)]
    else !HasAsset(db, org, source, w.ref) &&
         after.assets == db.assets[id := NewAsset(org, source, w)]
  }

  lemma StepAssetPuts(org: Org, source: string, r: Run, w: AssetWrite)
    requires Valid(r.db)
    ensures AssetPut(org, source, r.db, w, AssetSlot(r.db, org, Origin(source, w.ref)), StepAsset(org, source, r, w).db)
    ensures AssetSlot(r.db, org, Origin(source, w.ref)) !in r.db.assets ==> AssetSlot(r.db, org, Origin(source, w.ref)) == r.db.next
  {
    AssetSlotIs(r.db, org, Origin(source, w.ref));
  }

  lemma OldAssetRow(org: Org, source: string, plan: map<string, AssetWrite>, before: Db, db: Db, w: AssetWrite, id: Id, after: Db, i: Id)
    requires UniqueAssets(db.assets) && w.ref !in plan && AssetPut(org, source, db, w, id, after)
    requires i in before.assets && i in db.assets && db.assets[i] == AssetBecomes(org, source, plan, before.assets[i])
    ensures i in after.assets && after.assets[i] == AssetBecomes(org, source, plan[w.ref := w], before.assets[i])
  {
  }

  lemma NewAssetRow(org: Org, source: string, plan: map<string, AssetWrite>, before: Db, db: Db, w: AssetWrite, id: Id, after: Db, i: Id)
    requires w.ref !in plan && AssetPut(org, source, db, w, id, after)
    requires i in after.assets && i !in before.assets
    requires i in db.assets ==> AssetIsNew(org, source, plan, before, db.assets[i])
    requires HasAsset(before, org, source, w.ref) ==> HasAsset(db, org, source, w.ref)
    ensures AssetIsNew(org, source, plan[w.ref := w], before, after.assets[i])
  {}

  lemma CoveredAsset(org: Org, source: string, db: Db, w: AssetWrite, id: Id, after: Db, ref: string)
    requires AssetPut(org, source, db, w, id, after)
    requires ref == w.ref || HasAsset(db, org, source, ref)
    ensures HasAsset(after, org, source, ref)
  {
    if ref == w.ref {
      assert AssetKeyed(org, Origin(source, ref), after.assets[id]);
    } else {
      var k :| k in db.assets && AssetKeyed(org, Origin(source, ref), db.assets[k]);
      assert AssetKeyed(org, Origin(source, ref), after.assets[k]);
    }
  }

  lemma AssetsKeep(org: Org, source: string, plan: map<string, AssetWrite>, before: Db, db: Db, ref: string)
    requires forall i | i in before.assets :: i in db.assets && db.assets[i] == AssetBecomes(org, source, plan, before.assets[i])
    requires HasAsset(before, org, source, ref)
    ensures HasAsset(db, org, source, ref)
  {
    var k :| k in before.assets && AssetKeyed(org, Origin(source, ref), before.assets[k]);
    assert AssetKeyed(org, Origin(source, ref), db.assets[k]);
  }

  lemma PutAssetAssets(org: Org, source: string, plan: map<string, AssetWrite>, before: Db, db: Db, w: AssetWrite, id: Id, after: Db)
    requires Valid(db) && w.ref !in plan && AssetPut(org, source, db, w, id, after)
    requires AssetsAfter(org, source, plan, before, db)
    ensures AssetsAfter(org, source, plan[w.ref := w], before, after)
  {
    var plan' := plan[w.ref := w];
    forall i | i in before.assets
      ensures i in after.assets && after.assets[i] == AssetBecomes(org, source, plan', before.assets[i])
    {
      OldAssetRow(org, source, plan, before, db, w, id, after, i);
    }
    forall i | i in after.assets && i !in before.assets ensures AssetIsNew(org, source, plan', before, after.assets[i]) {
      if HasAsset(before, org, source, w.ref) { AssetsKeep(org, source, plan, before, db, w.ref); }
      NewAssetRow(org, source, plan, before, db, w, id, after, i);
    }
    forall ref | ref in plan' ensures HasAsset(after, org, source, ref) {
      CoveredAsset(org, source, db, w, id, after, ref);
    }
  }

  lemma StepAssetIds(org: Org, source: string, plan: map<string, AssetWrite>, r: Run, w: AssetWrite)
    requires Valid(r.db) && IdsName(org, source, plan, r) && w.ref !in plan
    ensures IdsName(org, source, plan[w.ref := w], StepAsset(org, source, r, w))
    ensures forall ref | ref in r.ids :: StepAsset(org, source, r, w).ids[ref] == r.ids[ref]
  {
    AssetSlotIs(r.db, org, Origin(source, w.ref));
  }

  // `after` is `db` with row `id` written by one edge upsert.
  ghost predicate EdgePut(org: Org, source: string, db: Db, w: EdgeWrite, src: Id, dst: Id, id: Id, after: Db) {
    if id in db.edges
    then EdgeKeyed(org, Origin(source, w.ref), db.edges[id]) &&
         after.edges == db.edges[id := Redrawn(db.edges[id], w, src, dst)]
    else !HasEdge(db, org, source, w.ref) &&
         after.edges == db.edges[id := NewEdge(org, source, w, src, dst)]
  }

  lemma StepEdgePuts(org: Org, source: string, r: Run, w: EdgeWrite)
    requires Valid(r.db) && w.srcRef in r.ids && w.dstRef in r.ids
    ensures EdgePut(org, source, r.db, w, r.ids[w.srcRef], r.ids[w.dstRef],
                    EdgeSlot(r.db, org, Origin(source, w.ref)), StepEdge(org, source, r, w).db)
  {
    EdgeSlotIs(r.db, org, Origin(source, w.ref));
  }

  lemma OldEdgeRow(org: Org, source: string, plan: map<string, EdgeWrite>, ids: map<string, Id>, before: Db, db: Db,
                   w: EdgeWrite, id: Id, after: Db, i: Id)
    requires Resolved(ids, plan) && w.srcRef in ids && w.dstRef in ids
    requires UniqueEdges(db.edges) && EdgePut(org, source, db, w, ids[w.srcRef], ids[w.dstRef], id, after)
    requires i in before.edges && i in db.edges && db.edges[i] == EdgeBecomes(org, source, plan, ids, before.edges[i])
    ensures Resolved(ids, plan[w.ref := w])
    ensures i in after.edges && after.edges[i] == EdgeBecomes(org, source, plan[w.ref := w], ids, before.edges[i])
  {
    if i != id && EdgeKeyed(org, Origin(source, w.ref), before.edges[i]) {
      assert EdgeKeyed(org, Origin(source, w.ref), db.edges[i]);
    }
  }

  lemma NewEdgeRow(org: Org, source: string, plan: map<string, EdgeWrite>, ids: map<string, Id>, before: Db, db: Db,
                   w: EdgeWrite, id: Id, after: Db, i: Id)
    requires Resolved(ids, plan) && Resolved(ids, plan[w.ref := w]) && w.srcRef in ids && w.dstRef in ids
    requires UniqueEdges(db.edges) && EdgePut(org, source, db, w, ids[w.srcRef], ids[w.dstRef], id, after)
    requires i in after.edges && i !in before.edges
    requires i in db.edges ==> EdgeIsNew(org, source, plan, ids, before, db.edges[i])
    requires HasEdge(before, org, source, w.ref) ==> HasEdge(db, org, source, w.ref)
    ensures EdgeIsNew(org, source, plan[w.ref := w], ids, before, after.edges[i])
  {
    if i != id && EdgeKeyed(org, Origin(source, w.ref), db.edges[i]) {
      assert HasEdge(db, org, source, w.ref);
    }
  }

  lemma CoveredEdge(org: Org, source: string, db: Db, w: EdgeWrite, src: Id, dst: Id, id: Id, after: Db, ref: string)
    requires EdgePut(org, source, db, w, src, dst, id, after)
    requires ref == w.ref || HasEdge(db, org, source, ref)
    ensures HasEdge(after, org, source, ref)
  {
    if ref == w.ref {
      assert EdgeKeyed(org, Origin(source, ref), after.edges[id]);
    } else {
      var k :| k in db.edges && EdgeKeyed(org, Origin(source, ref), db.edges[k]);
      assert EdgeKeyed(org, Origin(source, ref), after.edges[k]);
    }
  }

  lemma EdgesKeep(org: Org, source: string, plan: map<string, EdgeWrite>, ids: map<string, Id>, before: Db, db: Db, ref: string)
    requires Resolved(ids, plan)
    requires forall i | i in before.edges :: i in db.edges && db.edges[i] == EdgeBecomes(org, source, plan, ids, before.edges[i])
    requires HasEdge(before, org, source, ref)
    ensures HasEdge(db, org, source, ref)
  {
    var k :| k in before.edges && EdgeKeyed(org, Origin(source, ref), before.edges[k]);
    assert EdgeKeyed(org, Origin(source, ref), db.edges[k]);
  }

  lemma PutEdgeEdges(org: Org, source: string, plan: map<string, EdgeWrite>, ids: map<string, Id>, before: Db, db: Db,
                     w: EdgeWrite, id: Id, after: Db)
    requires Resolved(ids, plan) && w.srcRef in ids && w.dstRef in ids
    requires Valid(db) && EdgePut(org, source, db, w, ids[w.srcRef], ids[w.dstRef], id, after)
    requires EdgesAfter(org, source, plan, ids, before, db)
    ensures Resolved(ids, plan[w.ref := w])
    ensures EdgesAfter(org, source, plan[w.ref := w], ids, before, after)
  {
    hide UniqueAssets, UniqueEdges, NoDangling, IdsBelow, EdgeIsNew, EdgeBecomes, HasEdge, EdgePut;
    var plan' := plan[w.ref := w];
    forall i | i in before.edges
      ensures i in after.edges && after.edges[i] == EdgeBecomes(org, source, plan', ids, before.edges[i])
    {
      OldEdgeRow(org, source, plan, ids, before, db, w, id, after, i);
    }
    if HasEdge(before, org, source, w.ref) { EdgesKeep(org, source, plan, ids, before, db, w.ref); }
    forall i | i in after.edges && i !in before.edges ensures EdgeIsNew(org, source, plan', ids, before, after.edges[i]) {
      NewEdgeRow(org, source, plan, ids, before, db, w, id, after, i);
    }
    forall ref | ref in plan' ensures HasEdge(after, org, source, ref) {
      CoveredEdge(org, source, db, w, ids[w.srcRef], ids[w.dstRef], id, after, ref);
    }
  }

  lemma PlanSnoc(ops: seq<Op>, op: Op)
    ensures AssetPlan(ops + [op]) == (if op.PutAsset? then AssetPlan(ops)[op.asset.ref := op.asset] else AssetPlan(ops))
    ensures EdgePlan(ops + [op]) == (if op.PutEdge? then EdgePlan(ops)[op.edge.ref := op.edge] else EdgePlan(ops))
    ensures AssetOps(ops + [op]) == AssetOps(ops) + if op.PutAsset? then 1 else 0
  {
    assert (ops + [op])[..|ops|] == ops;
  }

  lemma StepAssetTally(org: Org, source: string, before: Db, ops: seq<Op>, r: Run, w: AssetWrite)
    requires TallyIs(before, ops, r)
    ensures TallyIs(before, ops + [PutAsset(w)], StepAsset(org, source, r, w))
  {
    hide AssetSlot, Restamped, NewAsset;
    PlanSnoc(ops, PutAsset(w));
  }

  lemma StepEdgeTally(org: Org, source: string, before: Db, ops: seq<Op>, r: Run, w: EdgeWrite)
    requires TallyIs(before, ops, r) && w.srcRef in r.ids && w.dstRef in r.ids
    ensures TallyIs(before, ops + [PutEdge(w)], StepEdge(org, source, r, w))
  {
    hide EdgeSlot, Redrawn, NewEdge;
    PlanSnoc(ops, PutEdge(w));
  }

  lemma StepAssetSeen(org: Org, source: string, aplan: map<string, AssetWrite>, eplan: map<string, EdgeWrite>, r: Run, w: AssetWrite)
    requires SeenAre(aplan, eplan, r)
    ensures SeenAre(aplan[w.ref := w], eplan, StepAsset(org, source, r, w))
  {
    hide AssetSlot, Restamped, NewAsset;
  }

  lemma StepEdgeSeen(org: Org, source: string, aplan: map<string, AssetWrite>, eplan: map<string, EdgeWrite>, r: Run, w: EdgeWrite)
    requires SeenAre(aplan, eplan, r) && w.srcRef in r.ids && w.dstRef in r.ids
    ensures SeenAre(aplan, eplan[w.ref := w], StepEdge(org, source, r, w))
  {
    hide EdgeSlot, Redrawn, NewEdge;
  }

  // Resolving the same refs to the same ids, the same edges are accounted for.
  lemma EdgesAfterExtends(org: Org, source: string, plan: map<string, EdgeWrite>, ids: map<string, Id>, more: map<string, Id>,
                          before: Db, db: Db, after: Db)
    requires Resolved(ids, plan) && EdgesAfter(org, source, plan, ids, before, db)
    requires forall ref | ref in ids :: ref in more && more[ref] == ids[ref]
    requires after.edges == db.edges
    ensures Resolved(more, plan) && EdgesAfter(org, source, plan, more, before, after)
  {
    hide HasEdge;
    forall i | i in before.edges
      ensures after.edges[i] == EdgeBecomes(org, source, plan, more, before.edges[i])
    {
      assert db.edges[i] == EdgeBecomes(org, source, plan, ids, before.edges[i]);
    }
    forall i | i in after.edges && i !in before.edges ensures EdgeIsNew(org, source, plan, more, before, after.edges[i]) {
      assert EdgeIsNew(org, source, plan, ids, before, db.edges[i]);
    }
    forall ref | ref in plan ensures HasEdge(after, org, source, ref) { SameEdges(org, source, db, after, ref); }
  }

  lemma SameEdges(org: Org, source: string, db: Db, after: Db, ref: string)
    requires after.edges == db.edges && HasEdge(db, org, source, ref)
    ensures HasEdge(after, org, source, ref)
  {}

  lemma StepAssetLeavesEdges(org: Org, source: string, plan: map<string, EdgeWrite>, before: Db, r: Run, w: AssetWrite)
    requires Resolved(r.ids, plan) && EdgesAfter(org, source, plan, r.ids, before, r.db) && w.ref !in r.ids
    ensures Resolved(StepAsset(org, source, r, w).ids, plan)
    ensures EdgesAfter(org, source, plan, StepAsset(org, source, r, w).ids, before, StepAsset(org, source, r, w).db)
  {
    hide AssetSlot, Restamped, NewAsset, EdgesAfter;
    var r' := StepAsset(org, source, r, w);
    EdgesAfterExtends(org, source, plan, r.ids, r'.ids, before, r.db, r'.db);
  }

  lemma StepEdgeLeavesAssets(org: Org, source: string, plan: map<string, AssetWrite>, before: Db, r: Run, w: EdgeWrite)
    requires w.srcRef in r.ids && w.dstRef in r.ids
    requires IdsName(org, source, plan, r) && AssetsAfter(org, source, plan, before, r.db)
    ensures StepEdge(org, source, r, w).ids == r.ids && StepEdge(org, source, r, w).db.assets == r.db.assets
    ensures IdsName(org, source, plan, StepEdge(org, source, r, w))
    ensures AssetsAfter(org, source, plan, before, StepEdge(org, source, r, w).db)
  {
    hide EdgeSlot, Redrawn, NewEdge;
    var r' := StepEdge(org, source, r, w);
    forall ref | ref in plan ensures HasAsset(r'.db, org, source, ref) {
      assert HasAsset(r.db, org, source, ref);
    }
  }

  lemma PlayedParts(org: Org, source: string, before: Db, ops: seq<Op>, r: Run)
    requires Played(org, source, before, ops, r)
    ensures Valid(r.db) && before.next <= r.db.next
    ensures IdsName(org, source, AssetPlan(ops), r) && r.ids.Keys == AssetPlan(ops).Keys
    ensures SeenAre(AssetPlan(ops), EdgePlan(ops), r)
    ensures Resolved(r.ids, EdgePlan(ops))
    ensures AssetsAfter(org, source, AssetPlan(ops), before, r.db)
    ensures EdgesAfter(org, source, EdgePlan(ops), r.ids, before, r.db)
    ensures TallyIs(before, ops, r)
    ensures forall ref | ref in r.ids :: r.ids[ref] in r.db.assets
  {
    hide Valid, AssetsAfter, EdgesAfter, TallyIs, SeenAre, Resolved;
  }

  lemma NextGrows(org: Org, source: string, r: Run, op: Op)
    ensures r.db.next <= Step(org, source, r, op).db.next
  {}

  lemma StepAssetPlayed(org: Org, source: string, before: Db, ops: seq<Op>, r: Run, w: AssetWrite)
    requires Played(org, source, before, ops, r) && w.ref !in AssetPlan(ops)
    ensures Played(org, source, before, ops + [PutAsset(w)], Step(org, source, r, PutAsset(w)))
  {
    hide Valid, IdsName, AssetsAfter, EdgesAfter, TallyIs, SeenAre, Resolved, AssetSlot, StepAsset, AssetPlan, EdgePlan, UniqueAssets;
    PlayedParts(org, source, before, ops, r);
    NextGrows(org, source, r, PutAsset(w));
    StepAssetKeepsValid(org, source, r, w);
    StepAssetIds(org, source, AssetPlan(ops), r, w);
    StepAssetPuts(org, source, r, w);
    PutAssetAssets(org, source, AssetPlan(ops), before, r.db, w, AssetSlot(r.db, org, Origin(source, w.ref)),
                   StepAsset(org, source, r, w).db);
    StepAssetTally(org, source, before, ops, r, w);
    StepAssetSeen(org, source, AssetPlan(ops), EdgePlan(ops), r, w);
    StepAssetLeavesEdges(org, source, EdgePlan(ops), before, r, w);
    PlanSnoc(ops, PutAsset(w));
  }

  lemma StepEdgePlayed(org: Org, source: string, before: Db, ops: seq<Op>, r: Run, w: EdgeWrite)
    requires Played(org, source, before, ops, r) && w.srcRef in AssetPlan(ops) && w.dstRef in AssetPlan(ops)
    ensures Played(org, source, before, ops + [PutEdge(w)], Step(org, source, r, PutEdge(w)))
  {
    hide Valid, IdsName, AssetsAfter, EdgesAfter, TallyIs, SeenAre, Resolved, EdgeSlot, StepEdge, AssetPlan, EdgePlan, UniqueEdges;
    PlayedParts(org, source, before, ops, r);
    NextGrows(org, source, r, PutEdge(w));
    StepEdgeKeepsValid(org, source, r, w);
    StepEdgePuts(org, source, r, w);
    PutEdgeEdges(org, source, EdgePlan(ops), r.ids, before, r.db, w, EdgeSlot(r.db, org, Origin(source, w.ref)),
                 StepEdge(org, source, r, w).db);
    StepEdgeTally(org, source, before, ops, r, w);
    StepEdgeSeen(org, source, AssetPlan(ops), EdgePlan(ops), r, w);
    StepEdgeLeavesAssets(org, source, AssetPlan(ops), before, r, w);
    PlanSnoc(ops, PutEdge(w));
  }

  lemma {:induction false} AssetPlanKeys(ops: seq<Op>, ref: string)
    ensures ref in AssetPlan(ops) <==> WrittenBefore(ops, |ops|, ref)
  {
    if ops != [] {
      var n := |ops| - 1;
      AssetPlanKeys(ops[..n], ref);
      if WrittenBefore(ops[..n], n, ref) {
        var i :| 0 <= i < n && ops[..n][i].PutAsset? && ops[..n][i].asset.ref == ref;
        assert ops[i] == ops[..n][i];
      }
      if WrittenBefore(ops, |ops|, ref) {
        var i :| 0 <= i < |ops| && ops[i].PutAsset? && ops[i].asset.ref == ref;
        if i < n { assert ops[..n][i] == ops[i]; }
      }
    }
  }

  lemma RunnablePrefix(ops: seq<Op>)
    requires Runnable(ops) && ops != []
    ensures Runnable(ops[..|ops|-1])
    ensures ops[|ops|-1].PutAsset? ==> ops[|ops|-1].asset.ref !in AssetPlan(ops[..|ops|-1])
    ensures ops[|ops|-1].PutEdge? ==> ops[|ops|-1].edge.srcRef in AssetPlan(ops[..|ops|-1]) &&
                                      ops[|ops|-1].edge.dstRef in AssetPlan(ops[..|ops|-1])
  {
    var n := |ops| - 1;
    var init := ops[..n];
    forall k, ref | 0 <= k <= n && WrittenBefore(ops, k, ref) ensures WrittenBefore(init, k, ref) {
      var i :| 0 <= i < k && i < |ops| && ops[i].PutAsset? && ops[i].asset.ref == ref;
      assert init[i] == ops[i];
    }
    if ops[n].PutAsset? {
      AssetPlanKeys(init, ops[n].asset.ref);
    } else {
      AssetPlanKeys(init, ops[n].edge.srcRef);
      AssetPlanKeys(init, ops[n].edge.dstRef);
    }
  }

  lemma PlaySnoc(org: Org, source: string, r: Run, ops: seq<Op>, op: Op)
    ensures Play(org, source, r, ops + [op]) == Step(org, source, Play(org, source, r, ops), op)
  {
    hide Step;
    assert (ops + [op])[..|ops|] == ops;
  }

  lemma StartPlayed(org: Org, source: string, before: Db)
    requires Valid(before)
    ensures Played(org, source, before, [], Play(org, source, Start(before), []))
  {
    hide Valid, Step;
  }

  /** Playing a runnable plan from any valid database: every row is accounted for. */
  lemma {:induction false} PlayIsPlayed(org: Org, source: string, before: Db, ops: seq<Op>)
    requires Valid(before) && Runnable(ops)
    ensures Played(org, source, before, ops, Play(org, source, Start(before), ops))
  {
    hide *;
    if ops == [] {
      StartPlayed(org, source, before);
    } else {
      var n := |ops| - 1;
      RunnablePrefix(ops);
      PlayIsPlayed(org, source, before, ops[..n]);
      var r := Play(org, source, Start(before), ops[..n]);
      PlaySnoc(org, source, Start(before), ops[..n], ops[n]);
      assert ops == ops[..n] + [ops[n]];
      match ops[n]
      case PutAsset(w) => StepAssetPlayed(org, source, before, ops[..n], r, w);
      case PutEdge(w) => StepEdgePlayed(org, source, before, ops[..n], r, w);
    }
  }
}
