/** `sync_inventory`: one transaction that upserts the listed CIs, draws their dependencies, sweeps the stale
    ones and archives what a carried class no longer lists. */
module InventorySync {
  import opened Options
  import opened Graph
  import opened CatalogDocument
  import opened CatalogPlan
  import opened CatalogRun
  import opened ExternalSync
  import opened InventoryPlan

  datatype Counts = Counts(created: nat, updated: nat, archived: nat)
  datatype SyncResult = SyncResult(errors: seq<Fault>, systems: Counts, devices: Counts, dependencyEdges: nat,
                                   edgesPruned: nat, stale: set<string>, dryRun: bool)

  const NO_COUNTS := Counts(0, 0, 0)

  function PlanFor(org: Org, before: Db, inv: Inventory): map<string, Write> { PlanOf(Writes(before, org, Cis(inv))) }
  function EdgePlanFor(inv: Inventory): map<string, EdgeWrite> { EdgePlan(DependencyOps(Cis(inv), CiIds(Cis(inv)))) }

  // The classes whose missing rows are archived: those the inventory carries a list of.
  function CarriedKinds(inv: Inventory, archive: bool): set<string>
    requires inv.Inventory?
  {
    if !archive then {} else (if inv.systems.Some? then {SYSTEM} else {}) + if inv.devices.Some? then {DEVICE} else {}
  }

  function RetirementFor(inv: Inventory, archive: bool): Retirement
    requires inv.Inventory?
  {
    Retirement(CarriedKinds(inv, archive), map[])
  }

  // `ci_to_asset` names the row of every listed CI.
  ghost predicate CiRows(org: Org, source: string, ls: seq<Listed>, db: Db, cis: map<string, Id>) {
    && cis.Keys == CiIds(ls)
    && forall l | l in ls :: l.ci.id in cis && cis[l.ci.id] in db.assets &&
                             AssetKeyed(org, Origin(source, RefOf(l)), db.assets[cis[l.ci.id]])
  }

  /** What a run makes of the database, committed or not. */
  ghost predicate Effect(org: Org, source: string, inv: Inventory, archive: bool, before: Db, after: Db, cis: map<string, Id>) {
    && inv.Inventory?
    && Valid(after) && Classed(org, source, after) && before.next <= after.next
    && AssetsSynced(org, source, RetirementFor(inv, archive), PlanFor(org, before, inv), before, after)
    && CiRows(org, source, Cis(inv), after, cis)
    && Resolved(cis, EdgePlanFor(inv))
    && EdgesSynced(org, source, EdgePlanFor(inv), cis, Some(cis.Values), before, after)
  }

  /*************** distinct refs ***************/

  lemma {:induction false} ListedKinds(kind: string, items: seq<Entry<Ci>>)
    ensures forall l | l in ListedOf(kind, items) :: l.kind == kind
  {
    if items != [] { ListedKinds(kind, items[..|items| - 1]); }
  }

  lemma CisKinds(inv: Inventory)
    ensures forall i | 0 <= i < |Cis(inv)| :: Cis(inv)[i].kind in {SYSTEM, DEVICE}
  {
    if inv.Inventory? {
      ListedKinds(SYSTEM, Entries(inv.systems));
      ListedKinds(DEVICE, Entries(inv.devices));
      hide ListedOf, Entries;
      forall i | 0 <= i < |Cis(inv)| ensures Cis(inv)[i].kind in {SYSTEM, DEVICE} {
        var (a, b) := (ListedOf(SYSTEM, Entries(inv.systems)), ListedOf(DEVICE, Entries(inv.devices)));
        assert Cis(inv)[i] == if i < |a| then a[i] else b[i - |a|];
      }
    }
  }

  ghost predicate DistinctCis(ls: seq<Listed>) { forall i, j | 0 <= i < j < |ls| :: ls[i].ci.id != ls[j].ci.id }

  lemma {:induction false} ListedAre(kind: string, items: seq<Entry<Ci>>)
    requires forall i | 0 <= i < |items| :: items[i].Object?
    ensures |ListedOf(kind, items)| == |items|
    ensures forall i | 0 <= i < |items| :: ListedOf(kind, items)[i] == Listed(kind, items[i].value)
  {
    if items != [] { ListedAre(kind, items[..|items| - 1]); }
  }

  lemma UsableDistinct(inv: Inventory)
    requires Usable(inv)
    ensures DistinctCis(Cis(inv))
  {
    var (s, d) := (Entries(inv.systems), Entries(inv.devices));
    EntriesAre(s, {});
    EntriesAre(d, IdsOf(s));
    ListedAre(SYSTEM, s);
    ListedAre(DEVICE, d);
    assert Cis(inv) == ListedOf(SYSTEM, s) + ListedOf(DEVICE, d);
    hide *;
    DistinctApart(ListedOf(SYSTEM, s), s);
    DistinctApart(ListedOf(DEVICE, d), d);
    forall i, j | 0 <= i < |s| && 0 <= j < |d| ensures ListedOf(SYSTEM, s)[i].ci.id != ListedOf(DEVICE, d)[j].ci.id {
      assert s[i].value.id in IdsOf(s) && d[j].value.id !in IdsOf(s);
    }
    DistinctBoth(ListedOf(SYSTEM, s), ListedOf(DEVICE, d));
  }

  lemma DistinctApart(ls: seq<Listed>, items: seq<Entry<Ci>>)
    requires |ls| == |items| && forall i | 0 <= i < |items| :: items[i].Object? && ls[i].ci == items[i].value
    requires forall i, j | 0 <= i < j < |items| :: items[i].value.id != items[j].value.id
    ensures DistinctCis(ls)
  {}

  lemma DistinctBoth(a: seq<Listed>, b: seq<Listed>)
    requires DistinctCis(a) && DistinctCis(b)
    requires forall i, j | 0 <= i < |a| && 0 <= j < |b| :: a[i].ci.id != b[j].ci.id
    ensures DistinctCis(a + b)
  {}

  lemma EntriesAre(items: seq<Entry<Ci>>, taken: set<string>)
    requires EntriesOk(items, taken)
    ensures forall i | 0 <= i < |items| :: items[i].Object? && items[i].value.id !in taken && items[i].value.id in IdsOf(items)
    ensures forall i, j | 0 <= i < j < |items| :: items[i].value.id != items[j].value.id
  {
    assert forall i | 0 <= i < |items| :: EntryOk(items[i]);
  }

  // Different ids make different refs.
  lemma RefApart(a: Listed, b: Listed)
    requires a.kind in {SYSTEM, DEVICE} && b.kind in {SYSTEM, DEVICE} && a.ci.id != b.ci.id
    ensures RefOf(a) != RefOf(b)
  {
    if a.kind == b.kind {
      assert RefOf(a)[|a.kind| + 1..] == a.ci.id && RefOf(b)[|b.kind| + 1..] == b.ci.id;
    } else {
      assert RefOf(a)[0] == a.kind[0] && RefOf(b)[0] == b.kind[0];
    }
  }

  lemma {:induction false} PlanKeys(before: Db, org: Org, ls: seq<Listed>, ref: string)
    ensures ref in PlanOf(Writes(before, org, ls)) <==> exists l :: l in ls && RefOf(l) == ref
  {
    hide WriteOf, RefOf;
    if ls != [] {
      var n := |ls| - 1;
      PlanKeys(before, org, ls[..n], ref);
      WritesSnoc(before, org, ls);
      assert WriteOf(before, org, ls[n]).ref == RefOf(ls[n]) by { WriteRef(before, org, ls[n]); }
      assert ls == ls[..n] + [ls[n]];
      assert forall l :: l in ls <==> l in ls[..n] || l == ls[n];
    }
  }

  lemma WriteRef(before: Db, org: Org, l: Listed)
    ensures WriteOf(before, org, l).ref == RefOf(l)
  {
  }

  /*************** owners do not move ***************/

  lemma {:induction false} FirstNamedSame(a: map<Id, Asset>, b: map<Id, Asset>, org: Org, name: string, start: Id, end: Id, later: Id)
    requires end <= later
    requires forall i | i in a && start <= i && CanOwn(org, name, a[i]) :: i < end && i in b && CanOwn(org, name, b[i])
    requires forall i | i in b && start <= i && CanOwn(org, name, b[i]) :: i in a && CanOwn(org, name, a[i])
    ensures FirstNamed(b, org, name, start, later) == FirstNamed(a, org, name, start, end)
    decreases later - start
  {
    if start < later && !(start in b && CanOwn(org, name, b[start])) {
      FirstNamedSame(a, b, org, name, start + 1, if start < end then end else start + 1, later);
    }
  }

  // Neither an upsert nor a retirement of classed rows makes or unmakes a possible owner.
  lemma OwnersStay(org: Org, source: string, r: Retirement, plan: map<string, Write>, before: Db, after: Db, name: string)
    requires IdsBelow(before) && Classed(org, source, before) && ClassPlan(plan) && before.next <= after.next
    requires r.kinds <= {SYSTEM, DEVICE}
    requires forall i | i in before.assets :: i in after.assets && after.assets[i] == Synced(org, source, r, plan, before.assets[i])
    requires forall i | i in after.assets && i !in before.assets :: IsNew(org, source, plan, before, after.assets[i])
    ensures OwnerIn(after, org, name) == OwnerIn(before, org, name)
  {
    hide HasAsset;
    forall i | i in before.assets ensures CanOwn(org, name, after.assets[i]) <==> CanOwn(org, name, before.assets[i]) {
      OwnerRowStays(org, source, r, plan, before.assets[i], name);
    }
    forall i | i in after.assets && i !in before.assets ensures !CanOwn(org, name, after.assets[i]) {
      assert IsNew(org, source, plan, before, after.assets[i]);
    }
    hide CanOwn, Synced, IsNew;
    if name != "" { FirstNamedSame(before.assets, after.assets, org, name, 0, before.next, after.next); }
  }

  lemma OwnerRowStays(org: Org, source: string, r: Retirement, plan: map<string, Write>, a: Asset, name: string)
    requires ClassPlan(plan) && (OwnsAsset(org, source, a) ==> ClassedRow(a))
    requires r.kinds <= {SYSTEM, DEVICE}
    ensures CanOwn(org, name, Synced(org, source, r, plan, a)) <==> CanOwn(org, name, a)
  {
    if Planned(org, source, plan, a) { PlannedKind(org, source, plan, a); }
  }

  /*************** the upserts, one CI at a time ***************/

  ghost predicate Progress(org: Org, source: string, before: Db, ls: seq<Listed>, db: Db, ids: map<string, Id>, cis: map<string, Id>) {
    Projects(org, source, PlanOf(Writes(before, org, ls)), before, db, ids) && SameRows(ls, ids, cis)
  }

  // `cis` names by CI id the rows that `ids` names by ref.
  ghost predicate SameRows(ls: seq<Listed>, ids: map<string, Id>, cis: map<string, Id>) {
    && cis.Keys == CiIds(ls)
    && forall l | l in ls :: RefOf(l) in ids && l.ci.id in cis && cis[l.ci.id] == ids[RefOf(l)]
  }

  lemma SameRowsOneMore(before: Db, org: Org, ls: seq<Listed>, ids: map<string, Id>, cis: map<string, Id>, l: Listed, id: Id)
    requires Known(ls + [l]) && SameRows(ls, ids, cis)
    ensures SameRows(ls + [l], ids[RefOf(l) := id], cis[l.ci.id := id])
  {
    NewRef(before, org, ls, l);
    CiIdsSnoc(ls, l);
    RowsOneMore(ls, ids, cis, l, id);
  }

  lemma RowsOneMore(ls: seq<Listed>, ids: map<string, Id>, cis: map<string, Id>, l: Listed, id: Id)
    requires SameRows(ls, ids, cis) && CiIds(ls + [l]) == CiIds(ls) + {l.ci.id}
    requires forall x | x in ls :: x.ci.id != l.ci.id && RefOf(x) != RefOf(l)
    ensures SameRows(ls + [l], ids[RefOf(l) := id], cis[l.ci.id := id])
  {
    hide RefOf, CiIds;
    assert forall x :: x in ls + [l] <==> x in ls || x == l;
  }

  ghost predicate Known(ls: seq<Listed>) { DistinctCis(ls) && forall i | 0 <= i < |ls| :: ls[i].kind in {SYSTEM, DEVICE} }

  lemma NewRef(before: Db, org: Org, ls: seq<Listed>, l: Listed)
    requires Known(ls + [l])
    ensures Known(ls) && l.kind in {SYSTEM, DEVICE} && RefOf(l) !in PlanOf(Writes(before, org, ls)) && l.ci.id !in CiIds(ls)
    ensures forall x | x in ls :: x.ci.id != l.ci.id && RefOf(x) != RefOf(l)
  {
    var all := ls + [l];
    assert all[|ls|] == l && forall i | 0 <= i < |ls| :: all[i] == ls[i];
    hide RefOf, Writes, PlanOf;
    forall x | x in ls ensures x.ci.id != l.ci.id && RefOf(x) != RefOf(l) {
      var i :| 0 <= i < |ls| && ls[i] == x;
      assert all[i].ci.id != all[|ls|].ci.id;
      RefApart(x, l);
    }
    PlanKeys(before, org, ls, RefOf(l));
  }

  // The write without its owner, then the owner: the same as the write.
  lemma PutThenOwner(org: Org, source: string, db: Db, w: Write)
    ensures var (id, d) := (AssetSlot(db, org, Origin(source, w.ref)), Put(org, source, db, w.(owner := None)));
            id in d.assets && Put(org, source, db, w) ==
              if w.owner.Some? then d.(assets := d.assets[id := d.assets[id].(owner := w.owner)]) else d
  {
    hide AssetSlot;
    var id := AssetSlot(db, org, Origin(source, w.ref));
    var d := Put(org, source, db, w.(owner := None));
    if w.owner.Some? {
      var row := if id in db.assets then Projected(db.assets[id], w) else Created(org, source, w);
      assert d.assets[id].(owner := w.owner) == row;
      assert d.assets[id := row] == db.assets[id := row];
    } else {
      assert w.(owner := None) == w;
    }
  }

  lemma UpsertedIsSynced(org: Org, source: string, plan: map<string, Write>, a: Asset)
    ensures Upserted(org, source, plan, a) == Synced(org, source, Retirement({}, map[]), plan, a)
  {
  }

  lemma OwnerFound(org: Org, source: string, before: Db, ls: seq<Listed>, db: Db, ids: map<string, Id>, l: Listed)
    requires Valid(before) && Classed(org, source, before) && Known(ls + [l])
    requires Projects(org, source, PlanOf(Writes(before, org, ls)), before, db, ids)
    ensures OwnerIn(Put(org, source, db, WriteOf(before, org, l).(owner := None)), org, l.ci.owner) == OwnerIn(before, org, l.ci.owner)
    ensures OwnerIn(before, org, l.ci.owner).Some? ==> OwnerIn(before, org, l.ci.owner).value in db.assets
  {
    var w := WriteOf(before, org, l).(owner := None);
    var plan := PlanOf(Writes(before, org, ls));
    NewRef(before, org, ls, l);
    WritesAreClassed(before, org, ls);
    PrefixOfRef(before, org, l);
    WriteRef(before, org, l);
    hide WriteOf, RefOf, Writes, PlanOf;
    ProjectsOneMore(org, source, plan, before, db, ids, w);
    var d := Put(org, source, db, w);
    hide Put, AssetSlot, OwnerIn, Upserted, Synced, Names;
    forall i | i in before.assets
      ensures i in d.assets && d.assets[i] == Synced(org, source, Retirement({}, map[]), plan[w.ref := w], before.assets[i])
    {
      UpsertedIsSynced(org, source, plan[w.ref := w], before.assets[i]);
    }
    OwnersStay(org, source, Retirement({}, map[]), plan[w.ref := w], before, d, l.ci.owner);
    assert before.assets.Keys <= db.assets.Keys;
    OwnerExists(before, org, l.ci.owner);
  }

  lemma OwnerExists(db: Db, org: Org, name: string)
    ensures OwnerIn(db, org, name).Some? ==> OwnerIn(db, org, name).value in db.assets
  {
  }

  lemma ProgressOneMore(org: Org, source: string, before: Db, ls: seq<Listed>, db: Db, ids: map<string, Id>, cis: map<string, Id>, l: Listed)
    requires Valid(before) && Classed(org, source, before) && Known(ls + [l])
    requires Progress(org, source, before, ls, db, ids, cis)
    ensures var (w, id) := (WriteOf(before, org, l), AssetSlot(db, org, Origin(source, RefOf(l))));
            Progress(org, source, before, ls + [l], Put(org, source, db, w), ids[RefOf(l) := id], cis[l.ci.id := id])
    ensures AssetSlot(db, org, Origin(source, RefOf(l))) in db.assets <==> HasAsset(before, org, source, RefOf(l))
  {
    NewRef(before, org, ls, l);
    OwnerFound(org, source, before, ls, db, ids, l);
    WriteRef(before, org, l);
    WriteOwner(before, org, l);
    FoundIff(org, source, PlanOf(Writes(before, org, ls)), before, db, ids, RefOf(l));
    SameRowsOneMore(before, org, ls, ids, cis, l, AssetSlot(db, org, Origin(source, RefOf(l))));
    hide Put, AssetSlot, OwnerIn, WriteOf, RefOf, Writes, PlanOf, Known, Projects, Valid, Classed, SameRows;
    ProjectsOneMore(org, source, PlanOf(Writes(before, org, ls)), before, db, ids, WriteOf(before, org, l));
    assert (ls + [l])[..|ls|] == ls;
    WritesSnoc(before, org, ls + [l]);
  }

  lemma WriteOwner(db: Db, org: Org, l: Listed)
    ensures WriteOf(db, org, l).owner == OwnerIn(db, org, l.ci.owner)
  {
  }

  lemma CiIdsSnoc(ls: seq<Listed>, l: Listed)
    ensures CiIds(ls + [l]) == CiIds(ls) + {l.ci.id}
  {
    var all := ls + [l];
    assert all[|ls|] == l && forall i | 0 <= i < |ls| :: all[i] == ls[i];
    forall x | x in CiIds(ls) ensures x in CiIds(all) {
      var i :| 0 <= i < |ls| && ls[i].ci.id == x;
      assert all[i].ci.id == x;
    }
    assert all[|ls|].ci.id in CiIds(all);
  }

  lemma FoundIff(org: Org, source: string, plan: map<string, Write>, before: Db, db: Db, ids: map<string, Id>, ref: string)
    requires Projects(org, source, plan, before, db, ids) && ref !in plan
    ensures AssetSlot(db, org, Origin(source, ref)) in db.assets <==> HasAsset(before, org, source, ref)
  {
    AssetSlotIs(db, org, Origin(source, ref));
    if HasAsset(before, org, source, ref) { StillHas(org, source, plan, before, db, ref); }
    var k := AssetSlot(db, org, Origin(source, ref));
    if k in db.assets { UnplannedIsOld(org, source, plan, before, db, ids, ref, k); }
  }

  lemma UnplannedIsOld(org: Org, source: string, plan: map<string, Write>, before: Db, db: Db, ids: map<string, Id>, ref: string, k: Id)
    requires Projects(org, source, plan, before, db, ids) && ref !in plan
    requires k in db.assets && AssetKeyed(org, Origin(source, ref), db.assets[k])
    ensures HasAsset(before, org, source, ref)
  {
    hide Valid;
    assert k in before.assets;
    assert AssetKeyed(org, Origin(source, ref), before.assets[k]);
  }
}
