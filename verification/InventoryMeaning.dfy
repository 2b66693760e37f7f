/** What a run leaves of every CI and every dependency an inventory lists, in the inventory's own fields. */
module InventoryMeaning {
  import opened Options
  import opened Graph
  import opened CatalogDocument
  import opened CatalogPlan
  import opened CatalogRun
  import opened ExternalSync
  import opened InventoryPlan
  import opened InventorySync
  import Meaning = CatalogMeaning

  /*************** the statement ***************/

  // One of the five words for a CI that is gone, in any mixture of upper and lower case.
  predicate Decommissioned(status: string) {
    || Spells(status, "inactive") || Spells(status, "decommissioned") || Spells(status, "retired")
    || Spells(status, "archived") || Spells(status, "disposed")
  }

  predicate Spells(s: string, word: string) {
    |s| == |word| && forall i | 0 <= i < |s| :: s[i] == word[i] || ('A' <= s[i] <= 'Z' && s[i] as int + 32 == word[i] as int)
  }

  // The custom fields of each class.
  predicate FieldOf(kind: string, k: string) {
    if kind == "system"
    then k in {"hostname", "ip_address", "fqdn", "cloud_resource_id", "environment", "hosting", "provider", "region",
               "criticality", "data_classification", "url"}
    else k in {"device_type", "manufacturer", "model", "os", "ip_address", "serial_number", "location", "cmdb_link"}
  }

  // The external id, given or the CI's own, and the given fields of the class.
  ghost predicate MetaOf(meta: Meta, kind: string, ci: Ci) {
    && "external_id" in meta
    && meta["external_id"] == (if "external_id" in ci.attrs && ci.attrs["external_id"] != "" then ci.attrs["external_id"] else ci.id)
    && (forall k | k != "external_id" :: k in meta <==> FieldOf(kind, k) && k in ci.attrs && ci.attrs[k] != "")
    && (forall k | k in meta && k != "external_id" :: meta[k] == ci.attrs[k])
  }

  // A person or unit the CI names as its owner.
  predicate Names(before: Db, org: Org, ci: Ci, p: Id) {
    && ci.owner != "" && p in before.assets && before.assets[p].org == org
    && before.assets[p].kind in {"person", "organizational_unit"} && before.assets[p].name == ci.owner
  }

  ghost predicate OwnerOf(owner: Option<Id>, was: Option<Id>, before: Db, org: Org, ci: Ci) {
    if p :| Names(before, org, ci, p)
    then owner.Some? && Names(before, org, ci, owner.value) && forall q | Names(before, org, ci, q) :: owner.value <= q
    else owner == was
  }

  ghost predicate CiShown(org: Org, source: string, before: Db, after: Db, kind: string, ci: Ci) {
    exists i :: CiRow(org, source, before, after, kind, ci, i)
  }

  ghost predicate CiRow(org: Org, source: string, before: Db, after: Db, kind: string, ci: Ci, i: Id) {
    && i in after.assets
    && var a := after.assets[i];
       && a.org == org && a.origin == Some(Origin(source, kind + ":" + ci.id)) && a.kind == kind
       && Meaning.Fitted(a.name, ci.name) && a.description == ci.description
       && a.status in {"archived", "active"} && (a.status == "archived" <==> Decommissioned(ci.status))
       && MetaOf(a.metadata, kind, ci)
       && (i in before.assets ==> before.assets[i].origin == a.origin)
       && OwnerOf(a.owner, if i in before.assets then before.assets[i].owner else None, before, org, ci)
  }

  // The inventory lists this CI, as a system or as a device.
  predicate Lists(inv: Inventory, kind: string, ci: Ci) {
    inv.Inventory? && ((kind == "system" && Object(ci) in Entries(inv.systems)) || (kind == "device" && Object(ci) in Entries(inv.devices)))
  }

  // A dependency on another listed CI.
  ghost predicate Depends(inv: Inventory, ci: Ci, dep: string) {
    && (exists kind :: Lists(inv, kind, ci)) && dep in ci.dependsOn && dep != ci.id
    && exists kind, other :: Lists(inv, kind, other) && other.id == dep
  }

  // The row of a listed CI with this id.
  ghost predicate IsRowOf(inv: Inventory, org: Org, source: string, after: Db, i: Id, id: string) {
    i in after.assets && exists kind, ci :: Lists(inv, kind, ci) && ci.id == id && AssetKeyed(org, Origin(source, kind + ":" + id), after.assets[i])
  }

  ghost predicate DependencyAt(inv: Inventory, org: Org, source: string, after: Db, e: Id, ci: Ci, dep: string) {
    && e in after.edges && after.edges[e].kind == "depends_on" && after.edges[e].description == ""
    && EdgeKeyed(org, Origin(source, "depends_on:" + ci.id + ":" + dep), after.edges[e])
    && IsRowOf(inv, org, source, after, after.edges[e].src, ci.id) && IsRowOf(inv, org, source, after, after.edges[e].dst, dep)
  }

  // No other dependency of the inventory spells this one's ref.
  ghost predicate Alone(inv: Inventory, ci: Ci, dep: string) {
    forall c, d | Depends(inv, c, d) && "depends_on:" + c.id + ":" + d == "depends_on:" + ci.id + ":" + dep :: c.id == ci.id && d == dep
  }

  ghost predicate DependenciesShown(inv: Inventory, org: Org, source: string, before: Db, after: Db) {
    && (forall e | e in after.edges && OwnsEdge(org, source, after.edges[e]) ::
          || (e in before.edges && after.edges[e] == before.edges[e] && forall id :: !IsRowOf(inv, org, source, after, after.edges[e].src, id))
          || (exists ci, dep :: Depends(inv, ci, dep) && DependencyAt(inv, org, source, after, e, ci, dep)))
    && (forall ci, dep | Depends(inv, ci, dep) && Alone(inv, ci, dep) :: exists e :: DependencyAt(inv, org, source, after, e, ci, dep))
  }

  // A row the inventory does not list stays as it was, but for the archiving of the source's own rows of a carried class.
  ghost predicate OthersShown(inv: Inventory, org: Org, source: string, archive: bool, before: Db, after: Db) {
    inv.Inventory? && forall i | i in before.assets && !(exists kind, ci :: ListedAt(inv, org, source, before, i, kind, ci)) ::
      i in after.assets &&
      after.assets[i] == if archive && OwnsAsset(org, source, before.assets[i]) &&
                            ((before.assets[i].kind == "system" && inv.systems.Some?) || (before.assets[i].kind == "device" && inv.devices.Some?))
                         then before.assets[i].(status := "archived") else before.assets[i]
  }

  predicate ListedAt(inv: Inventory, org: Org, source: string, before: Db, i: Id, kind: string, ci: Ci) {
    i in before.assets && Lists(inv, kind, ci) && AssetKeyed(org, Origin(source, kind + ":" + ci.id), before.assets[i])
  }

  /** What a run shows of the inventory: every listed CI, every dependency, and nothing else. */
  ghost predicate Shows(inv: Inventory, org: Org, source: string, archive: bool, before: Db, after: Db) {
    && (forall kind, ci | Lists(inv, kind, ci) :: CiShown(org, source, before, after, kind, ci))
    && DependenciesShown(inv, org, source, before, after)
    && OthersShown(inv, org, source, archive, before, after)
  }

  /*************** what the plan asks for ***************/

  // The run draws this dependency: both CIs are listed and different.
  predicate Draws(l: Listed, dep: string, known: set<string>) { dep in l.ci.dependsOn && dep != l.ci.id && dep in known }

  lemma {:induction false} OnePlanned(l: Listed, deps: seq<string>, known: set<string>)
    requires forall d | d in deps :: d in l.ci.dependsOn
    ensures forall i | 0 <= i < |OneCiOps(l.ci.id, deps, known)| ::
      var op := OneCiOps(l.ci.id, deps, known)[i]; op.PutEdge? && exists dep :: op.edge == DependsOn(l.ci.id, dep) && Draws(l, dep, known)
    ensures forall d | d in deps && Draws(l, d, known) :: PutEdge(DependsOn(l.ci.id, d)) in OneCiOps(l.ci.id, deps, known)
  {
    hide DependsRef;
    if deps != [] {
      var d, ops := deps[|deps| - 1], OneCiOps(l.ci.id, deps[..|deps| - 1], known);
      OnePlanned(l, deps[..|deps| - 1], known);
      assert d in deps;
      var all := OneCiOps(l.ci.id, deps, known);
      assert forall op | op in ops :: op in all;
      if Draws(l, d, known) { assert all[|ops|] == PutEdge(DependsOn(l.ci.id, d)); }
      assert deps == deps[..|deps| - 1] + [d];
    }
  }

  lemma {:induction false} AllPlanned(ls: seq<Listed>, known: set<string>, i: nat)
    requires i < |DependencyOps(ls, known)|
    ensures var op := DependencyOps(ls, known)[i];
            op.PutEdge? && exists l, dep :: l in ls && op.edge == DependsOn(l.ci.id, dep) && Draws(l, dep, known)
  {
    hide DependsOn, OneCiOps, Draws;
    var n := |ls| - 1;
    var init := DependencyOps(ls[..n], known);
    if i < |init| {
      AllPlanned(ls[..n], known, i);
      var l, dep :| l in ls[..n] && init[i].edge == DependsOn(l.ci.id, dep) && Draws(l, dep, known);
      assert l in ls;
    } else {
      OnePlanned(ls[n], ls[n].ci.dependsOn, known);
      var op := OneCiOps(ls[n].ci.id, ls[n].ci.dependsOn, known)[i - |init|];
      var dep :| op.edge == DependsOn(ls[n].ci.id, dep) && Draws(ls[n], dep, known);
      assert ls[n] in ls;
    }
  }

  lemma {:induction false} DrawnIsPlanned(ls: seq<Listed>, known: set<string>, l: Listed, dep: string)
    requires l in ls && Draws(l, dep, known)
    ensures PutEdge(DependsOn(l.ci.id, dep)) in DependencyOps(ls, known)
  {
    hide DependsOn, OneCiOps;
    var n := |ls| - 1;
    assert ls == ls[..n] + [ls[n]];
    if l in ls[..n] {
      DrawnIsPlanned(ls[..n], known, l, dep);
    } else {
      OnePlanned(ls[n], ls[n].ci.dependsOn, known);
    }
  }

  lemma {:induction false} PutIsPlanned(ops: seq<Op>, op: Op)
    requires op in ops && op.PutEdge?
    ensures op.edge.ref in EdgePlan(ops)
  {
    var n := |ops| - 1;
    assert ops == ops[..n] + [ops[n]];
    if op in ops[..n] { PutIsPlanned(ops[..n], op); }
  }

  lemma {:induction false} EdgePlanRef(ops: seq<Op>, ref: string)
    requires ref in EdgePlan(ops)
    ensures exists i :: 0 <= i < |ops| && ops[i].PutEdge? && ops[i].edge.ref == ref && ops[i].edge == EdgePlan(ops)[ref]
  {
    var n := |ops| - 1;
    if ops[n].PutEdge? && ops[n].edge.ref == ref {
    } else {
      EdgePlanRef(ops[..n], ref);
      var i :| 0 <= i < n && ops[..n][i].PutEdge? && ops[..n][i].edge.ref == ref && ops[..n][i].edge == EdgePlan(ops[..n])[ref];
      assert ops[i] == ops[..n][i];
    }
  }

  // Some listed CI has a drawn dependency that spells this ref.
  ghost predicate Spelled(inv: Inventory, ref: string) {
    exists l, dep :: l in Cis(inv) && Draws(l, dep, CiIds(Cis(inv))) && ref == DependsRef(l.ci.id, dep)
  }

  lemma PlannedIffSpelled(inv: Inventory, ref: string)
    ensures ref in EdgePlanFor(inv) <==> Spelled(inv, ref)
  {
    var (ls, known) := (Cis(inv), CiIds(Cis(inv)));
    var ops := DependencyOps(ls, known);
    hide Cis, CiIds, DependencyOps, Draws;
    if ref in EdgePlanFor(inv) {
      EdgePlanRef(ops, ref);
      var i :| 0 <= i < |ops| && ops[i].PutEdge? && ops[i].edge.ref == ref;
      AllPlanned(ls, known, i);
      var l, dep :| l in ls && ops[i].edge == DependsOn(l.ci.id, dep) && Draws(l, dep, known);
      assert ref == DependsRef(l.ci.id, dep);
    }
    if Spelled(inv, ref) {
      var l, dep :| l in ls && Draws(l, dep, known) && ref == DependsRef(l.ci.id, dep);
      DrawnIsPlanned(ls, known, l, dep);
      PutIsPlanned(ops, PutEdge(DependsOn(l.ci.id, dep)));
    }
  }

  lemma {:induction false} InListedOf(kind: string, items: seq<Entry<Ci>>, l: Listed)
    ensures l in ListedOf(kind, items) <==> l.kind == kind && Object(l.ci) in items
  {
    if items != [] {
      var n := |items| - 1;
      InListedOf(kind, items[..n], l);
      assert items == items[..n] + [items[n]];
    }
  }

  lemma ListsIff(inv: Inventory, kind: string, ci: Ci)
    ensures Lists(inv, kind, ci) <==> Listed(kind, ci) in Cis(inv)
  {
    if inv.Inventory? {
      InListedOf(SYSTEM, Entries(inv.systems), Listed(kind, ci));
      InListedOf(DEVICE, Entries(inv.devices), Listed(kind, ci));
    }
  }

  lemma {:induction false} LowerAt(s: string)
    ensures |Lower(s)| == |s|
    ensures forall i | 0 <= i < |s| :: Lower(s)[i] == if 'A' <= s[i] <= 'Z' then (s[i] as int + 32) as char else s[i]
  {
    if s != "" { LowerAt(s[1..]); }
  }

  lemma LowerSpells(s: string, word: string)
    requires forall i | 0 <= i < |word| :: 'a' <= word[i] <= 'z'
    ensures Lower(s) == word <==> Spells(s, word)
  {
    LowerAt(s);
    hide Lower;
    if Spells(s, word) {
      forall i | 0 <= i < |s| ensures Lower(s)[i] == word[i] {}
    }
  }

  lemma StatusShown(ci: Ci)
    ensures StatusOf(ci) in {"archived", "active"} && (StatusOf(ci) == "archived" <==> Decommissioned(ci.status))
  {
    LowerSpells(ci.status, "inactive");
    LowerSpells(ci.status, "decommissioned");
    LowerSpells(ci.status, "retired");
    LowerSpells(ci.status, "archived");
    LowerSpells(ci.status, "disposed");
    hide Lower, Spells;
    assert "archived" != "active" by { assert "archived"[1] == 'r' && "active"[1] == 'c'; }
  }

  lemma MetadataShown(kind: string, ci: Ci)
    requires kind in {SYSTEM, DEVICE}
    ensures MetaOf(MetadataOf(Listed(kind, ci)), kind, ci)
  {
    FieldsAre(kind);
    hide FieldOf, SYSTEM_FIELDS, DEVICE_FIELDS;
  }

  lemma FieldsAre(kind: string)
    requires kind in {SYSTEM, DEVICE}
    ensures forall k :: k in (if kind == SYSTEM then SYSTEM_FIELDS else DEVICE_FIELDS) <==> FieldOf(kind, k)
    ensures !FieldOf(kind, "external_id")
  {}

  lemma {:induction false} FirstNamedIs(assets: map<Id, Asset>, org: Org, name: string, start: Id, end: Id)
    ensures var r := FirstNamed(assets, org, name, start, end);
            && (r.Some? ==> start <= r.value < end)
            && forall q | start <= q < end && (r.None? || q < r.value) :: !(q in assets && CanOwn(org, name, assets[q]))
    decreases end - start
  {
    if start < end && !(start in assets && CanOwn(org, name, assets[start])) { FirstNamedIs(assets, org, name, start + 1, end); }
  }

  lemma OwnerShown(before: Db, org: Org, ci: Ci, was: Option<Id>)
    requires IdsBelow(before)
    ensures var w := OwnerIn(before, org, ci.owner); OwnerOf(if w.Some? then w else was, was, before, org, ci)
  {
    if ci.owner != "" { FirstNamedIs(before.assets, org, ci.owner, 0, before.next); }
    hide FirstNamed;
    var w := OwnerIn(before, org, ci.owner);
    if w.Some? { assert Names(before, org, ci, w.value); }
  }

  lemma {:induction false} PlanEntry(before: Db, org: Org, ls: seq<Listed>, l: Listed)
    requires Known(ls) && l in ls
    ensures RefOf(l) in PlanOf(Writes(before, org, ls)) && PlanOf(Writes(before, org, ls))[RefOf(l)] == WriteOf(before, org, l)
  {
    hide *;
    var n := |ls| - 1;
    WritesSnoc(before, org, ls);
    WriteRef(before, org, ls[n]);
    if l != ls[n] {
      KnownLast(ls, l);
      PlanEntry(before, org, ls[..n], l);
    }
  }

  lemma KnownLast(ls: seq<Listed>, l: Listed)
    requires Known(ls) && l in ls && l != ls[|ls| - 1]
    ensures Known(ls[..|ls| - 1]) && l in ls[..|ls| - 1] && RefOf(l) != RefOf(ls[|ls| - 1])
  {
    hide RefOf;
    var i :| 0 <= i < |ls| && ls[i] == l;
    assert ls[..|ls| - 1][i] == l;
    RefApart(l, ls[|ls| - 1]);
  }

  lemma KindRef(l: Listed)
    requires l.kind in {SYSTEM, DEVICE}
    ensures RefOf(l) == l.kind + ":" + l.ci.id && l.kind + ":" <= RefOf(l)
  {
    assert RefOf(l) == (l.kind + ":") + l.ci.id;
  }

  /*************** the proof ***************/

  lemma CiIsShown(org: Org, source: string, inv: Inventory, archive: bool, before: Db, after: Db, cis: map<string, Id>, l: Listed)
    requires IdsBelow(before) && Known(Cis(inv)) && l in Cis(inv) && Effect(org, source, inv, archive, before, after, cis)
    ensures CiShown(org, source, before, after, l.kind, l.ci)
  {
    PlanEntry(before, org, Cis(inv), l);
    KindRef(l);
    CisKind(inv, l);
    hide Cis, Writes, PlanOf, WriteOf, RefOf, EdgesSynced, CiRows, EdgePlanFor, Known, CiRow, Valid, RetirementFor, Classed;
    var i := SyncedRow(org, source, RetirementFor(inv, archive), PlanFor(org, before, inv), before, after, RefOf(l));
    CiRowIs(org, source, before, after, l, WriteOf(before, org, l), i);
  }

  lemma CisKind(inv: Inventory, l: Listed)
    requires l in Cis(inv)
    ensures l.kind in {SYSTEM, DEVICE}
  {
    CisKinds(inv);
    hide Cis;
  }

  // The row of a planned ref after a run.
  lemma SyncedRow(org: Org, source: string, r: Retirement, plan: map<string, Write>, before: Db, after: Db, ref: string) returns (i: Id)
    requires AssetsSynced(org, source, r, plan, before, after) && ref in plan
    ensures i in after.assets && AssetKeyed(org, Origin(source, ref), after.assets[i])
    ensures if i in before.assets then OwnsAsset(org, source, before.assets[i]) && after.assets[i] == Projected(before.assets[i], plan[ref])
            else after.assets[i] == Created(org, source, plan[ref])
  {
    assert HasAsset(after, org, source, ref);
    i :| i in after.assets && AssetKeyed(org, Origin(source, ref), after.assets[i]);
    hide HasAsset;
    if i in before.assets {
      assert after.assets[i] == Synced(org, source, r, plan, before.assets[i]);
    } else {
      assert IsNew(org, source, plan, before, after.assets[i]);
    }
  }

  // A planned edge after a run.
  lemma SyncedEdge(org: Org, source: string, plan: map<string, EdgeWrite>, cis: map<string, Id>, scope: Option<set<Id>>, before: Db, after: Db, e: Id)
    requires Resolved(cis, plan) && EdgesSynced(org, source, plan, cis, scope, before, after)
    requires e in after.edges && OwnsEdge(org, source, after.edges[e]) && after.edges[e].origin.value.ref in plan
    ensures var (w, edge) := (plan[after.edges[e].origin.value.ref], after.edges[e]);
            edge.src == cis[w.srcRef] && edge.dst == cis[w.dstRef] && edge.kind == w.kind && edge.description == w.description
  {
    hide HasEdge;
    if e !in before.edges { assert EdgeIsNew(org, source, plan, cis, before, after.edges[e]); }
  }

  lemma NewIsPlanned(org: Org, source: string, plan: map<string, EdgeWrite>, cis: map<string, Id>, scope: Option<set<Id>>, before: Db, after: Db, e: Id)
    requires Resolved(cis, plan) && EdgesSynced(org, source, plan, cis, scope, before, after)
    requires e in after.edges && e !in before.edges && after.edges[e].origin.Some?
    ensures after.edges[e].origin.value.ref in plan
  {
    hide HasEdge;
  }

  lemma CiRowIs(org: Org, source: string, before: Db, after: Db, l: Listed, w: Write, i: Id)
    requires IdsBelow(before) && l.kind in {SYSTEM, DEVICE} && w == WriteOf(before, org, l) && Classed(org, source, after)
    requires i in after.assets && AssetKeyed(org, Origin(source, RefOf(l)), after.assets[i])
    requires if i in before.assets then OwnsAsset(org, source, before.assets[i]) && after.assets[i] == Projected(before.assets[i], w)
             else after.assets[i] == Created(org, source, w)
    ensures CiRow(org, source, before, after, l.kind, l.ci, i)
  {
    KindRef(l);
    Meaning.CutFits(l.ci.name);
    StatusShown(l.ci);
    MetadataShown(l.kind, l.ci);
    OwnerShown(before, org, l.ci, if i in before.assets then before.assets[i].owner else None);
    assert ClassedRow(after.assets[i]);
    hide StatusOf, MetadataOf, OwnerIn, Decommissioned, MetaOf, OwnerOf, Meaning.Fitted, Cut, RefOf;
    assert w.owner == OwnerIn(before, org, l.ci.owner) && w.kind == l.kind && w.status == StatusOf(l.ci);
  }

  lemma EdgeInPlan(inv: Inventory, ref: string) returns (l: Listed, dep: string)
    requires ref in EdgePlanFor(inv)
    ensures l in Cis(inv) && Depends(inv, l.ci, dep) && EdgePlanFor(inv)[ref] == DependsOn(l.ci.id, dep) && ref == DependsRef(l.ci.id, dep)
    ensures dep in CiIds(Cis(inv))
  {
    var (ls, known) := (Cis(inv), CiIds(Cis(inv)));
    var ops := DependencyOps(ls, known);
    EdgePlanRef(ops, ref);
    hide DependencyOps, DependsRef, Cis;
    var i :| 0 <= i < |ops| && ops[i].PutEdge? && ops[i].edge.ref == ref && ops[i].edge == EdgePlan(ops)[ref];
    AllPlanned(ls, known, i);
    l, dep :| l in ls && ops[i].edge == DependsOn(l.ci.id, dep) && Draws(l, dep, known);
    DrawnDepends(inv, l, dep);
  }

  lemma DrawnDepends(inv: Inventory, l: Listed, dep: string)
    requires l in Cis(inv) && Draws(l, dep, CiIds(Cis(inv)))
    ensures Depends(inv, l.ci, dep)
  {
    var ls := Cis(inv);
    var j :| 0 <= j < |ls| && ls[j].ci.id == dep;
    ListsIff(inv, l.kind, l.ci);
    ListsIff(inv, ls[j].kind, ls[j].ci);
    hide Cis, Lists;
    assert Listed(ls[j].kind, ls[j].ci) == ls[j] && Listed(l.kind, l.ci) == l;
    assert Lists(inv, ls[j].kind, ls[j].ci) && Lists(inv, l.kind, l.ci);
  }

  lemma DependsIsDrawn(inv: Inventory, ci: Ci, dep: string) returns (l: Listed)
    requires Depends(inv, ci, dep)
    ensures l in Cis(inv) && l.ci == ci && Draws(l, dep, CiIds(Cis(inv)))
  {
    var kind :| Lists(inv, kind, ci);
    var k, other :| Lists(inv, k, other) && other.id == dep;
    ListsIff(inv, kind, ci);
    ListsIff(inv, k, other);
    l := Listed(kind, ci);
    hide Cis, Lists;
    var j :| 0 <= j < |Cis(inv)| && Cis(inv)[j] == Listed(k, other);
    assert Cis(inv)[j].ci.id in CiIds(Cis(inv));
  }

  // `cis` names the rows of listed CIs.
  lemma CiRowOf(org: Org, source: string, inv: Inventory, after: Db, cis: map<string, Id>, id: string)
    requires CiRows(org, source, Cis(inv), after, cis) && id in CiIds(Cis(inv))
    ensures id in cis && IsRowOf(inv, org, source, after, cis[id], id)
  {
    var j :| 0 <= j < |Cis(inv)| && Cis(inv)[j].ci.id == id;
    var l := Cis(inv)[j];
    ListsIff(inv, l.kind, l.ci);
    hide Cis, Lists;
    assert Listed(l.kind, l.ci) == l && l in Cis(inv) && RefOf(l) == l.kind + ":" + id;
  }

  lemma RowOfIsCi(org: Org, source: string, inv: Inventory, after: Db, cis: map<string, Id>, i: Id, id: string)
    requires UniqueAssets(after.assets) && CiRows(org, source, Cis(inv), after, cis) && IsRowOf(inv, org, source, after, i, id)
    ensures i in cis.Values
  {
    var kind, ci :| Lists(inv, kind, ci) && ci.id == id && AssetKeyed(org, Origin(source, kind + ":" + id), after.assets[i]);
    ListsIff(inv, kind, ci);
    hide Cis, Lists;
    assert RefOf(Listed(kind, ci)) == kind + ":" + id;
  }

  lemma PlannedEdgeIsDrawn(org: Org, source: string, inv: Inventory, before: Db, after: Db, cis: map<string, Id>, e: Id) returns (ci: Ci, dep: string)
    requires CiRows(org, source, Cis(inv), after, cis) && Resolved(cis, EdgePlanFor(inv))
    requires EdgesSynced(org, source, EdgePlanFor(inv), cis, Some(cis.Values), before, after)
    requires e in after.edges && OwnsEdge(org, source, after.edges[e]) && after.edges[e].origin.value.ref in EdgePlanFor(inv)
    ensures Depends(inv, ci, dep) && DependencyAt(inv, org, source, after, e, ci, dep)
    ensures after.edges[e].origin.value.ref == DependsRef(ci.id, dep)
  {
    var ref := after.edges[e].origin.value.ref;
    var l;
    l, dep := EdgeInPlan(inv, ref);
    ci := l.ci;
    hide Cis, EdgePlanFor, CiRows, IsRowOf, Depends, EdgesSynced, Resolved, DependencyAt;
    ListedId(Cis(inv), l);
    CiRowOf(org, source, inv, after, cis, ci.id);
    CiRowOf(org, source, inv, after, cis, dep);
    SyncedEdge(org, source, EdgePlanFor(inv), cis, Some(cis.Values), before, after, e);
    DependencyIs(inv, org, source, after, e, ci, dep);
  }

  lemma ListedId(ls: seq<Listed>, l: Listed)
    requires l in ls
    ensures l.ci.id in CiIds(ls)
  {
    var j :| 0 <= j < |ls| && ls[j] == l;
    assert ls[j].ci.id in CiIds(ls);
  }

  lemma DependencyIs(inv: Inventory, org: Org, source: string, after: Db, e: Id, ci: Ci, dep: string)
    requires e in after.edges && OwnsEdge(org, source, after.edges[e]) && after.edges[e].origin.value.ref == DependsRef(ci.id, dep)
    requires after.edges[e].kind == DependsOn(ci.id, dep).kind && after.edges[e].description == DependsOn(ci.id, dep).description
    requires IsRowOf(inv, org, source, after, after.edges[e].src, ci.id) && IsRowOf(inv, org, source, after, after.edges[e].dst, dep)
    ensures DependencyAt(inv, org, source, after, e, ci, dep)
  {
    hide IsRowOf;
  }

  lemma DependenciesAreShown(org: Org, source: string, inv: Inventory, archive: bool, before: Db, after: Db, cis: map<string, Id>)
    requires Effect(org, source, inv, archive, before, after, cis)
    ensures DependenciesShown(inv, org, source, before, after)
  {
    hide Cis, EdgePlanFor, CiRows, IsRowOf, Depends, AssetsSynced, PlanFor, DependencyAt, Classed;
    forall e | e in after.edges && OwnsEdge(org, source, after.edges[e])
      ensures (e in before.edges && after.edges[e] == before.edges[e] && forall id :: !IsRowOf(inv, org, source, after, after.edges[e].src, id))
              || exists ci, dep :: Depends(inv, ci, dep) && DependencyAt(inv, org, source, after, e, ci, dep)
    {
      EdgeIsShown(org, source, inv, archive, before, after, cis, e);
    }
    forall ci, dep | Depends(inv, ci, dep) && Alone(inv, ci, dep) ensures exists e :: DependencyAt(inv, org, source, after, e, ci, dep) {
      var e := AloneIsDrawn(org, source, inv, archive, before, after, cis, ci, dep);
    }
  }

  lemma EdgeIsShown(org: Org, source: string, inv: Inventory, archive: bool, before: Db, after: Db, cis: map<string, Id>, e: Id)
    requires Effect(org, source, inv, archive, before, after, cis) && e in after.edges && OwnsEdge(org, source, after.edges[e])
    ensures (e in before.edges && after.edges[e] == before.edges[e] && forall id :: !IsRowOf(inv, org, source, after, after.edges[e].src, id))
            || exists ci, dep :: Depends(inv, ci, dep) && DependencyAt(inv, org, source, after, e, ci, dep)
  {
    hide Cis, EdgePlanFor, CiRows, IsRowOf, Depends, AssetsSynced, PlanFor, DependencyAt, Classed, HasEdge;
    if after.edges[e].origin.value.ref in EdgePlanFor(inv) {
      var ci, dep := PlannedEdgeIsDrawn(org, source, inv, before, after, cis, e);
    } else {
      if e !in before.edges { NewIsPlanned(org, source, EdgePlanFor(inv), cis, Some(cis.Values), before, after, e); }
      forall id | IsRowOf(inv, org, source, after, after.edges[e].src, id) ensures after.edges[e].src in cis.Values {
        RowOfIsCi(org, source, inv, after, cis, after.edges[e].src, id);
      }
    }
  }

  lemma AloneIsDrawn(org: Org, source: string, inv: Inventory, archive: bool, before: Db, after: Db, cis: map<string, Id>, ci: Ci, dep: string)
    returns (e: Id)
    requires Effect(org, source, inv, archive, before, after, cis) && Depends(inv, ci, dep) && Alone(inv, ci, dep)
    ensures DependencyAt(inv, org, source, after, e, ci, dep)
  {
    var l := DependsIsDrawn(inv, ci, dep);
    DrawnIsPlanned(Cis(inv), CiIds(Cis(inv)), l, dep);
    PutIsPlanned(DependencyOps(Cis(inv), CiIds(Cis(inv))), PutEdge(DependsOn(ci.id, dep)));
    var ref := DependsRef(ci.id, dep);
    assert ref in EdgePlanFor(inv);
    hide Cis, EdgePlanFor, CiRows, IsRowOf, Depends, AssetsSynced, PlanFor, Classed, DependencyOps;
    assert HasEdge(after, org, source, ref);
    e :| e in after.edges && EdgeKeyed(org, Origin(source, ref), after.edges[e]);
    var c, d := PlannedEdgeIsDrawn(org, source, inv, before, after, cis, e);
    assert c.id == ci.id && d == dep;
  }

  lemma PlannedIffListed(org: Org, source: string, inv: Inventory, before: Db, i: Id)
    requires Known(Cis(inv)) && i in before.assets
    ensures Planned(org, source, PlanFor(org, before, inv), before.assets[i]) <==>
            exists kind, ci :: ListedAt(inv, org, source, before, i, kind, ci)
  {
    var ls := Cis(inv);
    if Planned(org, source, PlanFor(org, before, inv), before.assets[i]) {
      PlanKeys(before, org, ls, before.assets[i].origin.value.ref);
      var l :| l in ls && RefOf(l) == before.assets[i].origin.value.ref;
      ListsIff(inv, l.kind, l.ci);
      assert Listed(l.kind, l.ci) == l;
      assert ListedAt(inv, org, source, before, i, l.kind, l.ci);
    }
    if kind, ci :| ListedAt(inv, org, source, before, i, kind, ci) {
      ListsIff(inv, kind, ci);
      assert RefOf(Listed(kind, ci)) == kind + ":" + ci.id;
      PlanKeys(before, org, ls, kind + ":" + ci.id);
    }
  }

  lemma OthersAreShown(org: Org, source: string, inv: Inventory, archive: bool, before: Db, after: Db, cis: map<string, Id>)
    requires Known(Cis(inv)) && Effect(org, source, inv, archive, before, after, cis)
    ensures OthersShown(inv, org, source, archive, before, after)
  {
    hide Cis, EdgePlanFor, CiRows, PlanFor, Classed, EdgesSynced, Planned, ListedAt, Known;
    forall i | i in before.assets && !(exists kind, ci :: ListedAt(inv, org, source, before, i, kind, ci))
      ensures i in after.assets
      ensures after.assets[i] == if archive && OwnsAsset(org, source, before.assets[i]) &&
                                    ((before.assets[i].kind == "system" && inv.systems.Some?) || (before.assets[i].kind == "device" && inv.devices.Some?))
                                 then before.assets[i].(status := "archived") else before.assets[i]
    {
      PlannedIffListed(org, source, inv, before, i);
      RetiredIs(org, source, inv, archive, before, i);
    }
  }

  lemma RetiredIs(org: Org, source: string, inv: Inventory, archive: bool, before: Db, i: Id)
    requires inv.Inventory? && i in before.assets && !Planned(org, source, PlanFor(org, before, inv), before.assets[i])
    ensures Synced(org, source, RetirementFor(inv, archive), PlanFor(org, before, inv), before.assets[i]) ==
            if archive && OwnsAsset(org, source, before.assets[i]) &&
               ((before.assets[i].kind == "system" && inv.systems.Some?) || (before.assets[i].kind == "device" && inv.devices.Some?))
            then before.assets[i].(status := "archived") else before.assets[i]
  {
    hide PlanFor;
    assert SYSTEM == "system" && DEVICE == "device" && ARCHIVED == "archived";
    assert "system"[0] == 's' && "device"[0] == 'd';
    assert before.assets[i].metadata + map[] == before.assets[i].metadata;
  }

  /** The effect of a run of a usable inventory shows the inventory. */
  lemma EffectShows(org: Org, source: string, inv: Inventory, archive: bool, before: Db, after: Db, cis: map<string, Id>)
    requires Valid(before) && Known(Cis(inv)) && Effect(org, source, inv, archive, before, after, cis)
    ensures Shows(inv, org, source, archive, before, after)
  {
    DependenciesAreShown(org, source, inv, archive, before, after, cis);
    OthersAreShown(org, source, inv, archive, before, after, cis);
    hide Effect, Cis, CiShown, DependenciesShown, OthersShown, Known, UniqueAssets, UniqueEdges, NoDangling, Lists;
    forall kind, ci | Lists(inv, kind, ci) ensures CiShown(org, source, before, after, kind, ci) {
      ListsIff(inv, kind, ci);
      CiIsShown(org, source, inv, archive, before, after, cis, Listed(kind, ci));
    }
  }
}
