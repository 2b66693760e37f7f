/** What partial inventories leave alone, what a run archives, and what a second run does. */
module InventorySafety {
  import opened Options
  import opened Graph
  import opened CatalogDocument
  import opened CatalogPlan
  import opened CatalogRun
  import opened ExternalSync
  import opened InventoryPlan
  import opened InventorySync
  import opened InventoryMeaning
  import opened InventoryRun

  // The inventory carries a list of this class.
  predicate Carries(inv: Inventory, kind: string)
    requires inv.Inventory?
  {
    if kind == SYSTEM then inv.systems.Some? else inv.devices.Some?
  }

  lemma PlannedAre(org: Org, before: Db, inv: Inventory, ref: string)
    requires inv.Inventory? && ref in PlanFor(org, before, inv)
    ensures (SYSTEM + ":" <= ref && Carries(inv, SYSTEM)) || (DEVICE + ":" <= ref && Carries(inv, DEVICE))
  {
    PlanKeys(before, org, Cis(inv), ref);
    var l :| l in Cis(inv) && RefOf(l) == ref;
    ListedKinds(SYSTEM, Entries(inv.systems));
    ListedKinds(DEVICE, Entries(inv.devices));
    assert l in ListedOf(SYSTEM, Entries(inv.systems)) || l in ListedOf(DEVICE, Entries(inv.devices));
    assert RefOf(l) == (l.kind + ":") + l.ci.id;
    assert l.kind + ":" <= ref;
  }

  lemma PlannedIsCarried(org: Org, source: string, before: Db, inv: Inventory, a: Asset)
    requires inv.Inventory? && Planned(org, source, PlanFor(org, before, inv), a) && ClassedRow(a)
    ensures a.kind in {SYSTEM, DEVICE} && Carries(inv, a.kind)
  {
    PlannedAre(org, before, inv, a.origin.value.ref);
    hide PlanFor;
  }

  /** A class whose list is absent is untouched: every row of that type, whoever wrote it, stays exactly as it
      was. */
  lemma AbsentClassIsUntouched(org: Org, source: string, inv: Inventory, archive: bool, before: Db, after: Db, cis: map<string, Id>,
                               kind: string, i: Id)
    requires Classed(org, source, before) && Effect(org, source, inv, archive, before, after, cis)
    requires kind in {SYSTEM, DEVICE} && !Carries(inv, kind)
    requires i in before.assets && before.assets[i].kind == kind
    ensures i in after.assets && after.assets[i] == before.assets[i]
  {
    hide PlanFor, Valid, EdgesSynced, CiRows, EdgePlanFor, AssetsSynced;
    OnlyCarriedRowsChange(org, source, RetirementFor(inv, archive), PlanFor(org, before, inv), before, after, i);
    if Planned(org, source, PlanFor(org, before, inv), before.assets[i]) {
      PlannedIsCarried(org, source, before, inv, before.assets[i]);
    }
  }

  /** With `archiveMissing`, what becomes archived in a carried class is exactly what the inventory lists as
      decommissioned or no longer lists; and no asset row is ever deleted. */
  lemma ArchivesExactlyTheMissing(org: Org, source: string, inv: Inventory, before: Db, after: Db, cis: map<string, Id>, i: Id)
    requires Effect(org, source, inv, true, before, after, cis) && i in before.assets
    requires var a := before.assets[i]; OwnsAsset(org, source, a) && a.kind in {SYSTEM, DEVICE} && Carries(inv, a.kind)
    ensures i in after.assets
    ensures var (ref, plan) := (before.assets[i].origin.value.ref, PlanFor(org, before, inv));
            after.assets[i].status ==
              if ref !in plan then ARCHIVED else plan[ref].status
  {
    hide PlanFor, Classed, Valid, EdgesSynced, CiRows, EdgePlanFor;
  }

  predicate NoColon(s: string) { ':' !in s }

  lemma StartsWithColon(a: string, x: string)
    requires NoColon(a)
    ensures var s := a + ":" + x; s != "" && (s[0] == ':' <==> a == "") && (a != "" ==> s[0] == a[0])
  {
    if a != "" { assert a[0] in a; }
  }

  lemma {:induction false} StartOfRef(a: string, x: string, c: string, y: string)
    requires NoColon(a) && NoColon(c) && a + ":" + x == c + ":" + y
    ensures a == c && x == y
  {
    var (s, t) := (a + ":" + x, c + ":" + y);
    StartsWithColon(a, x);
    StartsWithColon(c, y);
    if a == "" {
      assert s[1..] == x && t[1..] == y;
    } else {
      assert s[1..] == a[1..] + ":" + x && t[1..] == c[1..] + ":" + y;
      StartOfRef(a[1..], x, c[1..], y);
      assert a == [a[0]] + a[1..] && c == [c[0]] + c[1..];
    }
  }

  lemma DependsRefStart(a: string, b: string, c: string, d: string)
    requires NoColon(a) && NoColon(c) && DependsRef(a, b) == DependsRef(c, d)
    ensures a == c && b == d
  {
    var n := |"depends_on:"|;
    assert DependsRef(a, b)[n..] == a + ":" + b;
    assert DependsRef(c, d)[n..] == c + ":" + d;
    StartOfRef(a, b, c, d);
  }

  ghost predicate Unchanged(before: Db, after: Db, e: Id)
    requires e in before.edges
  {
    e in after.edges && after.edges[e] == before.edges[e]
  }

  /** An edge of the source that leaves an asset the inventory does not carry: the sweep never reaches it, so it
      stays exactly as it was if and only if no listed CI has a drawn dependency that spells its ref.  One that
      does takes the row over, since refs joined by colons can coincide. */
  lemma UncarriedEdgeStaysIff(org: Org, source: string, inv: Inventory, archive: bool, before: Db, after: Db, cis: map<string, Id>,
                              e: Id, ref: string)
    requires Effect(org, source, inv, archive, before, after, cis)
    requires e in before.edges && before.edges[e].src !in cis.Values
    requires before.edges[e].org == org && before.edges[e].origin == Some(Origin(source, ref))
    ensures Unchanged(before, after, e) <==> !Spelled(inv, ref)
  {
    var plan := EdgePlanFor(inv);
    PlannedIffSpelled(inv, ref);
    hide EdgePlanFor, PlanFor, Classed, Valid, AssetsSynced, CiRows, Cis, Spelled;
    OnlySweptEdgesGo(org, source, plan, cis, Some(cis.Values), before, after, e);
    if ref in plan {
      assert after.edges[e] == Redrawn(before.edges[e], plan[ref], cis[plan[ref].srcRef], cis[plan[ref].dstRef]);
      assert after.edges[e].src in cis.Values;
    }
  }

  /** Colon-free ids are enough: then an unlisted CI keeps all its dependencies. */
  lemma UnlistedCiKeepsItsEdges(org: Org, source: string, inv: Inventory, archive: bool, before: Db, after: Db, cis: map<string, Id>,
                                e: Id, from: string, to: string)
    requires Effect(org, source, inv, archive, before, after, cis)
    requires NoColon(from) && forall l | l in Cis(inv) :: NoColon(l.ci.id) && l.ci.id != from
    requires e in before.edges && before.edges[e].src !in cis.Values
    requires before.edges[e].org == org && before.edges[e].origin == Some(Origin(source, DependsRef(from, to)))
    ensures Unchanged(before, after, e)
  {
    UncarriedEdgeStaysIff(org, source, inv, archive, before, after, cis, e, DependsRef(from, to));
    hide Effect, Cis, Unchanged;
    forall l, dep | l in Cis(inv) ensures DependsRef(l.ci.id, dep) != DependsRef(from, to) {
      if DependsRef(l.ci.id, dep) == DependsRef(from, to) { DependsRefStart(from, to, l.ci.id, dep); }
    }
  }

  // a -> b:c and a:b -> c spell one ref.
  lemma RefsCoincide(a: string, b: string, c: string)
    ensures DependsRef(a, b + ":" + c) == DependsRef(a + ":" + b, c)
  {
    assert "depends_on:" + a + ":" + (b + ":" + c) == "depends_on:" + (a + ":" + b) + ":" + c;
  }

  const COLON_INVENTORY := Inventory(Some(List([Object(Ci("a:b", "one", "", "", map[], "", ["c"])),
                                                Object(Ci("c", "two", "", "", map[], "", []))])), None)

  /** A usable inventory that lists a:b depending on c takes the row depends_on:a:b:c away from an unlisted a
      that depends on b:c. */
  lemma ColonTakesTheEdge(org: Org, source: string, archive: bool, before: Db, after: Db, cis: map<string, Id>, e: Id)
    requires Effect(org, source, COLON_INVENTORY, archive, before, after, cis)
    requires e in before.edges && before.edges[e].src !in cis.Values
    requires before.edges[e].org == org && before.edges[e].origin == Some(Origin(source, DependsRef("a", "b:c")))
    ensures Usable(COLON_INVENTORY) && forall l | l in Cis(COLON_INVENTORY) :: l.ci.id != "a"
    ensures !Unchanged(before, after, e)
  {
    hide *;
    ColonInventory();
    ColonRef();
    UncarriedEdgeStaysIff(org, source, COLON_INVENTORY, archive, before, after, cis, e, DependsRef("a", "b:c"));
  }

  lemma ColonRef()
    ensures Spelled(COLON_INVENTORY, DependsRef("a", "b:c"))
  {
    ColonInventory();
    RefsCoincide("a", "b", "c");
    hide Cis, COLON_INVENTORY, CiIds, Draws, DependsRef;
    assert "b" + ":" + "c" == "b:c" && "a" + ":" + "b" == "a:b";
  }

  lemma ColonInventory()
    ensures Usable(COLON_INVENTORY) && forall l | l in Cis(COLON_INVENTORY) :: l.ci.id != "a"
    ensures exists l :: l in Cis(COLON_INVENTORY) && l.ci.id == "a:b" && Draws(l, "c", CiIds(Cis(COLON_INVENTORY)))
  {
    var (a, b) := (Ci("a:b", "one", "", "", map[], "", ["c"]), Ci("c", "two", "", "", map[], "", []));
    TwoSystems(COLON_INVENTORY, a, b);
    hide Cis, Usable, COLON_INVENTORY;
    var ls := Cis(COLON_INVENTORY);
    assert ls[0].ci == a && ls[1].ci == b && ls[0] in ls;
    assert ls[1].ci.id in CiIds(ls);
    assert Draws(ls[0], "c", CiIds(ls));
  }

  // The inventory of the day before: a depending on b:c.
  const EARLIER_INVENTORY := Inventory(Some(List([Object(Ci("a", "one", "", "", map[], "", ["b:c"])),
                                                  Object(Ci("b:c", "two", "", "", map[], "", []))])), None)

  lemma TwoSystems(inv: Inventory, a: Ci, b: Ci)
    requires inv == Inventory(Some(List([Object(a), Object(b)])), None)
    ensures Cis(inv) == [Listed(SYSTEM, a), Listed(SYSTEM, b)]
    ensures a.id != "" && a.name != "" && b.id != "" && b.name != "" && a.id != b.id ==> Usable(inv)
  {
    var items := Entries(inv.systems);
    assert |items| == 2 && items[0].value == a && items[1].value == b && Entries(inv.devices) == [];
    assert items[..1] == [items[0]] && items[..1][..0] == [];
    assert ListedOf(SYSTEM, items[..1]) == [Listed(SYSTEM, a)];
    assert ListedOf(SYSTEM, items) == [Listed(SYSTEM, a), Listed(SYSTEM, b)];
    assert ListedOf(DEVICE, []) == [];
  }

  lemma EarlierInventory()
    ensures Usable(EARLIER_INVENTORY)
    ensures |Cis(EARLIER_INVENTORY)| == 2 && forall l | l in Cis(EARLIER_INVENTORY) :: l.kind == SYSTEM && l.ci.id in {"a", "b:c"}
    ensures forall l, dep | l in Cis(EARLIER_INVENTORY) && dep in l.ci.dependsOn :: l.ci.id == "a"
    ensures exists l :: l in Cis(EARLIER_INVENTORY) && l.ci.id == "a" && Draws(l, "b:c", CiIds(Cis(EARLIER_INVENTORY)))
  {
    var (a, b) := (Ci("a", "one", "", "", map[], "", ["b:c"]), Ci("b:c", "two", "", "", map[], "", []));
    TwoSystems(EARLIER_INVENTORY, a, b);
    hide Cis, Usable, EARLIER_INVENTORY;
    var ls := Cis(EARLIER_INVENTORY);
    assert ls[0].ci == a && ls[1].ci == b && ls[0] in ls;
    assert ls[1].ci.id in CiIds(ls);
    assert Draws(ls[0], "b:c", CiIds(ls));
  }

  // It plans the edge from a.
  lemma EarlierPlan()
    ensures var ref := DependsRef("a", "b:c"); ref in EdgePlanFor(EARLIER_INVENTORY) && EdgePlanFor(EARLIER_INVENTORY)[ref].srcRef == "a"
  {
    EarlierInventory();
    var (inv, ref) := (EARLIER_INVENTORY, DependsRef("a", "b:c"));
    hide Cis, EARLIER_INVENTORY, CiIds, Usable, DependsRef;
    assert Spelled(inv, ref);
    PlannedIffSpelled(inv, ref);
    var (ls, known) := (Cis(inv), CiIds(Cis(inv)));
    var ops := DependencyOps(ls, known);
    EdgePlanRef(ops, ref);
    hide DependencyOps;
    var i :| 0 <= i < |ops| && ops[i].PutEdge? && ops[i].edge == EdgePlan(ops)[ref];
    AllPlanned(ls, known, i);
    var l, dep :| l in ls && ops[i].edge == DependsOn(l.ci.id, dep) && Draws(l, dep, known);
  }

  lemma EarlierEdge(org: Org, source: string, archive: bool, before: Db, after: Db, cis: map<string, Id>) returns (e: Id)
    requires Effect(org, source, EARLIER_INVENTORY, archive, before, after, cis)
    ensures e in after.edges && EdgeKeyed(org, Origin(source, DependsRef("a", "b:c")), after.edges[e])
    ensures "a" in cis && after.edges[e].src == cis["a"]
  {
    EarlierPlan();
    var ref := DependsRef("a", "b:c");
    hide EdgePlanFor, PlanFor, Classed, Valid, AssetsSynced, CiRows, EARLIER_INVENTORY, DependsRef;
    assert HasEdge(after, org, source, ref);
    e :| e in after.edges && EdgeKeyed(org, Origin(source, ref), after.edges[e]);
  }

  // The row of a listed CI keeps its ref through a later run.
  lemma CiRowKeepsRef(org: Org, source: string, inv: Inventory, archive: bool, before: Db, after: Db, cis: map<string, Id>, i: Id)
    requires Effect(org, source, inv, archive, before, after, cis) && i in before.assets
    ensures i in after.assets && after.assets[i].origin == before.assets[i].origin
  {
    hide PlanFor, Classed, Valid, EdgesSynced, CiRows, EdgePlanFor;
  }

  lemma NotACi(org: Org, source: string, inv: Inventory, archive: bool, before: Db, after: Db, cis: map<string, Id>, i: Id)
    requires Effect(org, source, inv, archive, before, after, cis) && i in after.assets && after.assets[i].origin.Some?
    requires forall l | l in Cis(inv) :: RefOf(l) != after.assets[i].origin.value.ref
    ensures i !in cis.Values
  {
    hide PlanFor, Classed, Valid, EdgesSynced, EdgePlanFor, AssetsSynced, RefOf, Cis;
    forall id | id in cis ensures cis[id] != i {
      var l :| l in Cis(inv) && l.ci.id == id;
    }
  }

  lemma ColonRefsApart()
    ensures forall l | l in Cis(COLON_INVENTORY) :: RefOf(l) != "system:a"
    ensures forall l | l in Cis(EARLIER_INVENTORY) && l.ci.id == "a" :: RefOf(l) == "system:a"
  {
    var (a, b) := (Ci("a:b", "one", "", "", map[], "", ["c"]), Ci("c", "two", "", "", map[], "", []));
    TwoSystems(COLON_INVENTORY, a, b);
    EarlierInventory();
    assert SYSTEM + ":" + "a" == "system:a" && |SYSTEM + ":" + "a:b"| == 10 && (SYSTEM + ":" + "c")[7] == 'c';
  }

  // The first run, and the edge it left from a.
  ghost predicate DrewFromA(org: Org, source: string, archive: bool, before: Db, mid: Db, cis: map<string, Id>, e: Id) {
    && Effect(org, source, EARLIER_INVENTORY, archive, before, mid, cis) && "a" in cis
    && e in mid.edges && mid.edges[e].src == cis["a"] && EdgeKeyed(org, Origin(source, DependsRef("a", "b:c")), mid.edges[e])
  }

  /** Two runs of usable inventories, from any database at all: the first lists a depending on b:c, the second
      a:b depending on c.  The edge the first drew from a is taken away, though a is not listed any more. */
  method TakeOver(s: Session, archive: bool) returns (ghost e: Id)
    requires Valid(s.db) && Classed(s.org, s.source, s.db)
    modifies s
    ensures Valid(s.db) && Classed(s.org, s.source, s.db) && e in s.db.edges
    ensures exists mid, cis :: DrewFromA(s.org, s.source, archive, old(s.db), mid, cis, e) && s.db.edges[e] != mid.edges[e]
  {
    hide *;
    EarlierInventory();
    ColonInventory();
    var first, second;
    ghost var mid, cis, after, cis';
    first, mid, cis := s.SyncInventory(EARLIER_INVENTORY, false, archive);
    EffectKeeps(s.org, s.source, EARLIER_INVENTORY, archive, old(s.db), mid, cis);
    second, after, cis' := s.SyncInventory(COLON_INVENTORY, false, archive);
    e := EarlierEdge(s.org, s.source, archive, old(s.db), mid, cis);
    Drew(s.org, s.source, archive, old(s.db), mid, cis, e);
    EffectKeeps(s.org, s.source, COLON_INVENTORY, archive, mid, after, cis');
    Taken(s.org, s.source, archive, old(s.db), mid, after, cis, cis', e);
  }

  lemma Drew(org: Org, source: string, archive: bool, before: Db, mid: Db, cis: map<string, Id>, e: Id)
    requires Effect(org, source, EARLIER_INVENTORY, archive, before, mid, cis) && "a" in cis
    requires e in mid.edges && mid.edges[e].src == cis["a"] && EdgeKeyed(org, Origin(source, DependsRef("a", "b:c")), mid.edges[e])
    ensures DrewFromA(org, source, archive, before, mid, cis, e)
  {
    hide Effect, EdgeKeyed, DependsRef;
  }

  lemma EffectKeeps(org: Org, source: string, inv: Inventory, archive: bool, before: Db, after: Db, cis: map<string, Id>)
    requires Effect(org, source, inv, archive, before, after, cis)
    ensures Valid(after) && Classed(org, source, after)
  {
    hide PlanFor, Classed, Valid, EdgesSynced, CiRows, EdgePlanFor, AssetsSynced;
  }

  lemma Taken(org: Org, source: string, archive: bool, before: Db, mid: Db, after: Db, cis: map<string, Id>, cis': map<string, Id>, e: Id)
    requires Effect(org, source, EARLIER_INVENTORY, archive, before, mid, cis)
    requires Effect(org, source, COLON_INVENTORY, archive, mid, after, cis')
    requires e in mid.edges && EdgeKeyed(org, Origin(source, DependsRef("a", "b:c")), mid.edges[e])
    requires "a" in cis && mid.edges[e].src == cis["a"]
    ensures e in after.edges && after.edges[e] != mid.edges[e]
  {
    hide *;
    var i := cis["a"];
    RowOfA(org, source, archive, before, mid, cis);
    CiRowKeepsRef(org, source, COLON_INVENTORY, archive, mid, after, cis', i);
    ColonRefsApart();
    NotACi(org, source, COLON_INVENTORY, archive, mid, after, cis', i);
    KeyedParts(org, Origin(source, DependsRef("a", "b:c")), mid.edges[e]);
    ColonTakesTheEdge(org, source, archive, mid, after, cis', e);
    ColonRef();
    NamedEdgeStays(org, source, COLON_INVENTORY, archive, mid, after, cis', e, DependsRef("a", "b:c"));
    IsUnchanged(mid, after, e);
  }

  lemma KeyedParts(org: Org, o: Origin, e: Edge)
    requires EdgeKeyed(org, o, e)
    ensures e.org == org && e.origin == Some(o)
  {}

  lemma IsUnchanged(before: Db, after: Db, e: Id)
    requires e in before.edges
    ensures Unchanged(before, after, e) <==> e in after.edges && after.edges[e] == before.edges[e]
  {}

  // A row whose ref is spelled is redrawn, not deleted.
  lemma NamedEdgeStays(org: Org, source: string, inv: Inventory, archive: bool, before: Db, after: Db, cis: map<string, Id>, e: Id, ref: string)
    requires Effect(org, source, inv, archive, before, after, cis) && Spelled(inv, ref)
    requires e in before.edges && before.edges[e].org == org && before.edges[e].origin == Some(Origin(source, ref))
    ensures e in after.edges
  {
    PlannedIffSpelled(inv, ref);
    hide EdgePlanFor, PlanFor, Classed, Valid, AssetsSynced, CiRows, Cis, Spelled;
    OnlySweptEdgesGo(org, source, EdgePlanFor(inv), cis, Some(cis.Values), before, after, e);
  }

  lemma RowOfA(org: Org, source: string, archive: bool, before: Db, after: Db, cis: map<string, Id>)
    requires Effect(org, source, EARLIER_INVENTORY, archive, before, after, cis) && "a" in cis
    ensures cis["a"] in after.assets && after.assets[cis["a"]].origin == Some(Origin(source, "system:a"))
  {
    EarlierInventory();
    ColonRefsApart();
    hide PlanFor, Classed, Valid, EdgesSynced, EdgePlanFor, AssetsSynced, RefOf, Cis, EARLIER_INVENTORY, COLON_INVENTORY, Usable, Draws;
    var l :| l in Cis(EARLIER_INVENTORY) && l.ci.id == "a";
  }

  /*************** again ***************/

  lemma {:induction false} SameWrites(a: Db, b: Db, org: Org, ls: seq<Listed>)
    requires forall l | l in ls :: OwnerIn(b, org, l.ci.owner) == OwnerIn(a, org, l.ci.owner)
    ensures Writes(b, org, ls) == Writes(a, org, ls)
  {
    hide OwnerIn;
    if ls != [] {
      SameWrites(a, b, org, ls[..|ls| - 1]);
      assert ls[|ls| - 1] in ls;
    }
  }

  lemma SamePlan(org: Org, source: string, inv: Inventory, archive: bool, before: Db, after: Db, cis: map<string, Id>)
    requires Valid(before) && Classed(org, source, before) && Effect(org, source, inv, archive, before, after, cis)
    ensures PlanFor(org, after, inv) == PlanFor(org, before, inv)
  {
    CisKinds(inv);
    WritesAreClassed(before, org, Cis(inv));
    ForOwners(org, source, inv, archive, before, after, cis);
    hide *;
    forall l | l in Cis(inv) ensures OwnerIn(after, org, l.ci.owner) == OwnerIn(before, org, l.ci.owner) {
      OwnersStay(org, source, RetirementFor(inv, archive), PlanFor(org, before, inv), before, after, l.ci.owner);
    }
    SameWrites(before, after, org, Cis(inv));
    SamePlanOf(org, inv, before, after);
  }

  lemma SamePlanOf(org: Org, inv: Inventory, before: Db, after: Db)
    requires Writes(after, org, Cis(inv)) == Writes(before, org, Cis(inv))
    ensures PlanFor(org, after, inv) == PlanFor(org, before, inv)
  {
  }

  // What a run says about possible owners.
  lemma ForOwners(org: Org, source: string, inv: Inventory, archive: bool, before: Db, after: Db, cis: map<string, Id>)
    requires Valid(before) && Effect(org, source, inv, archive, before, after, cis)
    requires ClassPlan(PlanOf(Writes(before, org, Cis(inv))))
    ensures var (r, plan) := (RetirementFor(inv, archive), PlanFor(org, before, inv));
            && IdsBelow(before) && ClassPlan(plan) && before.next <= after.next && r.kinds <= {SYSTEM, DEVICE}
            && (forall i | i in before.assets :: i in after.assets && after.assets[i] == Synced(org, source, r, plan, before.assets[i]))
            && (forall i | i in after.assets && i !in before.assets :: IsNew(org, source, plan, before, after.assets[i]))
  {
    hide Cis, Writes, PlanOf, Classed, ClassPlan, EdgesSynced, CiRows, EdgePlanFor, Synced, IsNew, HasAsset, UniqueAssets, UniqueEdges, NoDangling, IdsBelow;
  }

  lemma SameCis(org: Org, source: string, ls: seq<Listed>, a: Db, b: Db, one: map<string, Id>, two: map<string, Id>)
    requires UniqueAssets(a.assets) && a.assets == b.assets
    requires CiRows(org, source, ls, a, one) && CiRows(org, source, ls, b, two)
    ensures one == two
  {
    hide RefOf, CiIds;
    forall id | id in one ensures one[id] == two[id] {
      IdListed(ls, id);
      var l :| l in ls && l.ci.id == id;
      assert AssetKeyed(org, Origin(source, RefOf(l)), a.assets[one[id]]) && AssetKeyed(org, Origin(source, RefOf(l)), a.assets[two[id]]);
    }
  }

  /** The same inventory again changes nothing. */
  lemma SecondInventoryIsIdle(org: Org, source: string, inv: Inventory, archive: bool, before: Db, mid: Db, after: Db,
                              one: map<string, Id>, two: map<string, Id>)
    requires Valid(before) && Classed(org, source, before)
    requires Effect(org, source, inv, archive, before, mid, one) && Effect(org, source, inv, archive, mid, after, two)
    ensures after.assets == mid.assets && after.edges == mid.edges && two == one
  {
    SamePlan(org, source, inv, archive, before, mid, one);
    EffectParts(org, source, inv, archive, before, mid, one);
    EffectParts(org, source, inv, archive, mid, after, two);
    hide *;
    SecondProjectionIsIdle(org, source, RetirementFor(inv, archive), PlanFor(org, before, inv), before, mid, after);
    SameCis(org, source, Cis(inv), mid, after, one, two);
    SecondSweepIsIdle(org, source, EdgePlanFor(inv), one, Some(one.Values), before, mid, after);
  }

  lemma EffectParts(org: Org, source: string, inv: Inventory, archive: bool, before: Db, after: Db, cis: map<string, Id>)
    requires Effect(org, source, inv, archive, before, after, cis)
    ensures inv.Inventory? && UniqueAssets(after.assets)
    ensures AssetsSynced(org, source, RetirementFor(inv, archive), PlanFor(org, before, inv), before, after)
    ensures CiRows(org, source, Cis(inv), after, cis) && Resolved(cis, EdgePlanFor(inv))
    ensures EdgesSynced(org, source, EdgePlanFor(inv), cis, Some(cis.Values), before, after)
  {
    hide UniqueAssets, UniqueEdges, NoDangling, IdsBelow, AssetsSynced, EdgesSynced, CiRows, Cis, Classed, Resolved;
  }

  lemma {:induction false} NoneNew(org: Org, source: string, db: Db, ls: seq<Listed>)
    requires forall l | l in ls :: HasAsset(db, org, source, RefOf(l))
    ensures CountNew(org, source, db, ls) == 0
  {
    hide HasAsset, RefOf;
    if ls != [] {
      NoneNew(org, source, db, ls[..|ls| - 1]);
      assert ls[|ls| - 1] in ls;
    }
  }

  lemma RowsPresent(org: Org, source: string, ls: seq<Listed>, db: Db, cis: map<string, Id>)
    requires CiRows(org, source, ls, db, cis)
    ensures forall l | l in ls :: HasAsset(db, org, source, RefOf(l))
  {
    hide RefOf;
  }

  lemma NothingMissing(org: Org, source: string, r: Retirement, plan: map<string, Write>, before: Db, mid: Db, kind: string)
    requires AssetsSynced(org, source, r, plan, before, mid) && kind in r.kinds
    ensures Unarchived(mid, MissingIds(org, source, {kind}, plan, mid)) == {}
  {
    hide HasAsset;
    forall i | i in MissingIds(org, source, {kind}, plan, mid) ensures mid.assets[i].status == ARCHIVED {
      if i in before.assets { assert mid.assets[i] == Synced(org, source, r, plan, before.assets[i]); }
    }
  }

  lemma NothingSwept(org: Org, source: string, plan: map<string, EdgeWrite>, cis: map<string, Id>, scope: Option<set<Id>>, before: Db, mid: Db)
    requires Resolved(cis, plan) && EdgesSynced(org, source, plan, cis, scope, before, mid)
    ensures SweptIds(org, source, plan, scope, mid) == {}
  {
    hide HasEdge;
    forall e | e in mid.edges ensures !Swept(org, source, plan, scope, mid.edges[e]) {
      if e !in before.edges { assert EdgeIsNew(org, source, plan, cis, before, mid.edges[e]); }
    }
  }

  /** ... and says so: it reports nothing created, nothing archived and no edge pruned. */
  lemma SecondReportIsEmpty(org: Org, source: string, inv: Inventory, archive: bool, before: Db, mid: Db,
                            one: map<string, Id>, r: SyncResult)
    requires Valid(before) && Classed(org, source, before)
    requires Effect(org, source, inv, archive, before, mid, one) && Reports(org, source, inv, archive, mid, one, r)
    ensures r.systems.created == r.devices.created == 0 && r.systems.archived == r.devices.archived == 0 && r.edgesPruned == 0
  {
    SamePlan(org, source, inv, archive, before, mid, one);
    EffectParts(org, source, inv, archive, before, mid, one);
    RowsPresent(org, source, Cis(inv), mid, one);
    var (s, d) := (ListedOf(SYSTEM, Entries(inv.systems)), ListedOf(DEVICE, Entries(inv.devices)));
    assert Cis(inv) == s + d;
    hide ListedOf, Entries, Cis, HasAsset, CountNew, AssetsSynced, EdgesSynced, Effect, EdgePlanFor, PlanFor, Valid, Classed, CiRows, Missing, Resolved, Unarchived, SweptIds, MissingIds, RefsAt;
    assert forall l | l in s :: l in s + d;
    assert forall l | l in d :: l in s + d;
    NoneNew(org, source, mid, s);
    NoneNew(org, source, mid, d);
    NothingSwept(org, source, EdgePlanFor(inv), one, Some(one.Values), before, mid);
    if archive && inv.systems.Some? {
      NothingMissing(org, source, RetirementFor(inv, archive), PlanFor(org, before, inv), before, mid, SYSTEM);
    }
    if archive && inv.devices.Some? {
      NothingMissing(org, source, RetirementFor(inv, archive), PlanFor(org, before, inv), before, mid, DEVICE);
    }
  }
}
