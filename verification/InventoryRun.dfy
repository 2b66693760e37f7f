/** The transaction of `sync_inventory`, statement by statement, against its effect. */
module InventoryRun {
  import opened Options
  import opened Graph
  import opened CatalogDocument
  import opened CatalogPlan
  import opened CatalogRun
  import opened ExternalSync
  import opened InventoryPlan
  import opened InventorySync
  import Meaning = InventoryMeaning

  /*************** archiving one class at a time ***************/

  function StaleOf(org: Org, source: string, kind: string, seen: seq<string>, db: Db): set<Id> {
    set i | i in db.assets && OwnsAsset(org, source, db.assets[i]) && db.assets[i].kind == kind
            && db.assets[i].origin.value.ref !in seen
  }

  function Archive(db: Db, ids: set<Id>): Db {
    db.(assets := map i | i in db.assets ::
      if i in ids && db.assets[i].status != ARCHIVED then db.assets[i].(status := ARCHIVED) else db.assets[i])
  }

  // The seen list of a class holds exactly the planned refs of its rows.
  ghost predicate SeenOf(kind: string, ls: seq<Listed>, seen: seq<string>) {
    forall ref :: ref in seen <==> exists l :: l in ls && l.kind == kind && RefOf(l) == ref
  }

  // A row of the class under a ref that the inventory lists in the other class.
  ghost predicate Mistyped(org: Org, source: string, ls: seq<Listed>, kind: string, a: Asset) {
    OwnsAsset(org, source, a) && a.kind == kind && exists l :: l in ls && l.kind != kind && RefOf(l) == a.origin.value.ref
  }

  lemma KindsApart(l: Listed, m: Listed)
    requires l.kind in {SYSTEM, DEVICE} && m.kind in {SYSTEM, DEVICE} && RefOf(l) == RefOf(m)
    ensures l.kind == m.kind
  {
    assert RefOf(l)[0] == l.kind[0] && RefOf(m)[0] == m.kind[0];
  }

  lemma SeenIsPlanned(org: Org, source: string, before: Db, ls: seq<Listed>, kind: string, seen: seq<string>, a: Asset)
    requires Known(ls) && SeenOf(kind, ls, seen) && kind in {SYSTEM, DEVICE}
    requires OwnsAsset(org, source, a) && a.kind == kind
    ensures var planned := a.origin.value.ref in PlanOf(Writes(before, org, ls));
            (a.origin.value.ref in seen <==> planned && !Mistyped(org, source, ls, kind, a))
            && (Mistyped(org, source, ls, kind, a) ==> planned)
  {
    var ref := a.origin.value.ref;
    PlanKeys(before, org, ls, ref);
    hide Writes, PlanOf, RefOf;
    forall l, m | l in ls && m in ls && RefOf(l) == ref == RefOf(m) ensures l.kind == m.kind { KindsApart(l, m); }
  }

  /** In any database: what a run archives of a class it carries is exactly what the inventory does not list, if
      and only if no row of that class stands under a ref listed in the other class.  The connector writes no such
      row, but another one can, under the same source tag. */
  lemma ArchivesTheMissingIff(org: Org, source: string, before: Db, ls: seq<Listed>, kind: string, seen: seq<string>, db: Db)
    requires Known(ls) && SeenOf(kind, ls, seen) && kind in {SYSTEM, DEVICE}
    ensures StaleOf(org, source, kind, seen, db) == MissingIds(org, source, {kind}, PlanOf(Writes(before, org, ls)), db) <==>
            forall i | i in db.assets :: !Mistyped(org, source, ls, kind, db.assets[i])
  {
    hide Writes, PlanOf, SeenOf, Known, Mistyped;
    var (stale, missing) := (StaleOf(org, source, kind, seen, db), MissingIds(org, source, {kind}, PlanOf(Writes(before, org, ls)), db));
    forall i | i in db.assets
      ensures i in stale <==> i in missing || Mistyped(org, source, ls, kind, db.assets[i])
      ensures i in missing ==> !Mistyped(org, source, ls, kind, db.assets[i])
    {
      StaleIff(org, source, before, ls, kind, seen, db.assets[i]);
    }
  }

  lemma StaleIff(org: Org, source: string, before: Db, ls: seq<Listed>, kind: string, seen: seq<string>, a: Asset)
    requires Known(ls) && SeenOf(kind, ls, seen) && kind in {SYSTEM, DEVICE}
    ensures var (stale, missing) := (OwnsAsset(org, source, a) && a.kind == kind && a.origin.value.ref !in seen,
                                     Missing(org, source, {kind}, PlanOf(Writes(before, org, ls)), a));
            && (stale <==> missing || Mistyped(org, source, ls, kind, a))
            && (missing ==> !Mistyped(org, source, ls, kind, a))
  {
    if OwnsAsset(org, source, a) && a.kind == kind { SeenIsPlanned(org, source, before, ls, kind, seen, a); }
    hide Writes, PlanOf, SeenOf, Known;
  }

  lemma ClassedIsTyped(org: Org, source: string, ls: seq<Listed>, kind: string, a: Asset)
    requires Known(ls) && kind in {SYSTEM, DEVICE} && (OwnsAsset(org, source, a) ==> ClassedRow(a))
    ensures !Mistyped(org, source, ls, kind, a)
  {
    forall l | l in ls ensures l.kind + ":" <= RefOf(l) && l.kind in {SYSTEM, DEVICE} {
      assert RefOf(l) == (l.kind + ":") + l.ci.id;
    }
    hide RefOf;
  }

  lemma StaleIsMissing(org: Org, source: string, before: Db, ls: seq<Listed>, kind: string, seen: seq<string>, db: Db)
    requires Known(ls) && SeenOf(kind, ls, seen) && kind in {SYSTEM, DEVICE} && Classed(org, source, db)
    ensures forall i | i in db.assets ::
      i in StaleOf(org, source, kind, seen, db) <==> Missing(org, source, {kind}, PlanOf(Writes(before, org, ls)), db.assets[i])
  {
    ArchivesTheMissingIff(org, source, before, ls, kind, seen, db);
    hide ClassedRow, Writes, PlanOf, SeenOf, Known, Mistyped;
    forall i | i in db.assets ensures !Mistyped(org, source, ls, kind, db.assets[i]) {
      ClassedIsTyped(org, source, ls, kind, db.assets[i]);
    }
    assert StaleOf(org, source, kind, seen, db) == MissingIds(org, source, {kind}, PlanOf(Writes(before, org, ls)), db);
  }

  lemma ArchiveIsRetire(org: Org, source: string, kinds: set<string>, plan: map<string, Write>, db: Db, stale: set<Id>)
    requires forall i | i in db.assets :: i in stale <==> Missing(org, source, kinds, plan, db.assets[i])
    ensures Archive(db, stale) == RetireMissing(org, source, Retirement(kinds, map[]), plan, db)
  {
    hide Missing;
    var r := RetireMissing(org, source, Retirement(kinds, map[]), plan, db);
    forall i | i in db.assets ensures Archive(db, stale).assets[i] == r.assets[i] {
      assert db.assets[i].metadata + map[] == db.assets[i].metadata;
    }
    assert Archive(db, stale).assets.Keys == r.assets.Keys;
  }

  // Archiving two classes in turn archives both.
  lemma RetireTwo(org: Org, source: string, a: set<string>, b: set<string>, plan: map<string, Write>, db: Db)
    ensures RetireMissing(org, source, Retirement(b, map[]), plan, RetireMissing(org, source, Retirement(a, map[]), plan, db))
         == RetireMissing(org, source, Retirement(a + b, map[]), plan, db)
  {
    var one := RetireMissing(org, source, Retirement(a, map[]), plan, db);
    var two := RetireMissing(org, source, Retirement(b, map[]), plan, one);
    var both := RetireMissing(org, source, Retirement(a + b, map[]), plan, db);
    assert two.assets.Keys == both.assets.Keys;
    forall i | i in db.assets ensures two.assets[i] == both.assets[i] {
      assert db.assets[i].metadata + map[] == db.assets[i].metadata;
    }
  }

  lemma RetireNone(org: Org, source: string, plan: map<string, Write>, db: Db)
    ensures RetireMissing(org, source, Retirement({}, map[]), plan, db) == db
  {
    assert RetireMissing(org, source, Retirement({}, map[]), plan, db).assets == db.assets;
  }

  lemma RetireKeepsClassed(org: Org, source: string, r: Retirement, plan: map<string, Write>, db: Db)
    requires Classed(org, source, db)
    ensures Classed(org, source, RetireMissing(org, source, r, plan, db))
  {
    var after := RetireMissing(org, source, r, plan, db);
    forall i | i in after.assets && OwnsAsset(org, source, after.assets[i]) ensures ClassedRow(after.assets[i]) {
      assert ClassedRow(db.assets[i]);
    }
  }

  lemma ProjectionIsClassed(org: Org, source: string, plan: map<string, Write>, before: Db, db: Db, ids: map<string, Id>)
    requires Classed(org, source, before) && ClassPlan(plan) && Projects(org, source, plan, before, db, ids)
    ensures Classed(org, source, db)
  {
    hide Valid, Names, HasAsset;
    forall i | i in db.assets && OwnsAsset(org, source, db.assets[i]) ensures ClassedRow(db.assets[i]) {
      if i in before.assets {
        assert ClassedRow(before.assets[i]);
      } else {
        assert IsNew(org, source, plan, before, db.assets[i]);
        PrefixesApart(db.assets[i].origin.value.ref);
      }
    }
  }

  lemma PrefixesApart(ref: string)
    ensures !(SYSTEM + ":" <= ref && DEVICE + ":" <= ref)
  {
    assert SYSTEM + ":" <= ref ==> ref[0] == 's';
    assert DEVICE + ":" <= ref ==> ref[0] == 'd';
  }

  lemma UnarchivedAgain(db: Db, ids: set<Id>)
    ensures Unarchived(Archive(db, ids), ids) == {}
  {
  }

  /*************** the dependency edges ***************/

  lemma {:induction false} OpsResolve(id: string, deps: seq<string>, known: set<string>)
    requires id in known
    ensures forall i | 0 <= i < |OneCiOps(id, deps, known)| ::
      var op := OneCiOps(id, deps, known)[i]; op.PutEdge? && op.edge.srcRef in known && op.edge.dstRef in known
  {
    if deps != [] { OpsResolve(id, deps[..|deps| - 1], known); }
  }

  lemma PlanSameEdges(org: Org, source: string, plan: map<string, EdgeWrite>, ids: map<string, Id>, scope: Option<set<Id>>,
                      before: Db, start: Db, swept: Db, after: Db)
    requires Resolved(ids, plan) && EdgesSynced(org, source, plan, ids, scope, start, swept)
    requires start.edges == before.edges && after.edges == swept.edges
    ensures EdgesSynced(org, source, plan, ids, scope, before, after)
  {
    hide EdgeBecomes;
    forall i | i in after.edges && i !in before.edges ensures EdgeIsNew(org, source, plan, ids, before, after.edges[i]) {
      assert EdgeIsNew(org, source, plan, ids, start, swept.edges[i]);
      SameHasEdge(org, source, start, before, after.edges[i].origin.value.ref);
    }
    forall ref | ref in plan ensures HasEdge(after, org, source, ref) { SameHasEdge(org, source, swept, after, ref); }
  }

  lemma SameHasEdge(org: Org, source: string, a: Db, b: Db, ref: string)
    requires a.edges == b.edges
    ensures HasEdge(a, org, source, ref) <==> HasEdge(b, org, source, ref)
  {
    if HasEdge(a, org, source, ref) {
      var i :| i in a.edges && EdgeKeyed(org, Origin(source, ref), a.edges[i]);
      assert EdgeKeyed(org, Origin(source, ref), b.edges[i]);
    }
    if HasEdge(b, org, source, ref) {
      var i :| i in b.edges && EdgeKeyed(org, Origin(source, ref), b.edges[i]);
      assert EdgeKeyed(org, Origin(source, ref), a.edges[i]);
    }
  }

  /*************** the code ***************/

  // `_archive_stale` for a class the inventory carries, when missing rows are to be archived.
  function ArchiveIf(org: Org, source: string, kind: string, on: bool, seen: seq<string>, db: Db): Db {
    if on then Archive(db, StaleOf(org, source, kind, seen, db)) else db
  }

  lemma ArchiveIfIs(org: Org, source: string, kind: string, seen: seq<string>, db: Db)
    ensures ArchiveIf(org, source, kind, true, seen, db) == Archive(db, StaleOf(org, source, kind, seen, db))
    ensures ArchiveIf(org, source, kind, false, seen, db) == db
  {
  }

  ghost function CountNew(org: Org, source: string, before: Db, ls: seq<Listed>): nat {
    if ls == [] then 0
    else CountNew(org, source, before, ls[..|ls| - 1]) + if HasAsset(before, org, source, RefOf(ls[|ls| - 1])) then 0 else 1
  }

  function Refs(ls: seq<Listed>): seq<string> {
    if ls == [] then [] else Refs(ls[..|ls| - 1]) + [RefOf(ls[|ls| - 1])]
  }

  lemma RefsNext(ls: seq<Listed>, l: Listed)
    ensures Refs(ls + [l]) == Refs(ls) + [RefOf(l)]
  {
    assert (ls + [l])[..|ls|] == ls;
  }

  lemma {:induction false} RefsAreSeen(kind: string, items: seq<Entry<Ci>>, more: seq<Listed>)
    requires forall l | l in more :: l.kind != kind
    ensures SeenOf(kind, ListedOf(kind, items) + more, Refs(ListedOf(kind, items)))
    ensures SeenOf(kind, more + ListedOf(kind, items), Refs(ListedOf(kind, items)))
  {
    var ls := ListedOf(kind, items);
    ListedKinds(kind, items);
    hide ListedOf;
    forall ref ensures ref in Refs(ls) <==> exists l :: l in ls && RefOf(l) == ref { RefsOfThese(ls, ref); }
    hide Refs, RefOf;
    assert forall l :: l in ls + more <==> l in ls || l in more;
    assert forall l :: l in more + ls <==> l in ls || l in more;
  }

  lemma {:induction false} RefsOfThese(ls: seq<Listed>, ref: string)
    ensures ref in Refs(ls) <==> exists l :: l in ls && RefOf(l) == ref
  {
    hide RefOf;
    if ls != [] {
      var n := |ls| - 1;
      RefsOfThese(ls[..n], ref);
      assert ls == ls[..n] + [ls[n]];
      assert forall l :: l in ls <==> l in ls[..n] || l == ls[n];
    }
  }

  class Session {
    const org: Org
    const source: string
    var db: Db
    var ciToAsset: map<string, Id>
    var seenEdgeRefs: seq<string>

    // `upsert_external_asset`
    method UpsertAsset(w: Write) returns (inserted: bool, id: Id)
      requires Valid(db)
      modifies `db
      ensures db == Put(org, source, old(db), w)
      ensures id == AssetSlot(old(db), org, Origin(source, w.ref)) && inserted == (id !in old(db).assets)
      ensures id in db.assets
    {
      hide AssetSlot, Valid, Projected, Created;
      var found;
      found, id := FindAsset(db, org, Origin(source, w.ref));
      inserted := !found;
      db := db.(assets := db.assets[id := if found then Projected(db.assets[id], w) else Created(org, source, w)],
                next := if found then db.next else db.next + 1);
    }

    // `_link_owner`
    method LinkOwner(id: Id, name: string) returns (owner: Option<Id>)
      requires id in db.assets
      modifies `db
      ensures owner == OwnerIn(old(db), org, name)
      ensures db == if owner.None? then old(db) else old(db).(assets := old(db).assets[id := old(db).assets[id].(owner := owner)])
    {
      if name == "" { return None; }
      owner := FirstNamed(db.assets, org, name, 0, db.next);
      if owner.Some? { db := db.(assets := db.assets[id := db.assets[id].(owner := owner)]); }
    }

    // One round of the loop over a class.
    method UpsertCi(l: Listed, ghost before: Db, ghost ls: seq<Listed>, ghost ids: map<string, Id>)
        returns (inserted: bool, ghost ids': map<string, Id>)
      requires Valid(before) && Classed(org, source, before) && Known(ls + [l])
      requires Progress(org, source, before, ls, db, ids, ciToAsset)
      modifies `db, `ciToAsset
      ensures Progress(org, source, before, ls + [l], db, ids', ciToAsset)
      ensures inserted <==> !HasAsset(before, org, source, RefOf(l))
    {
      hide *;
      ghost var start, w := db, WriteOf(before, org, l);
      ProgressValid(org, source, before, ls, db, ids, ciToAsset);
      ProgressProjects(org, source, before, ls, db, ids, ciToAsset);
      OwnerFound(org, source, before, ls, db, ids, l);
      ProgressOneMore(org, source, before, ls, db, ids, ciToAsset, l);
      PutThenOwner(org, source, db, w);
      BareWrite(before, org, l);
      var bare := Write(l.kind, Cut(l.ci.name), l.ci.description, StatusOf(l.ci), MetadataOf(l), RefOf(l), None);
      var id;
      inserted, id := UpsertAsset(bare);
      var owner := LinkOwner(id, l.ci.owner);
      ids' := ids[RefOf(l) := id];
      ciToAsset := ciToAsset[l.ci.id := id];
    }

    // The loop over one class.
    method UpsertClass(kind: string, items: seq<Entry<Ci>>, ghost before: Db, ghost done: seq<Listed>, ghost ids: map<string, Id>)
        returns (counts: Counts, seen: seq<string>, ghost ids': map<string, Id>)
      requires forall i | 0 <= i < |items| :: items[i].Object?
      requires Valid(before) && Classed(org, source, before) && Known(done + ListedOf(kind, items))
      requires Progress(org, source, before, done, db, ids, ciToAsset)
      modifies `db, `ciToAsset
      ensures Progress(org, source, before, done + ListedOf(kind, items), db, ids', ciToAsset)
      ensures counts.created == CountNew(org, source, before, ListedOf(kind, items))
      ensures counts.created + counts.updated == |items| && counts.archived == 0
      ensures seen == Refs(ListedOf(kind, items))
    {
      hide *;
      counts, seen, ids' := Counts(0, 0, 0), [], ids;
      FirstRound(org, source, before, kind, items, done);
      for k := 0 to |items|
        invariant Progress(org, source, before, done + ListedOf(kind, items[..k]), db, ids', ciToAsset)
        invariant counts.created == CountNew(org, source, before, ListedOf(kind, items[..k]))
        invariant counts.created + counts.updated == k && counts.archived == 0
        invariant seen == Refs(ListedOf(kind, items[..k]))
      {
        ghost var ls := ListedOf(kind, items[..k]);
        var l := Listed(kind, items[k].value);
        NextRound(org, source, before, kind, items, k, done);
        var inserted;
        inserted, ids' := UpsertCi(l, before, done + ls, ids');
        seen := seen + [RefOf(l)];
        counts := if inserted then counts.(created := counts.created + 1) else counts.(updated := counts.updated + 1);
      }
      assert items[..|items|] == items;
    }

    // `upsert_external_edge`
    method UpsertEdge(w: EdgeWrite)
      requires Valid(db) && w.srcRef in ciToAsset && w.dstRef in ciToAsset
      modifies `db, `seenEdgeRefs
      ensures var r := StepEdge(org, source, Run(old(db), ciToAsset, [], old(seenEdgeRefs), NO_TALLY), w);
              db == r.db && seenEdgeRefs == r.seenEdges
    {
      hide EdgeSlot, Valid, Redrawn, NewEdge, CountEdge;
      var src, dst := ciToAsset[w.srcRef], ciToAsset[w.dstRef];
      var found, id := FindEdge(db, org, Origin(source, w.ref));
      db := db.(edges := db.edges[id := if found then Redrawn(db.edges[id], w, src, dst) else NewEdge(org, source, w, src, dst)],
                next := if found then db.next else db.next + 1);
      seenEdgeRefs := seenEdgeRefs + [w.ref];
    }

    ghost function State(): Run reads this { Run(db, ciToAsset, [], seenEdgeRefs, NO_TALLY) }

    lemma StateParts()
      ensures State().db == db && State().ids == ciToAsset && State().seenEdges == seenEdgeRefs
    {
    }

    // The dependencies of one CI.
    method DrawOneCi(ci: Ci, known: set<string>, ghost ops: seq<Op>, ghost start: Db) returns (count: nat)
      requires ci.id in known && ciToAsset.Keys == known
      requires Drawn(org, source, ops, start, ciToAsset, State())
      requires forall id | id in ciToAsset :: ciToAsset[id] in start.assets
      modifies `db, `seenEdgeRefs
      ensures Drawn(org, source, ops + OneCiOps(ci.id, ci.dependsOn, known), start, ciToAsset, State())
      ensures count == |OneCiOps(ci.id, ci.dependsOn, known)|
    {
      assert OneCiOps(ci.id, ci.dependsOn[..0], known) == [];
      hide Drawn, Valid, StepEdge, OneCiOps, EdgePlan, Resolved, EdgesAfter, DependsOn;
      var deps := ci.dependsOn;
      count := 0;
      assert ops + [] == ops;
      for j := 0 to |deps|
        invariant Drawn(org, source, ops + OneCiOps(ci.id, deps[..j], known), start, ciToAsset, State())
        invariant count == |OneCiOps(ci.id, deps[..j], known)|
      {
        ghost var upTo := ops + OneCiOps(ci.id, deps[..j], known);
        NextDependency(ops, ci.id, deps, j, known);
        if deps[j] != ci.id && deps[j] in ciToAsset {
          DrawnValid(org, source, upTo, start, ciToAsset, State());
          ghost var was := State();
          UpsertEdge(DependsOn(ci.id, deps[j]));
          count := count + 1;
          DrawnStep(org, source, upTo, start, was, State(), DependsOn(ci.id, deps[j]));
        }
      }
      assert deps[..|deps|] == deps;
    }

    // The loop over every listed CI.
    method DrawDependencies(ls: seq<Listed>, ghost start: Db) returns (count: nat)
      requires start == db && Valid(db) && seenEdgeRefs == [] && ciToAsset.Keys == CiIds(ls)
      requires forall id | id in ciToAsset :: ciToAsset[id] in db.assets
      modifies `db, `seenEdgeRefs
      ensures Drawn(org, source, DependencyOps(ls, CiIds(ls)), start, ciToAsset, State())
      ensures count == |DependencyOps(ls, CiIds(ls))|
      ensures State().db == db && State().ids == ciToAsset && State().seenEdges == seenEdgeRefs
    {
      StateParts();
      var known := CiIds(ls);
      assert DependencyOps(ls[..0], known) == [];
      assert forall i | 0 <= i < |ls| :: ls[i].ci.id in known;
      hide *;
      count := 0;
      DrawnNothing(org, source, start, State());
      for i := 0 to |ls|
        invariant Drawn(org, source, DependencyOps(ls[..i], known), start, ciToAsset, State())
        invariant count == |DependencyOps(ls[..i], known)|
      {
        NextCi(ls, i, known);
        var more := DrawOneCi(ls[i].ci, known, DependencyOps(ls[..i], known), start);
        count := count + more;
      }
      assert ls[..|ls|] == ls;
      StateParts();
    }

    // `prune_stale_edges`, from the assets of this run.
    method PruneStaleEdges(ghost plan: map<string, EdgeWrite>) returns (count: nat)
      requires forall ref :: ref in seenEdgeRefs <==> ref in plan
      modifies `db
      ensures db == Sweep(org, source, plan, Some(ciToAsset.Values), old(db))
      ensures count == |SweptIds(org, source, plan, Some(ciToAsset.Values), old(db))|
    {
      var stale := set e | e in db.edges && OwnsEdge(org, source, db.edges[e])
                           && db.edges[e].origin.value.ref !in seenEdgeRefs && db.edges[e].src in ciToAsset.Values;
      assert stale == SweptIds(org, source, plan, Some(ciToAsset.Values), db);
      count := |stale|;
      db := db.(edges := map e | e in db.edges && e !in stale :: db.edges[e]);
      assert db.edges == Sweep(org, source, plan, Some(ciToAsset.Values), old(db)).edges;
    }

    // `_archive_stale`
    method ArchiveStale(kind: string, seen: seq<string>, archive: bool) returns (count: nat, refs: set<string>)
      modifies `db
      ensures var stale := StaleOf(org, source, kind, seen, old(db));
              db == (if archive then Archive(old(db), stale) else old(db))
              && count == (if archive then |Unarchived(old(db), stale)| else 0)
              && refs == RefsAt(old(db), stale)
    {
      var stale := StaleOf(org, source, kind, seen, db);
      refs := RefsAt(db, stale);
      count := 0;
      if archive && stale != {} {
        count := |Unarchived(db, stale)|;
        db := Archive(db, stale);
      } else if archive {
        assert Archive(db, stale).assets == db.assets;
        assert Unarchived(db, stale) == {};
      }
    }

    /** `sync_inventory`.  A malformed inventory changes nothing.  Otherwise `work` is the database at the end
        of the transaction, which a dry run rolls back; the counts are those of `work` either way. */
    method SyncInventory(inv: Inventory, dryRun: bool, archiveMissing: bool)
        returns (r: SyncResult, ghost work: Db, ghost cis: map<string, Id>)
      requires Valid(db) && Classed(org, source, db)
      modifies this
      ensures r.errors == [] <==> Usable(inv)
      ensures r.errors != [] ==> db == old(db)
      ensures r.errors == [] ==> Effect(org, source, inv, archiveMissing, old(db), work, cis)
      ensures r.errors == [] ==> Reports(org, source, inv, archiveMissing, old(db), cis, r)
      ensures r.errors == [] ==> Meaning.Shows(inv, org, source, archiveMissing, old(db), work)
      ensures r.errors == [] ==> db == (if dryRun then old(db) else work) && r.dryRun == dryRun
    {
      hide *;
      work, cis := db, map[];
      r := SyncResult([], Counts(0, 0, 0), Counts(0, 0, 0), 0, 0, {}, dryRun);
      var errors := ValidateInventory(inv);
      if errors != [] {
        r := r.(errors := errors);
        return;
      }
      UsableParts(inv);
      var before := db;
      var ls := Cis(inv);
      ciToAsset, seenEdgeRefs := map[], [];
      NoProgress(org, source, before);
      var systems, seenSystems, ids := UpsertClass(SYSTEM, Entries(inv.systems), before, [], map[]);
      var devices, seenDevices, ids' := UpsertClass(DEVICE, Entries(inv.devices), before, ListedOf(SYSTEM, Entries(inv.systems)), ids);
      ghost var projected := db;
      cis := ciToAsset;
      ProgressRows(org, source, before, ls, db, ids', ciToAsset);
      var edges := DrawDependencies(ls, db);
      ghost var drawn := State();
      ghost var plan, edgePlan := PlanFor(org, before, inv), EdgePlanFor(inv);
      DrawnSeen(org, source, inv, projected, ciToAsset, drawn);
      var pruned := PruneStaleEdges(edgePlan);
      ghost var swept := db;
      SweptAssets(org, source, edgePlan, Some(cis.Values), drawn.db);
      var stale: set<string> := {};
      if inv.systems.Some? {
        var archived, refs := ArchiveStale(SYSTEM, seenSystems, archiveMissing);
        systems, stale := systems.(archived := archived), stale + refs;
      }
      ghost var halfway := db;
      ArchiveIfIs(org, source, SYSTEM, seenSystems, swept);
      if inv.devices.Some? {
        var archived, refs := ArchiveStale(DEVICE, seenDevices, archiveMissing);
        devices, stale := devices.(archived := archived), stale + refs;
      }
      work := db;
      ArchiveIfIs(org, source, DEVICE, seenDevices, halfway);
      r := SyncResult([], systems, devices, edges, pruned, stale, dryRun);
      Phased(org, source, inv, archiveMissing, before, projected, ids', cis, drawn, swept, halfway, work, seenSystems, seenDevices);
      Assembled(org, source, inv, archiveMissing, before, projected, ids', cis, drawn, swept, halfway, work, seenSystems, seenDevices);
      Counted(org, source, inv, archiveMissing, before, projected, ids', cis, drawn, swept, halfway, work, seenSystems, seenDevices);
      Reported(org, source, inv, archiveMissing, before, cis, r);
      Meaning.EffectShows(org, source, inv, archiveMissing, before, work, cis);
      if dryRun { db := before; }
    }
  }

  lemma NextCi(ls: seq<Listed>, i: nat, known: set<string>)
    requires i < |ls|
    ensures DependencyOps(ls[..i + 1], known) == DependencyOps(ls[..i], known) + OneCiOps(ls[i].ci.id, ls[i].ci.dependsOn, known)
    ensures DependencyOps(ls[..i], known) + OneCiOps(ls[i].ci.id, ls[i].ci.dependsOn[..0], known) == DependencyOps(ls[..i], known)
  {
    assert ls[..i + 1][..i] == ls[..i];
  }

  lemma NextDependency(ops: seq<Op>, id: string, deps: seq<string>, j: nat, known: set<string>)
    requires j < |deps|
    ensures ops + OneCiOps(id, deps[..j + 1], known)
         == if deps[j] != id && deps[j] in known then ops + OneCiOps(id, deps[..j], known) + [PutEdge(DependsOn(id, deps[j]))]
            else ops + OneCiOps(id, deps[..j], known)
    ensures |OneCiOps(id, deps[..j + 1], known)|
         == |OneCiOps(id, deps[..j], known)| + if deps[j] != id && deps[j] in known then 1 else 0
    ensures DependsOn(id, deps[j]).srcRef == id && DependsOn(id, deps[j]).dstRef == deps[j]
  {
    hide DependsRef;
    assert deps[..j + 1][..j] == deps[..j];
  }

  lemma BareWrite(before: Db, org: Org, l: Listed)
    ensures var w := WriteOf(before, org, l);
            w.(owner := None) == Write(l.kind, Cut(l.ci.name), l.ci.description, StatusOf(l.ci), MetadataOf(l), RefOf(l), None)
            && w.ref == RefOf(l) && w.owner == OwnerIn(before, org, l.ci.owner)
  {
  }

  lemma ProgressProjects(org: Org, source: string, before: Db, ls: seq<Listed>, db: Db, ids: map<string, Id>, cis: map<string, Id>)
    requires Progress(org, source, before, ls, db, ids, cis)
    ensures Projects(org, source, PlanOf(Writes(before, org, ls)), before, db, ids)
  {
    hide Projects;
  }

  lemma ProgressValid(org: Org, source: string, before: Db, ls: seq<Listed>, db: Db, ids: map<string, Id>, cis: map<string, Id>)
    requires Progress(org, source, before, ls, db, ids, cis)
    ensures Valid(db)
  {
    hide Valid;
  }

  lemma DrawnValid(org: Org, source: string, ops: seq<Op>, start: Db, ids: map<string, Id>, r: Run)
    requires Drawn(org, source, ops, start, ids, r)
    ensures Valid(r.db)
  {
    hide Valid;
  }

  lemma DrawnStep(org: Org, source: string, ops: seq<Op>, start: Db, was: Run, now: Run, w: EdgeWrite)
    requires Drawn(org, source, ops, start, was.ids, was) && w.srcRef in was.ids && w.dstRef in was.ids
    requires forall ref | ref in was.ids :: was.ids[ref] in start.assets
    requires now.db == StepEdge(org, source, was, w).db && now.seenEdges == StepEdge(org, source, was, w).seenEdges && now.ids == was.ids
    ensures Drawn(org, source, ops + [PutEdge(w)], start, now.ids, now)
  {
    hide Valid, EdgesAfter, EdgePlan, Resolved, StepEdge;
    DrawnOneMore(org, source, ops, start, was.ids, was, w);
    StepEdgeRest(org, source, was, w);
  }

  lemma NextListed(kind: string, items: seq<Entry<Ci>>, k: nat, done: seq<Listed>)
    requires k < |items| && forall i | 0 <= i < |items| :: items[i].Object?
    requires Known(done + ListedOf(kind, items))
    ensures ListedOf(kind, items[..k + 1]) == ListedOf(kind, items[..k]) + [Listed(kind, items[k].value)]
    ensures done + ListedOf(kind, items[..k]) + [Listed(kind, items[k].value)] == done + ListedOf(kind, items[..k + 1])
    ensures Known(done + ListedOf(kind, items[..k]) + [Listed(kind, items[k].value)])
  {
    assert items[..k + 1][..k] == items[..k];
    ListedAre(kind, items);
    ListedAre(kind, items[..k + 1]);
    var (some, all) := (done + ListedOf(kind, items[..k + 1]), done + ListedOf(kind, items));
    assert forall i | 0 <= i < |some| :: some[i] == all[i];
  }

  lemma FirstRound(org: Org, source: string, before: Db, kind: string, items: seq<Entry<Ci>>, done: seq<Listed>)
    ensures var ls := ListedOf(kind, items[..0]);
            done + ls == done && CountNew(org, source, before, ls) == 0 && Refs(ls) == []
  {
  }

  lemma NextRound(org: Org, source: string, before: Db, kind: string, items: seq<Entry<Ci>>, k: nat, done: seq<Listed>)
    requires k < |items| && forall i | 0 <= i < |items| :: items[i].Object?
    requires Known(done + ListedOf(kind, items))
    ensures var (ls, l, more) := (ListedOf(kind, items[..k]), Listed(kind, items[k].value), ListedOf(kind, items[..k + 1]));
            && done + ls + [l] == done + more && Known(done + ls + [l])
            && CountNew(org, source, before, more) == CountNew(org, source, before, ls)
                 + (if HasAsset(before, org, source, RefOf(l)) then 0 else 1)
            && Refs(more) == Refs(ls) + [RefOf(l)]
  {
    NextListed(kind, items, k, done);
    hide *;
    CountNext(org, source, before, ListedOf(kind, items[..k]), Listed(kind, items[k].value));
    RefsNext(ListedOf(kind, items[..k]), Listed(kind, items[k].value));
  }

  lemma CountNext(org: Org, source: string, before: Db, ls: seq<Listed>, l: Listed)
    ensures CountNew(org, source, before, ls + [l])
         == CountNew(org, source, before, ls) + if HasAsset(before, org, source, RefOf(l)) then 0 else 1
  {
    hide HasAsset, RefOf;
    assert (ls + [l])[..|ls|] == ls;
  }

  /*************** from the statements to the effect ***************/

  ghost predicate ClassReport(org: Org, source: string, kind: string, list: Option<Listing<Ci>>, archive: bool,
                              plan: map<string, Write>, before: Db, c: Counts) {
    && c.created == CountNew(org, source, before, ListedOf(kind, Entries(list)))
    && c.created + c.updated == |Entries(list)|
    && c.archived == (if archive && list.Some? then |Unarchived(before, MissingIds(org, source, {kind}, plan, before))| else 0)
  }

  /** What a run reports, in terms of the database before it. */
  ghost predicate Reports(org: Org, source: string, inv: Inventory, archive: bool, before: Db, cis: map<string, Id>, r: SyncResult) {
    && inv.Inventory?
    && ClassReport(org, source, SYSTEM, inv.systems, archive, PlanFor(org, before, inv), before, r.systems)
    && ClassReport(org, source, DEVICE, inv.devices, archive, PlanFor(org, before, inv), before, r.devices)
    && r.dependencyEdges == |DependencyOps(Cis(inv), CiIds(Cis(inv)))|
    && r.edgesPruned == |SweptIds(org, source, EdgePlanFor(inv), Some(cis.Values), before)|
    && r.stale == (if inv.systems.Some? then RefsAt(before, MissingIds(org, source, {SYSTEM}, PlanFor(org, before, inv), before)) else {})
                + (if inv.devices.Some? then RefsAt(before, MissingIds(org, source, {DEVICE}, PlanFor(org, before, inv), before)) else {})
  }

  lemma UsableParts(inv: Inventory)
    requires Usable(inv)
    ensures inv.Inventory? && Known(Cis(inv))
    ensures Cis(inv) == ListedOf(SYSTEM, Entries(inv.systems)) + ListedOf(DEVICE, Entries(inv.devices))
    ensures Known([] + ListedOf(SYSTEM, Entries(inv.systems)))
    ensures [] + ListedOf(SYSTEM, Entries(inv.systems)) == ListedOf(SYSTEM, Entries(inv.systems))
    ensures forall i | 0 <= i < |Entries(inv.systems)| :: Entries(inv.systems)[i].Object?
    ensures forall i | 0 <= i < |Entries(inv.devices)| :: Entries(inv.devices)[i].Object?
  {
    EntriesAre(Entries(inv.systems), {});
    EntriesAre(Entries(inv.devices), IdsOf(Entries(inv.systems)));
    UsableDistinct(inv);
    CisKinds(inv);
    hide *;
    KnownFront(ListedOf(SYSTEM, Entries(inv.systems)), ListedOf(DEVICE, Entries(inv.devices)));
  }

  lemma KnownFront(s: seq<Listed>, d: seq<Listed>)
    requires DistinctCis(s + d) && forall i | 0 <= i < |s + d| :: (s + d)[i].kind in {SYSTEM, DEVICE}
    ensures Known(s + d) && Known([] + s) && [] + s == s
  {
    assert [] + s == s;
    assert forall i | 0 <= i < |s| :: s[i] == (s + d)[i];
  }

  lemma NoProgress(org: Org, source: string, before: Db)
    requires Valid(before)
    ensures Progress(org, source, before, [], before, map[], map[])
  {
    ProjectsNothing(org, source, before);
    hide Valid, Projects;
  }

  lemma ProgressRows(org: Org, source: string, before: Db, ls: seq<Listed>, db: Db, ids: map<string, Id>, cis: map<string, Id>)
    requires Progress(org, source, before, ls, db, ids, cis)
    ensures Valid(db) && CiRows(org, source, ls, db, cis) && cis.Keys == CiIds(ls)
    ensures forall id | id in cis :: cis[id] in db.assets
  {
    hide Valid, HasAsset, RefOf, CiIds;
    assert CiRows(org, source, ls, db, cis);
    forall id | id in cis ensures cis[id] in db.assets { IdListed(ls, id); }
  }

  lemma IdListed(ls: seq<Listed>, id: string)
    requires id in CiIds(ls)
    ensures exists l :: l in ls && l.ci.id == id
  {
    var i :| 0 <= i < |ls| && ls[i].ci.id == id;
    assert ls[i] in ls;
  }

  lemma DrawnSeen(org: Org, source: string, inv: Inventory, start: Db, ids: map<string, Id>, r: Run)
    requires Drawn(org, source, DependencyOps(Cis(inv), CiIds(Cis(inv))), start, ids, r)
    ensures r.db.assets == start.assets && start.next <= r.db.next && Valid(r.db) && Resolved(ids, EdgePlanFor(inv))
    ensures EdgesAfter(org, source, EdgePlanFor(inv), ids, start, r.db)
    ensures forall ref :: ref in r.seenEdges <==> ref in EdgePlanFor(inv)
  {
    hide Valid, EdgesAfter, EdgePlan, DependencyOps, Cis, CiIds;
  }

  lemma SweptAssets(org: Org, source: string, plan: map<string, EdgeWrite>, scope: Option<set<Id>>, db: Db)
    ensures Sweep(org, source, plan, scope, db).assets == db.assets
  {
  }

  // The states a transaction passes through.
  ghost predicate Phases(org: Org, source: string, inv: Inventory, archive: bool, before: Db, projected: Db, ids: map<string, Id>,
                         cis: map<string, Id>, drawn: Run, swept: Db, halfway: Db, work: Db,
                         seenSystems: seq<string>, seenDevices: seq<string>) {
    && inv.Inventory? && Known(Cis(inv))
    && Valid(before) && Classed(org, source, before)
    && Projects(org, source, PlanFor(org, before, inv), before, projected, ids)
    && CiRows(org, source, Cis(inv), projected, cis)
    && Valid(drawn.db) && drawn.db.assets == projected.assets && projected.next <= drawn.db.next
    && Resolved(cis, EdgePlanFor(inv)) && EdgesAfter(org, source, EdgePlanFor(inv), cis, projected, drawn.db)
    && swept == Sweep(org, source, EdgePlanFor(inv), Some(cis.Values), drawn.db)
    && SeenOf(SYSTEM, Cis(inv), seenSystems) && SeenOf(DEVICE, Cis(inv), seenDevices)
    && halfway == ArchiveIf(org, source, SYSTEM, archive && inv.systems.Some?, seenSystems, swept)
    && work == ArchiveIf(org, source, DEVICE, archive && inv.devices.Some?, seenDevices, halfway)
  }

  lemma Phased(org: Org, source: string, inv: Inventory, archive: bool, before: Db, projected: Db, ids: map<string, Id>,
               cis: map<string, Id>, drawn: Run, swept: Db, halfway: Db, work: Db, seenSystems: seq<string>, seenDevices: seq<string>)
    requires inv.Inventory? && Known(Cis(inv)) && Valid(before) && Classed(org, source, before)
    requires Progress(org, source, before, Cis(inv), projected, ids, cis) && CiRows(org, source, Cis(inv), projected, cis)
    requires Valid(drawn.db) && drawn.db.assets == projected.assets && projected.next <= drawn.db.next
    requires Resolved(cis, EdgePlanFor(inv)) && EdgesAfter(org, source, EdgePlanFor(inv), cis, projected, drawn.db)
    requires swept == Sweep(org, source, EdgePlanFor(inv), Some(cis.Values), drawn.db)
    requires seenSystems == Refs(ListedOf(SYSTEM, Entries(inv.systems))) && seenDevices == Refs(ListedOf(DEVICE, Entries(inv.devices)))
    requires halfway == ArchiveIf(org, source, SYSTEM, archive && inv.systems.Some?, seenSystems, swept)
    requires work == ArchiveIf(org, source, DEVICE, archive && inv.devices.Some?, seenDevices, halfway)
    ensures Phases(org, source, inv, archive, before, projected, ids, cis, drawn, swept, halfway, work, seenSystems, seenDevices)
  {
    ProgressProjects(org, source, before, Cis(inv), projected, ids, cis);
    assert PlanFor(org, before, inv) == PlanOf(Writes(before, org, Cis(inv)));
    ListedKinds(SYSTEM, Entries(inv.systems));
    ListedKinds(DEVICE, Entries(inv.devices));
    RefsAreSeen(SYSTEM, Entries(inv.systems), ListedOf(DEVICE, Entries(inv.devices)));
    RefsAreSeen(DEVICE, Entries(inv.devices), ListedOf(SYSTEM, Entries(inv.systems)));
    assert Cis(inv) == ListedOf(SYSTEM, Entries(inv.systems)) + ListedOf(DEVICE, Entries(inv.devices));
  }

  lemma ArchiveIfRetires(org: Org, source: string, before: Db, ls: seq<Listed>, kind: string, on: bool, seen: seq<string>, db: Db)
    requires Known(ls) && SeenOf(kind, ls, seen) && kind in {SYSTEM, DEVICE} && Classed(org, source, db)
    ensures ArchiveIf(org, source, kind, on, seen, db)
         == RetireMissing(org, source, Retirement(if on then {kind} else {}, map[]), PlanOf(Writes(before, org, ls)), db)
    ensures Classed(org, source, ArchiveIf(org, source, kind, on, seen, db))
  {
    hide *;
    ArchiveIfIs(org, source, kind, seen, db);
    var plan := PlanOf(Writes(before, org, ls));
    if on {
      StaleIsMissing(org, source, before, ls, kind, seen, db);
      ArchiveIsRetire(org, source, {kind}, plan, db, StaleOf(org, source, kind, seen, db));
    } else {
      RetireNone(org, source, plan, db);
    }
    RetireKeepsClassed(org, source, Retirement(if on then {kind} else {}, map[]), plan, db);
  }

  lemma PhasesClassed(org: Org, source: string, inv: Inventory, archive: bool, before: Db, projected: Db, ids: map<string, Id>,
                      cis: map<string, Id>, drawn: Run, swept: Db, halfway: Db, work: Db, seenSystems: seq<string>, seenDevices: seq<string>)
    requires Phases(org, source, inv, archive, before, projected, ids, cis, drawn, swept, halfway, work, seenSystems, seenDevices)
    ensures Classed(org, source, swept) && swept.assets == projected.assets
    ensures ClassPlan(PlanFor(org, before, inv))
  {
    WritesAreClassed(before, org, Cis(inv));
    hide Valid, Projects, CiRows, EdgesAfter, SeenOf, ClassPlan, PlanOf, Writes;
    ProjectionIsClassed(org, source, PlanFor(org, before, inv), before, projected, ids);
    SweptAssets(org, source, EdgePlanFor(inv), Some(cis.Values), drawn.db);
  }

  // The archive statements together retire the missing rows of the carried classes.
  lemma ArchivedIs(org: Org, source: string, inv: Inventory, archive: bool, before: Db, projected: Db, ids: map<string, Id>,
                   cis: map<string, Id>, drawn: Run, swept: Db, halfway: Db, work: Db, seenSystems: seq<string>, seenDevices: seq<string>)
    requires Phases(org, source, inv, archive, before, projected, ids, cis, drawn, swept, halfway, work, seenSystems, seenDevices)
    ensures var plan := PlanFor(org, before, inv);
            var first: set<string> := if archive && inv.systems.Some? then {SYSTEM} else {};
            halfway == RetireMissing(org, source, Retirement(first, map[]), plan, swept)
            && work == RetireMissing(org, source, RetirementFor(inv, archive), plan, swept)
            && Classed(org, source, halfway) && Classed(org, source, work)
  {
    PhasesClassed(org, source, inv, archive, before, projected, ids, cis, drawn, swept, halfway, work, seenSystems, seenDevices);
    hide Valid, Projects, CiRows, EdgesAfter, SeenOf, Classed, PlanOf, Writes, RetireMissing, ArchiveIf, Known, Resolved;
    var plan := PlanFor(org, before, inv);
    var first: set<string> := if archive && inv.systems.Some? then {SYSTEM} else {};
    var second: set<string> := if archive && inv.devices.Some? then {DEVICE} else {};
    ArchiveIfRetires(org, source, before, Cis(inv), SYSTEM, archive && inv.systems.Some?, seenSystems, swept);
    ArchiveIfRetires(org, source, before, Cis(inv), DEVICE, archive && inv.devices.Some?, seenDevices, halfway);
    RetireTwo(org, source, first, second, plan, swept);
    assert CarriedKinds(inv, archive) == first + second;
  }

  lemma SameAssetsSynced(org: Org, source: string, r: Retirement, plan: map<string, Write>, before: Db, a: Db, b: Db)
    requires AssetsSynced(org, source, r, plan, before, a) && a.assets == b.assets
    ensures AssetsSynced(org, source, r, plan, before, b)
  {
    hide Synced, IsNew;
    forall ref | ref in plan ensures HasAsset(b, org, source, ref) {
      assert HasAsset(a, org, source, ref);
    }
  }

  lemma RetireKeepsRows(org: Org, source: string, r: Retirement, plan: map<string, Write>, ls: seq<Listed>, db: Db, cis: map<string, Id>)
    requires CiRows(org, source, ls, db, cis)
    ensures CiRows(org, source, ls, RetireMissing(org, source, r, plan, db), cis)
  {
    hide RefOf;
  }

  lemma Assembled(org: Org, source: string, inv: Inventory, archive: bool, before: Db, projected: Db, ids: map<string, Id>,
                  cis: map<string, Id>, drawn: Run, swept: Db, halfway: Db, work: Db, seenSystems: seq<string>, seenDevices: seq<string>)
    requires Phases(org, source, inv, archive, before, projected, ids, cis, drawn, swept, halfway, work, seenSystems, seenDevices)
    ensures Effect(org, source, inv, archive, before, work, cis)
  {
    var (plan, edgePlan, r) := (PlanFor(org, before, inv), EdgePlanFor(inv), RetirementFor(inv, archive));
    ArchivedIs(org, source, inv, archive, before, projected, ids, cis, drawn, swept, halfway, work, seenSystems, seenDevices);
    PhasesClassed(org, source, inv, archive, before, projected, ids, cis, drawn, swept, halfway, work, seenSystems, seenDevices);
    hide PlanFor, EdgePlanFor, RetirementFor, Valid, Projects, CiRows, EdgesAfter, EdgesSynced, SeenOf, Classed, Known, ArchiveIf, Sweep, AssetsSynced, Cis, Resolved;
    RetiredProjection(org, source, r, plan, before, projected, ids);
    SameAssetsSynced(org, source, r, plan, before, RetireMissing(org, source, r, plan, projected), work);
    SweepKeepsValid(org, source, edgePlan, Some(cis.Values), drawn.db);
    RetireKeepsValid(org, source, r, plan, swept);
    SameRowsAfter(org, source, Cis(inv), projected, swept, cis);
    RetireKeepsRows(org, source, r, plan, Cis(inv), swept, cis);
    SweptEdges(org, source, edgePlan, cis, Some(cis.Values), projected, drawn.db);
    ProjectedEdges(org, source, plan, before, projected, ids);
    PlanSameEdges(org, source, edgePlan, cis, Some(cis.Values), before, projected, swept, work);
  }

  lemma ProjectedEdges(org: Org, source: string, plan: map<string, Write>, before: Db, after: Db, ids: map<string, Id>)
    requires Projects(org, source, plan, before, after, ids)
    ensures after.edges == before.edges && before.next <= after.next
  {
  }

  lemma SameRowsAfter(org: Org, source: string, ls: seq<Listed>, a: Db, b: Db, cis: map<string, Id>)
    requires CiRows(org, source, ls, a, cis) && a.assets == b.assets
    ensures CiRows(org, source, ls, b, cis)
  {
  }

  /*************** from the counts to the report ***************/

  // At the time of an archive statement the missing rows of the class are still as they were before the run.
  ghost predicate MissingKept(org: Org, source: string, kind: string, plan: map<string, Write>, before: Db, db: Db) {
    && (forall i | i in before.assets :: i in db.assets &&
          if Missing(org, source, {kind}, plan, before.assets[i]) then db.assets[i] == before.assets[i]
          else !Missing(org, source, {kind}, plan, db.assets[i]))
    && (forall i | i in db.assets && i !in before.assets :: !Missing(org, source, {kind}, plan, db.assets[i]))
  }

  lemma ProjectionKeepsMissing(org: Org, source: string, kind: string, plan: map<string, Write>, before: Db, db: Db, ids: map<string, Id>)
    requires Projects(org, source, plan, before, db, ids)
    ensures MissingKept(org, source, kind, plan, before, db)
  {
    hide Valid, HasAsset, Names;
  }

  lemma RetireKeepsOthers(org: Org, source: string, kind: string, r: Retirement, plan: map<string, Write>, before: Db, db: Db)
    requires MissingKept(org, source, kind, plan, before, db) && kind !in r.kinds
    ensures MissingKept(org, source, kind, plan, before, RetireMissing(org, source, r, plan, db))
  {
  }

  lemma StaleThen(org: Org, source: string, kind: string, before: Db, ls: seq<Listed>, seen: seq<string>, db: Db)
    requires Known(ls) && SeenOf(kind, ls, seen) && kind in {SYSTEM, DEVICE} && Classed(org, source, db)
    requires MissingKept(org, source, kind, PlanOf(Writes(before, org, ls)), before, db)
    ensures var (stale, missing) := (StaleOf(org, source, kind, seen, db), MissingIds(org, source, {kind}, PlanOf(Writes(before, org, ls)), before));
            stale == missing && Unarchived(db, stale) == Unarchived(before, missing) && RefsAt(db, stale) == RefsAt(before, missing)
  {
    StaleIsMissing(org, source, before, ls, kind, seen, db);
    hide Known, SeenOf, Classed, PlanOf, Writes;
    var plan := PlanOf(Writes(before, org, ls));
    var (stale, missing) := (StaleOf(org, source, kind, seen, db), MissingIds(org, source, {kind}, plan, before));
    assert forall i | i in missing :: db.assets[i] == before.assets[i];
    assert stale == missing;
  }

  lemma Counted(org: Org, source: string, inv: Inventory, archive: bool, before: Db, projected: Db, ids: map<string, Id>,
                cis: map<string, Id>, drawn: Run, swept: Db, halfway: Db, work: Db, seenSystems: seq<string>, seenDevices: seq<string>)
    requires Phases(org, source, inv, archive, before, projected, ids, cis, drawn, swept, halfway, work, seenSystems, seenDevices)
    ensures var plan := PlanFor(org, before, inv);
            var (s, d) := (MissingIds(org, source, {SYSTEM}, plan, before), MissingIds(org, source, {DEVICE}, plan, before));
            && StaleOf(org, source, SYSTEM, seenSystems, swept) == s && Unarchived(swept, s) == Unarchived(before, s)
            && RefsAt(swept, s) == RefsAt(before, s)
            && StaleOf(org, source, DEVICE, seenDevices, halfway) == d && Unarchived(halfway, d) == Unarchived(before, d)
            && RefsAt(halfway, d) == RefsAt(before, d)
    ensures SweptIds(org, source, EdgePlanFor(inv), Some(cis.Values), drawn.db)
         == SweptIds(org, source, EdgePlanFor(inv), Some(cis.Values), before)
  {
    var plan := PlanFor(org, before, inv);
    ArchivedIs(org, source, inv, archive, before, projected, ids, cis, drawn, swept, halfway, work, seenSystems, seenDevices);
    PhasesClassed(org, source, inv, archive, before, projected, ids, cis, drawn, swept, halfway, work, seenSystems, seenDevices);
    hide Valid, Projects, CiRows, EdgesAfter, SeenOf, Classed, Known, ArchiveIf, Sweep, PlanOf, Writes, RetireMissing, MissingKept, Unarchived, RefsAt, StaleOf, MissingIds, Resolved;
    ProjectionKeepsMissing(org, source, SYSTEM, plan, before, projected, ids);
    ProjectionKeepsMissing(org, source, DEVICE, plan, before, projected, ids);
    MissingSame(org, source, SYSTEM, plan, before, projected, swept);
    MissingSame(org, source, DEVICE, plan, before, projected, swept);
    RetireKeepsOthers(org, source, DEVICE, Retirement(if archive && inv.systems.Some? then {SYSTEM} else {}, map[]), plan, before, swept);
    StaleThen(org, source, SYSTEM, before, Cis(inv), seenSystems, swept);
    StaleThen(org, source, DEVICE, before, Cis(inv), seenDevices, halfway);
    SweptBefore(org, source, EdgePlanFor(inv), cis, Some(cis.Values), projected, drawn.db);
    ProjectedEdges(org, source, plan, before, projected, ids);
    assert SweptIds(org, source, EdgePlanFor(inv), Some(cis.Values), projected) == SweptIds(org, source, EdgePlanFor(inv), Some(cis.Values), before);
  }

  lemma Reported(org: Org, source: string, inv: Inventory, archive: bool, before: Db, cis: map<string, Id>, r: SyncResult)
    requires inv.Inventory?
    requires r.systems.created == CountNew(org, source, before, ListedOf(SYSTEM, Entries(inv.systems)))
    requires r.devices.created == CountNew(org, source, before, ListedOf(DEVICE, Entries(inv.devices)))
    requires r.systems.created + r.systems.updated == |Entries(inv.systems)|
    requires r.devices.created + r.devices.updated == |Entries(inv.devices)|
    requires var (s, d) := (MissingIds(org, source, {SYSTEM}, PlanFor(org, before, inv), before),
                            MissingIds(org, source, {DEVICE}, PlanFor(org, before, inv), before));
             && r.systems.archived == (if archive && inv.systems.Some? then |Unarchived(before, s)| else 0)
             && r.devices.archived == (if archive && inv.devices.Some? then |Unarchived(before, d)| else 0)
             && r.stale == (if inv.systems.Some? then RefsAt(before, s) else {}) + (if inv.devices.Some? then RefsAt(before, d) else {})
    requires r.dependencyEdges == |DependencyOps(Cis(inv), CiIds(Cis(inv)))|
    requires r.edgesPruned == |SweptIds(org, source, EdgePlanFor(inv), Some(cis.Values), before)|
    ensures Reports(org, source, inv, archive, before, cis, r)
  {
    hide Missing, PlanFor, EdgePlanFor, DependencyOps, Cis, Entries, ListedOf, Unarchived, CountNew, MissingIds, SweptIds, RefsAt, CiIds;
  }

  lemma MissingSame(org: Org, source: string, kind: string, plan: map<string, Write>, before: Db, a: Db, b: Db)
    requires MissingKept(org, source, kind, plan, before, a) && a.assets == b.assets
    ensures MissingKept(org, source, kind, plan, before, b)
  {
  }
}
