/** `sync_findings`: a scanner's export projected into findings and the edges from the systems they affect.
    Unlike an inventory the export speaks for everything its source owns. */
module FindingsSync {
  import opened Options
  import opened Graph
  import opened CatalogDocument
  import opened CatalogPlan
  import opened CatalogRun
  import opened ExternalSync

  datatype Resource = Resource(id: string, name: string)

  // Empty texts are missing ones; `text` is the joined description, `metadata` the fields derived from the record.
  datatype Finding = Finding(id: string, title: string, text: string, metadata: Meta, resource: Option<Resource>)
  datatype Export = NotExport | Export(findings: Listing<Finding>)

  datatype Fault = NotAnObject | FindingsNotList | EntryNotObject | MissingId | DuplicateId(id: string) | MissingTitle
                 | EmptyExport
  datatype SyncResult = SyncResult(errors: seq<Fault>, created: nat, updated: nat, resolved: nat, affects: nat,
                                   edgesPruned: nat, stale: set<string>, unresolved: seq<string>, dryRun: bool)

  function Entries(x: Export): seq<Entry<Finding>> { if x.Export? then Items(x.findings) else [] }

  function Findings(items: seq<Entry<Finding>>): seq<Finding> {
    if items == [] then []
    else Findings(items[..|items| - 1]) + if items[|items| - 1].Object? then [items[|items| - 1].value] else []
  }

  /*************** validation ***************/

  ghost predicate EntriesOk(items: seq<Entry<Finding>>) {
    && (forall i | 0 <= i < |items| :: items[i].Object? && items[i].value.id != "" && items[i].value.title != "")
    && (forall i, j | 0 <= i < j < |items| && items[i].Object? && items[j].Object? :: items[i].value.id != items[j].value.id)
  }

  ghost predicate Usable(x: Export) { x.Export? && x.findings.List? && EntriesOk(Entries(x)) }

  function IdsOf(items: seq<Entry<Finding>>): set<string> {
    set i | 0 <= i < |items| && items[i].Object? && items[i].value.id != "" :: items[i].value.id
  }

  lemma NextEntry(items: seq<Entry<Finding>>, e: Entry<Finding>)
    ensures IdsOf(items + [e]) == IdsOf(items) + (if e.Object? && e.value.id != "" then {e.value.id} else {})
    ensures EntriesOk(items + [e]) <==>
            EntriesOk(items) && e.Object? && e.value.id != "" && e.value.title != "" && e.value.id !in IdsOf(items)
  {
    var all := items + [e];
    assert all[|items|] == e && forall i | 0 <= i < |items| :: all[i] == items[i];
    forall x | x in IdsOf(items) ensures x in IdsOf(all) && (EntriesOk(all) ==> e.Object? && x != e.value.id) {
      var i :| 0 <= i < |items| && items[i].Object? && items[i].value.id != "" && items[i].value.id == x;
      assert all[i].value.id == x;
      assert EntriesOk(all) ==> all[|items|].Object?;
    }
    if e.Object? && e.value.id != "" { assert all[|items|].value.id in IdsOf(all); }
    if EntriesOk(all) { assert all[|items|].Object?; }
  }

  method ValidateExport(x: Export) returns (errors: seq<Fault>)
    ensures errors == [] <==> Usable(x)
    ensures EmptyExport !in errors
  {
    if x.NotExport? { return [NotAnObject]; }
    if x.findings.NotList? { return [FindingsNotList]; }
    var items := Entries(x);
    var seen: set<string> := {};
    errors := [];
    for k := 0 to |items|
      invariant seen == IdsOf(items[..k])
      invariant errors == [] <==> EntriesOk(items[..k])
      invariant EmptyExport !in errors
    {
      var e := items[k];
      assert items[..k + 1] == items[..k] + [e];
      NextEntry(items[..k], e);
      if e.NotObject? {
        errors := errors + [EntryNotObject];
      } else {
        if e.value.id == "" {
          errors := errors + [MissingId];
        } else if e.value.id in seen {
          errors := errors + [DuplicateId(e.value.id)];
        } else {
          seen := seen + {e.value.id};
        }
        if e.value.title == "" { errors := errors + [MissingTitle]; }
      }
    }
    assert items[..|items|] == items;
  }

  /*************** what an export asks for ***************/

  const FINDING := "finding"
  const KINDS := {FINDING}
  const NOTE: Meta := map["finding_status" := "remediated"]

  function RefOf(f: Finding): string { "finding:" + f.id }
  function WriteOf(f: Finding): Write { Write(FINDING, Cut(f.title), f.text, "active", f.metadata, RefOf(f), None) }
  function Writes(fs: seq<Finding>): seq<Write> { seq(|fs|, i requires 0 <= i < |fs| => WriteOf(fs[i])) }

  // The affected asset: by resource id against two metadata keys in turn, then by name; the oldest row wins.
  datatype Probe = ByKey(key: string, value: string) | ByName(name: string)

  predicate Hit(org: Org, p: Probe, a: Asset) {
    && a.org == org && a.kind in {"system", "device"}
    && match p
       case ByKey(key, value) => key in a.metadata && a.metadata[key] == value
       case ByName(name) => a.name == name
  }

  function Oldest(assets: map<Id, Asset>, org: Org, p: Probe, start: Id, end: Id): (r: Option<Id>)
    ensures r.Some? ==> r.value in assets
    decreases end - start
  {
    if start >= end then None
    else if start in assets && Hit(org, p, assets[start]) then Some(start)
    else Oldest(assets, org, p, start + 1, end)
  }

  function Probes(r: Resource): seq<Probe> {
    (if r.id != "" then [ByKey("cloud_resource_id", r.id), ByKey("external_id", r.id)] else [])
      + if r.name != "" then [ByName(r.name)] else []
  }

  function FirstHit(db: Db, org: Org, ps: seq<Probe>): (r: Option<Id>)
    ensures r.Some? ==> r.value in db.assets
  {
    if ps == [] then None
    else
      var o := Oldest(db.assets, org, ps[0], 0, db.next);
      if o.Some? then o else FirstHit(db, org, ps[1..])
  }

  function AffectedBy(db: Db, org: Org, f: Finding): Option<Id> {
    if f.resource.None? then None else FirstHit(db, org, Probes(f.resource.value))
  }

  // The edge of one finding; its ends are keyed by the finding.
  function SystemKey(f: Finding): string { "resource:" + f.id }
  function Affects(f: Finding): EdgeWrite { EdgeWrite(SystemKey(f), RefOf(f), "affected_by", "", "affects:" + f.id) }

  function EdgeOps(db: Db, org: Org, fs: seq<Finding>): seq<Op> {
    if fs == [] then []
    else EdgeOps(db, org, fs[..|fs| - 1]) + if AffectedBy(db, org, fs[|fs| - 1]).Some? then [PutEdge(Affects(fs[|fs| - 1]))] else []
  }

  /** Under the connector's own tag a ref that begins with finding: belongs to a finding: the connector writes no
      other row, and nothing changes an asset's type afterwards. */
  ghost predicate Classed(org: Org, source: string, db: Db) {
    forall i | i in db.assets && OwnsAsset(org, source, db.assets[i]) ::
      "finding:" <= db.assets[i].origin.value.ref ==> db.assets[i].kind == FINDING
  }

  function PlanFor(fs: seq<Finding>): map<string, Write> { PlanOf(Writes(fs)) }
  ghost function EdgePlanFor(before: Db, org: Org, fs: seq<Finding>): map<string, EdgeWrite> { EdgePlan(EdgeOps(before, org, fs)) }

  // `ends` names both ends of every affects edge.
  ghost predicate Ends(org: Org, source: string, before: Db, fs: seq<Finding>, after: Db, ends: map<string, Id>) {
    forall f | f in fs && AffectedBy(before, org, f).Some? ::
      && SystemKey(f) in ends && ends[SystemKey(f)] == AffectedBy(before, org, f).value
      && RefOf(f) in ends && ends[RefOf(f)] in after.assets
      && AssetKeyed(org, Origin(source, RefOf(f)), after.assets[ends[RefOf(f)]])
  }

  function RetirementFor(resolve: bool): Retirement { Retirement(if resolve then KINDS else {}, NOTE) }

  /** What a run makes of the database, committed or not. */
  ghost predicate Effect(org: Org, source: string, fs: seq<Finding>, resolve: bool, before: Db, after: Db, ends: map<string, Id>) {
    && Valid(after) && Classed(org, source, after) && before.next <= after.next
    && AssetsSynced(org, source, RetirementFor(resolve), PlanFor(fs), before, after)
    && Ends(org, source, before, fs, after, ends)
    && Resolved(ends, EdgePlanFor(before, org, fs))
    && EdgesSynced(org, source, EdgePlanFor(before, org, fs), ends, None, before, after)
  }

  /*************** resolving does not move ***************/

  lemma {:induction false} OldestSame(a: map<Id, Asset>, b: map<Id, Asset>, org: Org, p: Probe, start: Id, end: Id, later: Id)
    requires end <= later
    requires forall i | i in a && start <= i && Hit(org, p, a[i]) :: i < end && i in b && Hit(org, p, b[i])
    requires forall i | i in b && start <= i && Hit(org, p, b[i]) :: i in a && Hit(org, p, a[i])
    ensures Oldest(b, org, p, start, later) == Oldest(a, org, p, start, end)
    decreases later - start
  {
    hide Hit;
    if start < later && !(start in b && Hit(org, p, b[start])) {
      OldestSame(a, b, org, p, start + 1, if start < end then end else start + 1, later);
    }
  }

  // Systems and devices are the same rows before and after.
  ghost predicate SameHosts(before: Db, after: Db) {
    && before.next <= after.next && IdsBelow(before)
    && (forall i | i in before.assets && before.assets[i].kind in {"system", "device"} ::
          i in after.assets && after.assets[i] == before.assets[i])
    && (forall i | i in after.assets && after.assets[i].kind in {"system", "device"} ::
          i in before.assets && after.assets[i] == before.assets[i])
  }

  lemma {:induction false} FirstHitSame(before: Db, after: Db, org: Org, ps: seq<Probe>)
    requires SameHosts(before, after)
    ensures FirstHit(after, org, ps) == FirstHit(before, org, ps)
  {
    if ps != [] {
      OldestSame(before.assets, after.assets, org, ps[0], 0, before.next, after.next);
      FirstHitSame(before, after, org, ps[1..]);
    }
  }

  lemma AffectedSame(before: Db, after: Db, org: Org, f: Finding)
    requires SameHosts(before, after)
    ensures AffectedBy(after, org, f) == AffectedBy(before, org, f)
  {
    hide FirstHit, SameHosts, Probes;
    if f.resource.Some? { FirstHitSame(before, after, org, Probes(f.resource.value)); }
  }

  ghost predicate FindingPlan(plan: map<string, Write>) {
    forall ref | ref in plan :: "finding:" <= ref && plan[ref].kind == FINDING
  }

  lemma {:induction false} PlanIsFindings(fs: seq<Finding>)
    ensures FindingPlan(PlanFor(fs))
    ensures forall ref :: ref in PlanFor(fs) <==> exists f :: f in fs && RefOf(f) == ref
  {
    if fs != [] {
      var n := |fs| - 1;
      PlanIsFindings(fs[..n]);
      PlanSnocOf(fs[..n], fs[n]);
      assert fs[..n] + [fs[n]] == fs;
      assert forall f :: f in fs <==> f in fs[..n] || f == fs[n];
      assert "finding:" <= RefOf(fs[n]);
      hide RefOf;
    }
  }

  lemma PlanSnocOf(fs: seq<Finding>, f: Finding)
    ensures PlanFor(fs + [f]) == PlanFor(fs)[RefOf(f) := WriteOf(f)]
  {
    assert Writes(fs + [f])[..|fs|] == Writes(fs);
    assert WriteOf(f).ref == RefOf(f);
    hide WriteOf;
  }

  lemma HostsStay(org: Org, source: string, r: Retirement, plan: map<string, Write>, before: Db, after: Db)
    requires IdsBelow(before) && before.next <= after.next && Classed(org, source, before) && FindingPlan(plan) && r.kinds <= KINDS
    requires forall i | i in before.assets :: i in after.assets && after.assets[i] == Synced(org, source, r, plan, before.assets[i])
    requires forall i | i in after.assets && i !in before.assets :: IsNew(org, source, plan, before, after.assets[i])
    ensures SameHosts(before, after)
  {
    hide HasAsset, IdsBelow;
    forall i | i in before.assets
      ensures before.assets[i].kind in {"system", "device"} ==> after.assets[i] == before.assets[i]
      ensures after.assets[i].kind == before.assets[i].kind
    {
      assert after.assets[i] == Synced(org, source, r, plan, before.assets[i]);
    }
    forall i | i in after.assets && i !in before.assets ensures after.assets[i].kind == FINDING {
      assert IsNew(org, source, plan, before, after.assets[i]);
    }
  }

  /*************** the loop, one finding at a time ***************/

  // The assets so far, next to the edges the run started from.
  function AssetView(db: Db, before: Db): Db { Db(db.assets, before.edges, db.next) }

  ghost predicate Progress(org: Org, source: string, before: Db, fs: seq<Finding>, db: Db, ids: map<string, Id>,
                           ends: map<string, Id>, seenEdges: seq<string>) {
    && Valid(db) && Projects(org, source, PlanFor(fs), before, AssetView(db, before), ids)
    && Ends(org, source, before, fs, db, ends)
    && (forall k | k in ends :: (exists f :: f in fs && (k == RefOf(f) || k == SystemKey(f))) && ends[k] in db.assets)
    && Resolved(ends, EdgePlanFor(before, org, fs))
    && EdgesAfter(org, source, EdgePlanFor(before, org, fs), ends, before, db)
    && (forall ref :: ref in seenEdges <==> ref in EdgePlanFor(before, org, fs))
  }

  lemma NoProgress(org: Org, source: string, before: Db)
    requires Valid(before)
    ensures Progress(org, source, before, [], before, map[], map[], [])
  {
    ProjectsNothing(org, source, before);
    assert AssetView(before, before) == before;
    hide Valid, Projects;
  }

  lemma SlotSame(a: Db, b: Db, org: Org, o: Origin)
    requires Valid(a) && Valid(b) && a.assets == b.assets && a.next == b.next
    ensures AssetSlot(a, org, o) == AssetSlot(b, org, o)
  {
    AssetSlotIs(a, org, o);
    AssetSlotIs(b, org, o);
  }

  lemma PutView(org: Org, source: string, db: Db, before: Db, w: Write)
    requires Valid(db) && Valid(AssetView(db, before))
    ensures AssetSlot(AssetView(db, before), org, Origin(source, w.ref)) == AssetSlot(db, org, Origin(source, w.ref))
    ensures Put(org, source, AssetView(db, before), w) == AssetView(Put(org, source, db, w), before)
  {
    SlotSame(AssetView(db, before), db, org, Origin(source, w.ref));
    hide Valid, AssetSlot, Projected, Created;
  }

  // Between the two upserts of a finding.
  ghost predicate Midway(org: Org, source: string, before: Db, fs: seq<Finding>, f: Finding, db: Db, id: Id, ids: map<string, Id>,
                           ends: map<string, Id>, seenEdges: seq<string>) {
    && Valid(db) && Projects(org, source, PlanFor(fs + [f]), before, AssetView(db, before), ids)
    && Ends(org, source, before, fs, db, ends)
    && (forall k | k in ends :: (exists x :: x in fs && (k == RefOf(x) || k == SystemKey(x))) && ends[k] in db.assets)
    && Resolved(ends, EdgePlanFor(before, org, fs))
    && EdgesAfter(org, source, EdgePlanFor(before, org, fs), ends, before, db)
    && (forall ref :: ref in seenEdges <==> ref in EdgePlanFor(before, org, fs))
    && id in db.assets && AssetKeyed(org, Origin(source, RefOf(f)), db.assets[id])
  }

  ghost predicate DistinctIds(fs: seq<Finding>) { forall i, j | 0 <= i < j < |fs| :: fs[i].id != fs[j].id }

  lemma NewFinding(fs: seq<Finding>, f: Finding)
    requires DistinctIds(fs + [f])
    ensures RefOf(f) !in PlanFor(fs) && DistinctIds(fs)
    ensures forall x | x in fs :: RefOf(x) != RefOf(f) && SystemKey(x) != SystemKey(f) && RefOf(x) != SystemKey(f) && SystemKey(x) != RefOf(f)
  {
    var all := fs + [f];
    assert all[|fs|] == f && forall i | 0 <= i < |fs| :: all[i] == fs[i];
    PlanIsFindings(fs);
    hide PlanFor;
    forall x | x in fs ensures RefOf(x) != RefOf(f) && SystemKey(x) != SystemKey(f) && RefOf(x) != SystemKey(f) && SystemKey(x) != RefOf(f) {
      var i :| 0 <= i < |fs| && fs[i] == x;
      assert all[i].id != all[|fs|].id;
      assert RefOf(x)[|"finding:"|..] == x.id && RefOf(f)[|"finding:"|..] == f.id;
      assert SystemKey(x)[|"resource:"|..] == x.id && SystemKey(f)[|"resource:"|..] == f.id;
      assert RefOf(x)[0] == RefOf(f)[0] == 'f' && SystemKey(x)[0] == SystemKey(f)[0] == 'r';
    }
  }

  lemma EndsKept(org: Org, source: string, before: Db, fs: seq<Finding>, a: Db, b: Db, ends: map<string, Id>)
    requires Ends(org, source, before, fs, a, ends)
    requires forall i, o | i in a.assets && AssetKeyed(org, o, a.assets[i]) :: i in b.assets && AssetKeyed(org, o, b.assets[i])
    ensures Ends(org, source, before, fs, b, ends)
  {
    hide AffectedBy, RefOf, SystemKey;
  }

  lemma PutKeepsKeys(org: Org, source: string, db: Db, w: Write)
    requires Valid(db)
    ensures forall i, o | i in db.assets && AssetKeyed(org, o, db.assets[i]) ::
      i in Put(org, source, db, w).assets && AssetKeyed(org, o, Put(org, source, db, w).assets[i])
    ensures var id := AssetSlot(db, org, Origin(source, w.ref));
            id in Put(org, source, db, w).assets && AssetKeyed(org, Origin(source, w.ref), Put(org, source, db, w).assets[id])
    ensures Put(org, source, db, w).edges == db.edges
  {
    AssetSlotIs(db, org, Origin(source, w.ref));
  }

  lemma UpsertStep(org: Org, source: string, before: Db, fs: seq<Finding>, db: Db, ids: map<string, Id>, ends: map<string, Id>,
                   seenEdges: seq<string>, f: Finding)
    requires Progress(org, source, before, fs, db, ids, ends, seenEdges) && DistinctIds(fs + [f])
    ensures var (w, id) := (WriteOf(f), AssetSlot(db, org, Origin(source, RefOf(f))));
            Midway(org, source, before, fs, f, Put(org, source, db, w), id, ids[RefOf(f) := id], ends, seenEdges)
    ensures AssetSlot(db, org, Origin(source, RefOf(f))) in db.assets <==> HasAsset(before, org, source, RefOf(f))
  {
    var (w, plan, edgePlan) := (WriteOf(f), PlanFor(fs), EdgePlanFor(before, org, fs));
    var id := AssetSlot(db, org, Origin(source, w.ref));
    var after := Put(org, source, db, w);
    NewFinding(fs, f);
    PlanSnocOf(fs, f);
    ProgressParts(org, source, before, fs, db, ids, ends, seenEdges);
    assert w.ref == RefOf(f) && w.owner.None?;
    hide *;
    PutView(org, source, db, before, w);
    PutKeepsValid(org, source, db, w);
    PutKeepsKeys(org, source, db, w);
    ProjectsOneMore(org, source, plan, before, AssetView(db, before), ids, w);
    EndsKept(org, source, before, fs, db, after, ends);
    EdgesAfterExtends(org, source, edgePlan, ends, ends, before, db, after);
    FoundBefore(org, source, plan, before, db, ids, w.ref);
    MidwayHolds(org, source, before, fs, f, db, after, id, ids[RefOf(f) := id], ends, seenEdges);
  }

  lemma ProgressParts(org: Org, source: string, before: Db, fs: seq<Finding>, db: Db, ids: map<string, Id>,
                      ends: map<string, Id>, seenEdges: seq<string>)
    requires Progress(org, source, before, fs, db, ids, ends, seenEdges)
    ensures Valid(db) && Valid(AssetView(db, before)) && Projects(org, source, PlanFor(fs), before, AssetView(db, before), ids)
    ensures Ends(org, source, before, fs, db, ends)
    ensures forall k | k in ends :: (exists f :: f in fs && (k == RefOf(f) || k == SystemKey(f))) && ends[k] in db.assets
    ensures Resolved(ends, EdgePlanFor(before, org, fs))
    ensures EdgesAfter(org, source, EdgePlanFor(before, org, fs), ends, before, db)
    ensures forall ref :: ref in seenEdges <==> ref in EdgePlanFor(before, org, fs)
  {
    hide Valid, Ends, Resolved, EdgesAfter, EdgePlanFor, PlanFor, RefOf, SystemKey;
  }

  lemma MidwayHolds(org: Org, source: string, before: Db, fs: seq<Finding>, f: Finding, was: Db, db: Db, id: Id, ids: map<string, Id>,
                      ends: map<string, Id>, seenEdges: seq<string>)
    requires Valid(db) && Projects(org, source, PlanFor(fs + [f]), before, AssetView(db, before), ids)
    requires Ends(org, source, before, fs, db, ends)
    requires forall k | k in ends :: (exists x :: x in fs && (k == RefOf(x) || k == SystemKey(x))) && ends[k] in was.assets
    requires forall i, o | i in was.assets && AssetKeyed(org, o, was.assets[i]) :: i in db.assets && AssetKeyed(org, o, db.assets[i])
    requires was.assets.Keys <= db.assets.Keys
    requires Resolved(ends, EdgePlanFor(before, org, fs))
    requires EdgesAfter(org, source, EdgePlanFor(before, org, fs), ends, before, db)
    requires forall ref :: ref in seenEdges <==> ref in EdgePlanFor(before, org, fs)
    requires id in db.assets && AssetKeyed(org, Origin(source, RefOf(f)), db.assets[id])
    ensures Midway(org, source, before, fs, f, db, id, ids, ends, seenEdges)
  {
    hide Valid, Projects, Ends, Resolved, EdgesAfter, EdgePlanFor, PlanFor, RefOf, SystemKey, AssetKeyed;
  }

  lemma FoundBefore(org: Org, source: string, plan: map<string, Write>, before: Db, db: Db, ids: map<string, Id>, ref: string)
    requires Valid(db) && Projects(org, source, plan, before, AssetView(db, before), ids) && ref !in plan
    ensures AssetSlot(db, org, Origin(source, ref)) in db.assets <==> HasAsset(before, org, source, ref)
  {
    AssetSlotIs(db, org, Origin(source, ref));
    var view := AssetView(db, before);
    if HasAsset(before, org, source, ref) {
      StillHas(org, source, plan, before, view, ref);
      assert HasAsset(view, org, source, ref);
    }
    var k := AssetSlot(db, org, Origin(source, ref));
    if k in db.assets {
      assert k in before.assets;
      assert AssetKeyed(org, Origin(source, ref), before.assets[k]);
    }
  }

  // The affected asset looked up now is the one the run started with.
  lemma LookupNow(org: Org, source: string, before: Db, fs: seq<Finding>, f: Finding, db: Db, ids: map<string, Id>)
    requires Valid(before) && Classed(org, source, before)
    requires Projects(org, source, PlanFor(fs), before, AssetView(db, before), ids)
    ensures AffectedBy(db, org, f) == AffectedBy(before, org, f)
    ensures AffectedBy(before, org, f).Some? ==> AffectedBy(before, org, f).value in db.assets
  {
    var plan := PlanFor(fs);
    PlanIsFindings(fs);
    hide PlanFor, Classed, FindingPlan, UniqueAssets, UniqueEdges, NoDangling, IdsBelow, Names, HasAsset, AffectedBy;
    forall i | i in before.assets
      ensures i in db.assets && db.assets[i] == Synced(org, source, Retirement({}, map[]), plan, before.assets[i])
    {
    }
    HostsStay(org, source, Retirement({}, map[]), plan, before, db);
    AffectedSame(before, db, org, f);
    AffectedExists(before, org, f);
  }

  lemma AffectedExists(db: Db, org: Org, f: Finding)
    ensures AffectedBy(db, org, f).Some? ==> AffectedBy(db, org, f).value in db.assets
  {
  }

  lemma EdgeOpsSnoc(db: Db, org: Org, fs: seq<Finding>, f: Finding)
    ensures EdgeOps(db, org, fs + [f]) == EdgeOps(db, org, fs) + if AffectedBy(db, org, f).Some? then [PutEdge(Affects(f))] else []
    ensures EdgePlanFor(db, org, fs + [f]) ==
            if AffectedBy(db, org, f).Some? then EdgePlanFor(db, org, fs)[Affects(f).ref := Affects(f)] else EdgePlanFor(db, org, fs)
  {
    hide AffectedBy, Affects;
    assert (fs + [f])[..|fs|] == fs && (fs + [f])[|fs|] == f;
    assert EdgeOps(db, org, fs) + [] == EdgeOps(db, org, fs);
    PlanSnoc(EdgeOps(db, org, fs), PutEdge(Affects(f)));
  }

  /* The second upsert: with the ends of the new edge known, it is drawn; without an affected asset the finding
     is done. */
  lemma MidwayParts(org: Org, source: string, before: Db, fs: seq<Finding>, f: Finding, db: Db, id: Id, ids: map<string, Id>,
                    ends: map<string, Id>, seenEdges: seq<string>)
    requires Midway(org, source, before, fs, f, db, id, ids, ends, seenEdges)
    ensures Valid(db) && Valid(AssetView(db, before)) && Projects(org, source, PlanFor(fs + [f]), before, AssetView(db, before), ids)
    ensures Ends(org, source, before, fs, db, ends)
    ensures forall k | k in ends :: (exists x :: x in fs && (k == RefOf(x) || k == SystemKey(x))) && ends[k] in db.assets
    ensures Resolved(ends, EdgePlanFor(before, org, fs))
    ensures EdgesAfter(org, source, EdgePlanFor(before, org, fs), ends, before, db)
    ensures forall ref :: ref in seenEdges <==> ref in EdgePlanFor(before, org, fs)
    ensures id in db.assets && AssetKeyed(org, Origin(source, RefOf(f)), db.assets[id])
  {
    hide Valid, Ends, Resolved, EdgesAfter, EdgePlanFor, PlanFor, RefOf, SystemKey, AssetKeyed;
  }

  lemma ProgressHolds(org: Org, source: string, before: Db, fs: seq<Finding>, f: Finding, db: Db, ids: map<string, Id>,
                      ends: map<string, Id>, seenEdges: seq<string>)
    requires Valid(db) && Projects(org, source, PlanFor(fs + [f]), before, AssetView(db, before), ids)
    requires Ends(org, source, before, fs + [f], db, ends)
    requires forall k | k in ends :: (k == RefOf(f) || k == SystemKey(f) || exists x :: x in fs && (k == RefOf(x) || k == SystemKey(x)))
                                     && ends[k] in db.assets
    requires Resolved(ends, EdgePlanFor(before, org, fs + [f]))
    requires EdgesAfter(org, source, EdgePlanFor(before, org, fs + [f]), ends, before, db)
    requires forall ref :: ref in seenEdges <==> ref in EdgePlanFor(before, org, fs + [f])
    ensures Progress(org, source, before, fs + [f], db, ids, ends, seenEdges)
  {
    hide Valid, Projects, Ends, Resolved, EdgesAfter, EdgePlanFor, PlanFor, RefOf, SystemKey;
    forall k | k in ends ensures exists x :: x in fs + [f] && (k == RefOf(x) || k == SystemKey(x)) {
      assert f in fs + [f];
      assert forall x | x in fs :: x in fs + [f];
    }
  }

  lemma EndsSnoc(org: Org, source: string, before: Db, fs: seq<Finding>, f: Finding, db: Db, ends: map<string, Id>, more: map<string, Id>)
    requires Ends(org, source, before, fs, db, ends)
    requires forall k | k in ends :: k in more && more[k] == ends[k]
    requires AffectedBy(before, org, f).Some? ==>
      SystemKey(f) in more && more[SystemKey(f)] == AffectedBy(before, org, f).value
    requires AffectedBy(before, org, f).Some? ==>
      RefOf(f) in more && more[RefOf(f)] in db.assets && AssetKeyed(org, Origin(source, RefOf(f)), db.assets[more[RefOf(f)]])
    ensures Ends(org, source, before, fs + [f], db, more)
  {
    hide AffectedBy, RefOf, SystemKey, AssetKeyed;
    assert forall x | x in fs + [f] :: x in fs || x == f;
  }

  lemma SkipStep(org: Org, source: string, before: Db, fs: seq<Finding>, f: Finding, db: Db, id: Id, ids: map<string, Id>,
                 ends: map<string, Id>, seenEdges: seq<string>)
    requires Midway(org, source, before, fs, f, db, id, ids, ends, seenEdges) && AffectedBy(before, org, f).None?
    ensures Progress(org, source, before, fs + [f], db, ids, ends, seenEdges)
  {
    hide *;
    MidwayParts(org, source, before, fs, f, db, id, ids, ends, seenEdges);
    EndsSnoc(org, source, before, fs, f, db, ends, ends);
    EdgeOpsSnoc(before, org, fs, f);
    ProgressHolds(org, source, before, fs, f, db, ids, ends, seenEdges);
  }

  lemma ViewNext(org: Org, source: string, plan: map<string, Write>, before: Db, db: Db, after: Db, ids: map<string, Id>)
    requires Projects(org, source, plan, before, AssetView(db, before), ids)
    requires after.assets == db.assets && db.next <= after.next
    ensures Projects(org, source, plan, before, AssetView(after, before), ids)
  {
    hide HasAsset;
  }

  function MoreEnds(ends: map<string, Id>, f: Finding, system: Id, id: Id): map<string, Id> {
    ends[SystemKey(f) := system][RefOf(f) := id]
  }

  // Two more ends, under keys no earlier finding uses.
  lemma EndsGrow(org: Org, source: string, before: Db, fs: seq<Finding>, f: Finding, db: Db, id: Id, system: Id, ends: map<string, Id>)
    requires DistinctIds(fs + [f]) && system in db.assets && id in db.assets
    requires forall k | k in ends :: (exists x :: x in fs && (k == RefOf(x) || k == SystemKey(x))) && ends[k] in db.assets
    ensures var more := MoreEnds(ends, f, system, id);
            && (forall k | k in ends :: k in more && more[k] == ends[k])
            && SystemKey(f) in more && more[SystemKey(f)] == system && RefOf(f) in more && more[RefOf(f)] == id
            && (forall k | k in more :: (k == RefOf(f) || k == SystemKey(f) || exists x :: x in fs && (k == RefOf(x) || k == SystemKey(x)))
                                        && more[k] in db.assets)
  {
    NewFinding(fs, f);
    assert SystemKey(f)[0] == 'r' && RefOf(f)[0] == 'f';
    hide RefOf, SystemKey, DistinctIds;
  }

  lemma DrawEdge(org: Org, source: string, before: Db, plan: map<string, EdgeWrite>, ends: map<string, Id>, more: map<string, Id>,
                 db: Db, seenEdges: seq<string>, w: EdgeWrite)
    requires Valid(db) && Resolved(ends, plan) && EdgesAfter(org, source, plan, ends, before, db)
    requires forall k | k in ends :: k in more && more[k] == ends[k]
    requires w.srcRef in more && w.dstRef in more && forall k | k in more :: more[k] in db.assets
    ensures var r := StepEdge(org, source, Run(db, more, [], seenEdges, NO_TALLY), w);
            && Valid(r.db) && r.db.assets == db.assets && db.next <= r.db.next && r.seenEdges == seenEdges + [w.ref]
            && Resolved(more, plan[w.ref := w]) && EdgesAfter(org, source, plan[w.ref := w], more, before, r.db)
  {
    hide *;
    var was := Run(db, more, [], seenEdges, NO_TALLY);
    EdgesAfterExtends(org, source, plan, ends, more, before, db, db);
    StepEdgeKeepsValid(org, source, was, w);
    StepEdgePuts(org, source, was, w);
    PutEdgeEdges(org, source, plan, more, before, db, w, EdgeSlot(db, org, Origin(source, w.ref)), StepEdge(org, source, was, w).db);
    StepEdgeRest(org, source, was, w);
  }

  // The run after the second upsert of a finding.
  ghost function DrawnFinding(org: Org, source: string, before: Db, f: Finding, db: Db, id: Id, ends: map<string, Id>, seenEdges: seq<string>): Run
    requires AffectedBy(before, org, f).Some?
  {
    StepEdge(org, source, Run(db, MoreEnds(ends, f, AffectedBy(before, org, f).value, id), [], seenEdges, NO_TALLY), Affects(f))
  }

  lemma DrawnParts(org: Org, source: string, before: Db, fs: seq<Finding>, f: Finding, db: Db, id: Id, ids: map<string, Id>,
                   ends: map<string, Id>, seenEdges: seq<string>)
    requires Midway(org, source, before, fs, f, db, id, ids, ends, seenEdges) && DistinctIds(fs + [f])
    requires AffectedBy(before, org, f).Some? && AffectedBy(before, org, f).value in db.assets
    ensures var r := DrawnFinding(org, source, before, f, db, id, ends, seenEdges);
            var plan := EdgePlanFor(before, org, fs)[Affects(f).ref := Affects(f)];
            && Valid(r.db) && r.db.assets == db.assets && db.next <= r.db.next && r.seenEdges == seenEdges + [Affects(f).ref]
            && r.ids == MoreEnds(ends, f, AffectedBy(before, org, f).value, id)
            && Resolved(r.ids, plan) && EdgesAfter(org, source, plan, r.ids, before, r.db)
  {
    AffectsEnds(f);
    MidwayParts(org, source, before, fs, f, db, id, ids, ends, seenEdges);
    hide AffectedBy, SystemKey, RefOf, StepEdge, Affects, Midway, DistinctIds, EdgePlanFor, Valid, EdgesAfter, Resolved, Projects, Ends, PlanFor;
    var (system, plan) := (AffectedBy(before, org, f).value, EdgePlanFor(before, org, fs));
    var more := MoreEnds(ends, f, system, id);
    EndsGrow(org, source, before, fs, f, db, id, system, ends);
    DrawEdge(org, source, before, plan, ends, more, db, seenEdges, Affects(f));
    StepEdgeRest(org, source, Run(db, more, [], seenEdges, NO_TALLY), Affects(f));
  }

  lemma DrawStep(org: Org, source: string, before: Db, fs: seq<Finding>, f: Finding, db: Db, id: Id, ids: map<string, Id>,
                 ends: map<string, Id>, seenEdges: seq<string>)
    requires Midway(org, source, before, fs, f, db, id, ids, ends, seenEdges) && DistinctIds(fs + [f])
    requires AffectedBy(before, org, f).Some? && AffectedBy(before, org, f).value in db.assets
    ensures var r := DrawnFinding(org, source, before, f, db, id, ends, seenEdges);
            Progress(org, source, before, fs + [f], r.db, ids, r.ids, r.seenEdges)
  {
    hide *;
    var system := AffectedBy(before, org, f).value;
    var r := DrawnFinding(org, source, before, f, db, id, ends, seenEdges);
    MidwayParts(org, source, before, fs, f, db, id, ids, ends, seenEdges);
    DrawnParts(org, source, before, fs, f, db, id, ids, ends, seenEdges);
    EndsGrow(org, source, before, fs, f, db, id, system, ends);
    EndsSnoc(org, source, before, fs, f, db, ends, r.ids);
    ViewNext(org, source, PlanFor(fs + [f]), before, db, r.db, ids);
    EndsKept(org, source, before, fs + [f], db, r.db, r.ids);
    EdgeOpsSnoc(before, org, fs, f);
    ProgressHolds(org, source, before, fs, f, r.db, ids, r.ids, r.seenEdges);
  }

  lemma AffectsEnds(f: Finding)
    ensures Affects(f).srcRef == SystemKey(f) && Affects(f).dstRef == RefOf(f)
  {
  }
}
