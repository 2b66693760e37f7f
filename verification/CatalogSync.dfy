/** `sync_catalog` itself: the transaction, its nested loops and its two prunes, against the plan and
    the committed effect. */
module CatalogSync {
  import opened Options
  import opened Graph
  import opened CatalogDocument
  import opened CatalogPlan
  import opened CatalogRunnable
  import opened CatalogRun
  import opened CatalogCommit
  import Validation = CatalogValidation
  import Meaning = CatalogMeaning

  datatype SyncResult = SyncResult(errors: seq<Validation.Fault>, tally: Tally, edgesPruned: nat,
                                   assetsPruned: nat, stale: set<string>, dryRun: bool)

  /** What a run reports, whether it commits or is rolled back. */
  ghost function Report(org: Org, source: string, prune: bool, dryRun: bool, before: Db, ops: seq<Op>): SyncResult
    requires Valid(before) && Runnable(ops)
  {
    var r := Play(org, source, Start(before), ops);
    var stale := Dropped(org, source, AssetPlan(ops), before);
    SyncResult([], r.tally, |StaleEdges(org, source, r.seenEdges, r.db)|,
               if prune then |stale| else 0, RefsOf(before, stale), dryRun)
  }

  lemma {:induction false} PlayAppend(org: Org, source: string, r: Run, a: seq<Op>, b: seq<Op>)
    ensures Play(org, source, r, a + b) == Play(org, source, Play(org, source, r, a), b)
  {
    hide Step;
    if b == [] {
      assert a + b == a;
    } else {
      PlayAppend(org, source, r, a, b[..|b|-1]);
      assert (a + b)[..|a + b|-1] == a + b[..|b|-1];
    }
  }

  /** One connection with its transaction: the two tables and the locals the nested functions
      `upsert_asset` and `upsert_edge` close over.  Any statement may raise; `fails` says which do. */
  class Session {
    const org: Org
    const source: string
    const fails: nat -> bool
    var statements: nat

    var assets: map<Id, Asset>
    var edges: map<Id, Edge>
    var next: Id

    var assetIds: map<string, Id>
    var seenAssets: seq<string>
    var seenEdges: seq<string>
    var tally: Tally

    function Tables(): Db reads this { Db(assets, edges, next) }

    ghost function State(): Run reads this { Run(Tables(), assetIds, seenAssets, seenEdges, tally) }

    ghost predicate Ready() reads this {
      Valid(Tables()) && forall ref | ref in assetIds :: assetIds[ref] in assets
    }

    // Some statement issued since the count stood at `from` raised.
    ghost predicate FailedSince(start: nat) reads this {
      exists n: nat :: start <= n < statements && fails(n)
    }

    method UpsertAsset(w: AssetWrite) returns (raised: bool, id: Id)
      requires Ready()
      modifies this
      ensures Ready() && statements == old(statements) + 1
      ensures raised == fails(old(statements))
      ensures raised ==> State() == old(State())
      ensures !raised ==> State() == StepAsset(org, source, old(State()), w)
      ensures !raised ==> w.ref in assetIds && assetIds[w.ref] == id
    {
      hide AssetSlot, Valid, Restamped, NewAsset, CountAsset;
      statements := statements + 1;
      id := 0;
      raised := fails(statements - 1);
      if raised { return; }
      StepAssetKeepsValid(org, source, State(), w);
      ghost var was := State();
      var found;
      found, id := FindAsset(Tables(), org, Origin(source, w.ref));
      assets := assets[id := if found then Restamped(assets[id], w) else NewAsset(org, source, w)];
      next := if found then next else next + 1;
      assetIds := assetIds[w.ref := id];
      seenAssets := seenAssets + [w.ref];
      tally := CountAsset(tally, w.kind, !found);
      assert State() == StepAsset(org, source, was, w);
    }

    method UpsertEdge(src: Id, dst: Id, w: EdgeWrite) returns (raised: bool)
      requires Ready() && w.srcRef in assetIds && w.dstRef in assetIds
      requires src == assetIds[w.srcRef] && dst == assetIds[w.dstRef]
      modifies this
      ensures Ready() && statements == old(statements) + 1 && assetIds == old(assetIds)
      ensures raised == fails(old(statements))
      ensures raised ==> State() == old(State())
      ensures !raised ==> State() == StepEdge(org, source, old(State()), w)
    {
      hide EdgeSlot, Valid, Redrawn, NewEdge, CountEdge;
      statements := statements + 1;
      raised := fails(statements - 1);
      if raised { return; }
      StepEdgeKeepsValid(org, source, State(), w);
      ghost var was := State();
      var found, id := FindEdge(Tables(), org, Origin(source, w.ref));
      edges := edges[id := if found then Redrawn(edges[id], w, src, dst) else NewEdge(org, source, w, src, dst)];
      next := if found then next else next + 1;
      seenEdges := seenEdges + [w.ref];
      tally := CountEdge(tally, w.kind, !found);
      assert State() == StepEdge(org, source, was, w);
    }

    method ProjectRequirements(fw: Framework, fwId: Id) returns (raised: bool)
      requires Ready() && FrameworkOk(Object(fw))
      requires FrameworkRef(fw.ref) in assetIds && assetIds[FrameworkRef(fw.ref)] == fwId
      modifies this
      ensures Ready() && old(statements) <= statements
      ensures raised ==> FailedSince(old(statements))
      ensures !raised ==> State() == Play(org, source, old(State()), RequirementOps(fw, fw.requirements.items))
    {
      hide Valid, StepAsset, StepEdge;
      var qs := fw.requirements.items;
      var j := 0;
      while j < |qs|
        invariant j <= |qs| && Ready() && old(statements) <= statements
        invariant FrameworkRef(fw.ref) in assetIds && assetIds[FrameworkRef(fw.ref)] == fwId
        invariant State() == Play(org, source, old(State()), RequirementOps(fw, qs[..j]))
      {
        var req := qs[j].value;
        ghost var was := State();
        var reqId;
        raised, reqId := UpsertAsset(RequirementWrite(fw, req));
        if raised { assert fails(statements - 1); return; }
        StepAssetNames(org, source, was, RequirementWrite(fw, req), fw.ref, req.ref);
        raised := UpsertEdge(fwId, reqId, ParentOf(fw, req));
        if raised { assert fails(statements - 1); return; }
        RequirementOpsSnoc(org, source, old(State()), fw, qs, j);
        j := j + 1;
      }
      assert qs[..|qs|] == qs;
      raised := false;
    }

    method ProjectFrameworks(fs: seq<Entry<Framework>>) returns (raised: bool)
      requires Ready() && forall i | 0 <= i < |fs| :: FrameworkOk(fs[i])
      modifies this
      ensures Ready() && old(statements) <= statements
      ensures raised ==> FailedSince(old(statements))
      ensures !raised ==> State() == Play(org, source, old(State()), FrameworkOps(fs))
    {
      hide Valid, StepAsset, StepEdge, RequirementOps;
      var i := 0;
      while i < |fs|
        invariant i <= |fs| && Ready() && old(statements) <= statements
        invariant State() == Play(org, source, old(State()), FrameworkOps(fs[..i]))
      {
        assert FrameworkOk(fs[i]);
        var fw := fs[i].value;
        ghost var was := State();
        var fwId;
        raised, fwId := UpsertAsset(FrameworkWrite(fw));
        if raised { assert fails(statements - 1); return; }
        ghost var mid := State();
        raised := ProjectRequirements(fw, fwId);
        if raised { return; }
        FrameworkOpsSnoc(org, source, old(State()), fs, i, was, mid);
        i := i + 1;
      }
      assert fs[..|fs|] == fs;
      raised := false;
    }

    method ProjectSatisfies(t: Control, ctrlId: Id) returns (raised: bool)
      requires Ready() && ControlRef(t.ref) in assetIds && assetIds[ControlRef(t.ref)] == ctrlId
      modifies this
      ensures Ready() && old(statements) <= statements
      ensures raised ==> FailedSince(old(statements))
      ensures !raised ==> State() == Play(org, source, old(State()), SatisfiesOps(t, t.satisfies))
    {
      hide Valid, StepAsset;
      var reqs := t.satisfies;
      var j := 0;
      while j < |reqs|
        invariant j <= |reqs| && Ready() && old(statements) <= statements && assetIds == old(assetIds)
        invariant State() == Play(org, source, old(State()), SatisfiesOps(t, reqs[..j]))
      {
        PlaySnoc(org, source, old(State()), SatisfiesOps(t, reqs[..j]), PutEdge(Satisfies(t, reqs[j])));
        assert reqs[..j+1][..j] == reqs[..j];
        // `asset_ids.get(..)`; an unknown requirement is skipped
        if RequirementRef(reqs[j]) in assetIds {
          raised := UpsertEdge(ctrlId, assetIds[RequirementRef(reqs[j])], Satisfies(t, reqs[j]));
          if raised { assert fails(statements - 1); return; }
        }
        j := j + 1;
      }
      assert reqs[..|reqs|] == reqs;
      raised := false;
    }

    method ProjectControls(ts: seq<Entry<Control>>) returns (raised: bool)
      requires Ready() && forall i | 0 <= i < |ts| :: ts[i].Object?
      modifies this
      ensures Ready() && old(statements) <= statements
      ensures raised ==> FailedSince(old(statements))
      ensures !raised ==> State() == Play(org, source, old(State()), ControlOps(ts))
    {
      hide Valid, StepAsset, StepEdge, SatisfiesOps;
      var i := 0;
      while i < |ts|
        invariant i <= |ts| && Ready() && old(statements) <= statements
        invariant State() == Play(org, source, old(State()), ControlOps(ts[..i]))
      {
        var ctrl := ts[i].value;
        ghost var was := State();
        var ctrlId;
        raised, ctrlId := UpsertAsset(ControlWrite(ctrl));
        if raised { assert fails(statements - 1); return; }
        ghost var mid := State();
        raised := ProjectSatisfies(ctrl, ctrlId);
        if raised { return; }
        ControlOpsSnoc(org, source, old(State()), ts, i, was, mid);
        i := i + 1;
      }
      assert ts[..|ts|] == ts;
      raised := false;
    }

    method ProjectCrosswalks(xs: seq<Entry<Crosswalk>>) returns (raised: bool)
      requires Ready() && forall i | 0 <= i < |xs| :: xs[i].Object?
      modifies this
      ensures Ready() && old(statements) <= statements
      ensures raised ==> FailedSince(old(statements))
      ensures !raised ==> State() == Play(org, source, old(State()), CrosswalkOps(xs))
    {
      hide Valid, StepAsset, CrosswalkText;
      var i := 0;
      while i < |xs|
        invariant i <= |xs| && Ready() && old(statements) <= statements
        invariant State() == Play(org, source, old(State()), CrosswalkOps(xs[..i]))
      {
        var x := xs[i].value;
        PlaySnoc(org, source, old(State()), CrosswalkOps(xs[..i]), PutEdge(CrossMaps(x)));
        assert xs[..i+1][..i] == xs[..i];
        if RequirementRef(x.src) in assetIds && RequirementRef(x.dst) in assetIds {
          raised := UpsertEdge(assetIds[RequirementRef(x.src)], assetIds[RequirementRef(x.dst)], CrossMaps(x));
          if raised { assert fails(statements - 1); return; }
        }
        i := i + 1;
      }
      assert xs[..|xs|] == xs;
      raised := false;
    }

    method PruneEdges() returns (raised: bool, count: nat)
      requires Ready()
      modifies this
      ensures Ready() && statements == old(statements) + 1 && raised == fails(old(statements))
      ensures raised ==> State() == old(State())
      ensures !raised ==> State() == old(State().(db := AfterEdgePrune(org, source, State())))
      ensures !raised ==> count == |StaleEdges(org, source, old(seenEdges), old(Tables()))|
    {
      hide Valid;
      statements, count := statements + 1, 0;
      raised := fails(statements - 1);
      if raised { return; }
      var stale := set e | e in edges && OwnsEdge(org, source, edges[e]) && edges[e].origin.value.ref !in seenEdges;
      DeleteEdgesKeepsValid(Tables(), stale);
      count := |stale|;
      edges := map e | e in edges && e !in stale :: edges[e];
    }

    method FindStale() returns (raised: bool, stale: set<Id>)
      modifies this`statements
      ensures statements == old(statements) + 1 && raised == fails(old(statements))
      ensures !raised ==> stale == StaleAssets(org, source, seenAssets, Tables())
    {
      statements, stale := statements + 1, {};
      raised := fails(statements - 1);
      if raised { return; }
      stale := set a | a in assets && OwnsAsset(org, source, assets[a]) && assets[a].origin.value.ref !in seenAssets;
    }

    method PruneAssets(stale: set<Id>) returns (raised: bool, count: nat)
      requires Valid(Tables())
      modifies this
      ensures statements == old(statements) + 1 && raised == fails(old(statements))
      ensures raised ==> State() == old(State())
      ensures !raised ==> Tables() == DeleteAssets(old(Tables()), stale) && count == |stale| && tally == old(tally)
      ensures Valid(Tables())
    {
      hide Valid;
      statements, count := statements + 1, 0;
      raised := fails(statements - 1);
      if raised { return; }
      DeleteAssetsKeepsValid(Tables(), stale);
      count := |stale|;
      edges := map e | e in edges && edges[e].src !in stale && edges[e].dst !in stale :: edges[e];
      assets := map a | a in assets && a !in stale :: Disowned(assets[a], stale);
    }

    // The upserts: frameworks with their requirements, controls, crosswalks.
    method Upserts(c: Catalog) returns (raised: bool)
      requires Ready() && WellFormed(c)
      modifies this
      ensures Ready() && old(statements) <= statements
      ensures raised ==> FailedSince(old(statements))
      ensures !raised ==> State() == Play(org, source, old(State()), Ops(c))
    {
      hide Valid, WellFormed, Step, FrameworkOps, ControlOps, CrosswalkOps;
      WellFormedSections(c);
      PlayOps(org, source, State(), c);
      raised := ProjectFrameworks(Frameworks(c));
      if raised { return; }
      raised := ProjectControls(Controls(c));
      if raised { return; }
      raised := ProjectCrosswalks(Crosswalks(c));
    }

    // The three statements after the upserts.
    method Prunes(prune: bool, ghost before: Db, ghost ops: seq<Op>)
      returns (raised: bool, edgesPruned: nat, stale: set<string>, assetsPruned: nat)
      requires Ready() && Played(org, source, before, ops, State())
      modifies this
      ensures Valid(Tables()) && old(statements) <= statements
      ensures raised ==> FailedSince(old(statements))
      ensures !raised ==> Tables() == AfterPrunes(org, source, prune, old(State())) && tally == old(tally)
      ensures !raised ==> edgesPruned == |StaleEdges(org, source, old(seenEdges), old(Tables()))|
      ensures !raised ==> assetsPruned == if prune then |Dropped(org, source, AssetPlan(ops), before)| else 0
      ensures !raised ==> stale == RefsOf(before, Dropped(org, source, AssetPlan(ops), before))
    {
      hide Valid, StaleEdges, StaleAssets, DeleteAssets, DeleteEdges, Played, Dropped, RefsOf;
      ghost var r := State();
      edgesPruned, stale, assetsPruned := 0, {}, 0;
      StaleIsDropped(org, source, before, ops, r);
      EdgePruneKeepsAssets(org, source, r);
      raised, edgesPruned := PruneEdges();
      if raised { assert fails(statements - 1); return; }
      var ids;
      raised, ids := FindStale();
      if raised { assert fails(statements - 1); return; }
      assert ids == Dropped(org, source, AssetPlan(ops), before);
      StaleRefsAre(org, source, before, ops, r, Tables());
      NoRefsNoRows(Tables(), ids);
      stale := RefsOf(Db(assets, edges, next), ids);
      if prune && stale != {} {
        raised, assetsPruned := PruneAssets(ids);
        if raised { assert fails(statements - 1); return; }
      } else if prune {
        DeleteNone(Tables());
      }
    }

    // The body of the `try`: everything between `tx.start()` and the final commit or rollback.
    method Project(c: Catalog, prune: bool) returns (raised: bool, edgesPruned: nat, stale: set<string>, assetsPruned: nat)
      requires Valid(Tables()) && WellFormed(c) && Runnable(Ops(c))
      requires assetIds == map[] && seenAssets == [] && seenEdges == [] && tally == NO_TALLY
      modifies this
      ensures Valid(Tables()) && old(statements) <= statements
      ensures raised ==> FailedSince(old(statements))
      ensures !raised ==> Tables() == Committed(org, source, prune, old(Tables()), Ops(c))
      ensures !raised ==> SyncResult([], tally, edgesPruned, assetsPruned, stale, false) ==
                            Report(org, source, prune, false, old(Tables()), Ops(c))
    {
      hide Valid, Runnable, WellFormed, Step, Ops, StaleEdges, AfterPrunes, Played, Dropped, RefsOf;
      ghost var before := Tables();
      ghost var ops := Ops(c);
      edgesPruned, stale, assetsPruned := 0, {}, 0;
      raised := Upserts(c);
      if raised { return; }
      PlayIsPlayed(org, source, before, ops);
      raised, edgesPruned, stale, assetsPruned := Prunes(prune, before, ops);
    }

    /** `sync_catalog` for one organisation.  An ill-formed catalog is reported and nothing runs.
        Otherwise one transaction: if any statement raises, or on a dry run, the tables are as they
        were; if not, they are the committed effect of the plan.  The report does not depend on
        whether the run was dry. */
    method SyncCatalog(c: Catalog, dryRun: bool, prune: bool) returns (raised: bool, result: SyncResult)
      requires Valid(Tables())
      modifies this
      ensures Valid(Tables())
      ensures raised ==> Tables() == old(Tables()) && WellFormed(c) && FailedSince(old(statements))
      ensures !raised ==> (result.errors == [] <==> WellFormed(c))
      ensures !WellFormed(c) ==> Tables() == old(Tables()) && statements == old(statements)
      ensures !WellFormed(c) ==> result == SyncResult(result.errors, NO_TALLY, 0, 0, {}, dryRun)
      ensures !WellFormed(c) ==> forall f :: f in result.errors <==> Validation.Defect(c, f)
      ensures WellFormed(c) ==> Runnable(Ops(c))
      ensures !raised && WellFormed(c) ==>
                result == Report(org, source, prune, dryRun, old(Tables()), Ops(c))
      ensures !raised && WellFormed(c) ==>
                Tables() == if dryRun then old(Tables()) else Committed(org, source, prune, old(Tables()), Ops(c))
      ensures !raised && WellFormed(c) && !dryRun ==> Meaning.Shows(c, org, source, old(Tables()), Tables())
      ensures !raised && WellFormed(c) ==> Meaning.CountsEntries(c, result.tally)
    {
      hide Valid, Runnable, Committed, Ops, Meaning.Shows, Meaning.CountsEntries, Play;
      var errors := Validation.ValidateCatalog(c);
      raised, result := false, SyncResult(errors, NO_TALLY, 0, 0, {}, dryRun);
      if errors != [] { return; }
      WellFormedIsRunnable(c);
      Meaning.CommittedShows(c, org, source, prune, Tables());
      Meaning.RunCountsEntries(c, org, source, Tables());
      var savedAssets, savedEdges, savedNext := assets, edges, next;
      assetIds, seenAssets, seenEdges, tally := map[], [], [], NO_TALLY;
      var edgesPruned, stale, assetsPruned;
      raised, edgesPruned, stale, assetsPruned := Project(c, prune);
      if raised || dryRun {
        assets, edges, next := savedAssets, savedEdges, savedNext;
      }
      result := SyncResult([], tally, edgesPruned, assetsPruned, stale, dryRun);
    }
  }

  lemma WellFormedSections(c: Catalog)
    requires WellFormed(c)
    ensures forall i | 0 <= i < |Frameworks(c)| :: FrameworkOk(Frameworks(c)[i])
    ensures forall i | 0 <= i < |Controls(c)| :: Controls(c)[i].Object?
    ensures forall i | 0 <= i < |Crosswalks(c)| :: Crosswalks(c)[i].Object?
  {
    forall i | 0 <= i < |Controls(c)| ensures Controls(c)[i].Object? { assert ControlOk(c, Controls(c)[i]); }
    forall i | 0 <= i < |Crosswalks(c)| ensures Crosswalks(c)[i].Object? { assert CrosswalkOk(c, Crosswalks(c)[i]); }
  }

  lemma PlayOps(org: Org, source: string, r: Run, c: Catalog)
    ensures Play(org, source, r, Ops(c)) ==
              Play(org, source, Play(org, source, Play(org, source, r, FrameworkOps(Frameworks(c))), ControlOps(Controls(c))),
                   CrosswalkOps(Crosswalks(c)))
  {
    hide Step, FrameworkOps, ControlOps, CrosswalkOps;
    PlayAppend(org, source, r, FrameworkOps(Frameworks(c)) + ControlOps(Controls(c)), CrosswalkOps(Crosswalks(c)));
    PlayAppend(org, source, r, FrameworkOps(Frameworks(c)), ControlOps(Controls(c)));
  }

  lemma EdgePruneKeepsAssets(org: Org, source: string, r: Run)
    ensures AfterEdgePrune(org, source, r).assets == r.db.assets
  {}

  lemma NoRefsNoRows(db: Db, ids: set<Id>)
    requires forall i | i in ids :: i in db.assets && db.assets[i].origin.Some?
    ensures RefsOf(db, ids) == {} <==> ids == {}
  {
    if i :| i in ids { assert db.assets[i].origin.value.ref in RefsOf(db, ids); }
  }

  lemma DeleteNone(db: Db)
    ensures DeleteAssets(db, {}) == db
  {}

  // A row that is about to be removed still bears the ref it had before the run.
  lemma StaleRefsAre(org: Org, source: string, before: Db, ops: seq<Op>, r: Run, db: Db)
    requires Played(org, source, before, ops, r) && db.assets == r.db.assets
    ensures var stale := Dropped(org, source, AssetPlan(ops), before);
            && (forall i | i in stale :: i in db.assets && db.assets[i].origin.Some?)
            && RefsOf(db, stale) == RefsOf(before, stale)
  {
    hide Valid, EdgesAfter, TallyIs, IdsName, SeenAre, Resolved;
    var stale := Dropped(org, source, AssetPlan(ops), before);
    forall i | i in stale ensures i in db.assets && db.assets[i] == before.assets[i] {
      assert r.db.assets[i] == AssetBecomes(org, source, AssetPlan(ops), before.assets[i]);
    }
  }

  lemma StepAssetNames(org: Org, source: string, r: Run, w: AssetWrite, fw: string, req: string)
    requires w.ref == RequirementRef(req) && FrameworkRef(fw) in r.ids
    ensures var r' := StepAsset(org, source, r, w);
            FrameworkRef(fw) in r'.ids && r'.ids[FrameworkRef(fw)] == r.ids[FrameworkRef(fw)]
  {
    hide AssetSlot;
    KindsDiffer(fw, req);
  }

  lemma RequirementOpsSnoc(org: Org, source: string, r: Run, fw: Framework, qs: seq<Entry<Requirement>>, j: nat)
    requires j < |qs| && qs[j].Object?
    ensures Play(org, source, r, RequirementOps(fw, qs[..j+1])) ==
              StepEdge(org, source, StepAsset(org, source, Play(org, source, r, RequirementOps(fw, qs[..j])),
                                              RequirementWrite(fw, qs[j].value)), ParentOf(fw, qs[j].value))
  {
    hide StepAsset, StepEdge, RequirementWrite, ParentOf;
    assert qs[..j+1][..j] == qs[..j];
    var ops := RequirementOps(fw, qs[..j]);
    var a, e := PutAsset(RequirementWrite(fw, qs[j].value)), PutEdge(ParentOf(fw, qs[j].value));
    assert ops + [a, e] == (ops + [a]) + [e];
    PlaySnoc(org, source, r, ops, a);
    PlaySnoc(org, source, r, ops + [a], e);
  }

  lemma FrameworkOpsSnoc(org: Org, source: string, r: Run, fs: seq<Entry<Framework>>, i: nat, was: Run, mid: Run)
    requires i < |fs| && FrameworkOk(fs[i]) && was == Play(org, source, r, FrameworkOps(fs[..i]))
    requires mid == StepAsset(org, source, was, FrameworkWrite(fs[i].value))
    ensures Play(org, source, r, FrameworkOps(fs[..i+1])) ==
              Play(org, source, mid, RequirementOps(fs[i].value, fs[i].value.requirements.items))
  {
    hide StepAsset, StepEdge, FrameworkWrite, RequirementOps;
    assert fs[..i+1][..i] == fs[..i];
    var fw := fs[i].value;
    var ops, head, rest := FrameworkOps(fs[..i]), PutAsset(FrameworkWrite(fw)), RequirementOps(fw, fw.requirements.items);
    assert FrameworkOps(fs[..i+1]) == ops + OneFrameworkOps(fw);
    assert ops + OneFrameworkOps(fw) == (ops + [head]) + rest;
    PlaySnoc(org, source, r, ops, head);
    PlayAppend(org, source, r, ops + [head], rest);
  }

  lemma ControlOpsSnoc(org: Org, source: string, r: Run, ts: seq<Entry<Control>>, i: nat, was: Run, mid: Run)
    requires i < |ts| && ts[i].Object? && was == Play(org, source, r, ControlOps(ts[..i]))
    requires mid == StepAsset(org, source, was, ControlWrite(ts[i].value))
    ensures Play(org, source, r, ControlOps(ts[..i+1])) ==
              Play(org, source, mid, SatisfiesOps(ts[i].value, ts[i].value.satisfies))
  {
    hide StepAsset, StepEdge, ControlWrite, SatisfiesOps;
    assert ts[..i+1][..i] == ts[..i];
    var t := ts[i].value;
    var ops, head, rest := ControlOps(ts[..i]), PutAsset(ControlWrite(t)), SatisfiesOps(t, t.satisfies);
    assert ControlOps(ts[..i+1]) == ops + OneControlOps(t);
    assert ops + OneControlOps(t) == (ops + [head]) + rest;
    PlaySnoc(org, source, r, ops, head);
    PlayAppend(org, source, r, ops + [head], rest);
  }
}
