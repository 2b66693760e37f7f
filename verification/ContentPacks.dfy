/** Content packs: a catalog assembled from fragments, installed through the catalog projection under
    the pack's own source tag, and removed by deleting every row with that tag. */
module ContentPacks {
  import opened Options
  import opened Graph
  import opened CatalogDocument
  import opened CatalogPlan
  import opened CatalogRun
  import opened CatalogCommit
  import Sync = CatalogSync
  import Meaning = CatalogMeaning

  datatype Pack = Pack(id: string, version: string, frameworks: seq<string>, controls: seq<string>, crosswalks: seq<string>)

  function SourceOf(p: Pack): string { "grcen-pack:" + p.id }

  /*************** fragment assembly ***************/

  // The fragment files below one data directory, by kind and name.
  datatype Fragments = Fragments(frameworks: map<string, Entry<Framework>>,
                                 controls: map<string, seq<Entry<Control>>>,
                                 crosswalks: map<string, seq<Entry<Crosswalk>>>)

  // Every fragment the pack names exists.
  predicate Present(fr: Fragments, p: Pack) {
    && (forall n | n in p.frameworks :: n in fr.frameworks)
    && (forall n | n in p.controls :: n in fr.controls)
    && (forall n | n in p.crosswalks :: n in fr.crosswalks)
  }

  function Merged<T>(files: map<string, seq<T>>, names: seq<string>): seq<T>
    requires forall n | n in names :: n in files
  {
    if names == [] then [] else Merged(files, names[..|names|-1]) + files[names[|names|-1]]
  }

  function FrameworkList(files: map<string, Entry<Framework>>, names: seq<string>): seq<Entry<Framework>>
    requires forall n | n in names :: n in files
  {
    seq(|names|, i requires 0 <= i < |names| => assert names[i] in names; files[names[i]])
  }

  function CatalogOf(fr: Fragments, p: Pack): Catalog
    requires Present(fr, p)
  {
    Catalog(List(FrameworkList(fr.frameworks, p.frameworks)), List(Merged(fr.controls, p.controls)),
            List(Merged(fr.crosswalks, p.crosswalks)))
  }

  // The items begin with the entries of the first named file, and the others' follow.
  predicate FileAfterFile<T(==)>(files: map<string, seq<T>>, names: seq<string>, items: seq<T>)
    requires forall n | n in names :: n in files
  {
    if names == [] then items == []
    else files[names[0]] <= items && FileAfterFile(files, names[1..], items[|files[names[0]]|..])
  }

  lemma {:induction false} MergedFirst<T>(files: map<string, seq<T>>, names: seq<string>)
    requires names != [] && forall n | n in names :: n in files
    ensures Merged(files, names) == files[names[0]] + Merged(files, names[1..])
  {
    var m := |names| - 1;
    if m == 0 {
      assert names[..0] == [] && names[1..] == [];
    } else {
      MergedLast(files, names);
      MergedLast(files, names[1..]);
      MergedFirst(files, names[..m]);
      hide Merged;
      assert names[1..][..m - 1] == names[..m][1..];
      var (a, b, c) := (files[names[0]], Merged(files, names[..m][1..]), files[names[m]]);
      assert a + b + c == a + (b + c);
    }
  }

  lemma MergedLast<T>(files: map<string, seq<T>>, names: seq<string>)
    requires names != [] && forall n | n in names :: n in files
    ensures Merged(files, names) == Merged(files, names[..|names| - 1]) + files[names[|names| - 1]]
  {}

  lemma {:induction false} MergedIsFileAfterFile<T>(files: map<string, seq<T>>, names: seq<string>)
    requires forall n | n in names :: n in files
    ensures FileAfterFile(files, names, Merged(files, names))
  {
    if names != [] {
      MergedFirst(files, names);
      MergedIsFileAfterFile(files, names[1..]);
      hide Merged;
      assert (files[names[0]] + Merged(files, names[1..]))[|files[names[0]]|..] == Merged(files, names[1..]);
    }
  }

  /** The assembled catalog lists the named fragments: a framework per framework file, and the entries of the control
      and crosswalk files, file after file. */
  ghost predicate Assembled(fr: Fragments, p: Pack, c: Catalog)
    requires Present(fr, p)
  {
    && c.Catalog? && c.frameworks.List? && c.controls.List? && c.crosswalks.List?
    && |c.frameworks.items| == |p.frameworks| && (forall i | 0 <= i < |p.frameworks| :: c.frameworks.items[i] == fr.frameworks[p.frameworks[i]])
    && FileAfterFile(fr.controls, p.controls, c.controls.items)
    && FileAfterFile(fr.crosswalks, p.crosswalks, c.crosswalks.items)
  }

  lemma CatalogIsAssembled(fr: Fragments, p: Pack)
    requires Present(fr, p)
    ensures Assembled(fr, p, CatalogOf(fr, p))
  {
    MergedIsFileAfterFile(fr.controls, p.controls);
    MergedIsFileAfterFile(fr.crosswalks, p.crosswalks);
    hide FileAfterFile, Merged;
  }

  /** The assembled catalog, or nothing (FileNotFoundError) when a fragment is missing. */
  method LoadCatalog(fr: Fragments, p: Pack) returns (c: Option<Catalog>)
    ensures c == if Present(fr, p) then Some(CatalogOf(fr, p)) else None
    ensures Present(fr, p) ==> c.Some? && Assembled(fr, p, c.value)
  {
    hide FileAfterFile, Assembled;
    var frameworks: seq<Entry<Framework>> := [];
    for i := 0 to |p.frameworks|
      invariant forall n | n in p.frameworks[..i] :: n in fr.frameworks
      invariant frameworks == FrameworkList(fr.frameworks, p.frameworks[..i])
    {
      if p.frameworks[i] !in fr.frameworks { assert p.frameworks[i] in p.frameworks; return None; }
      frameworks := frameworks + [fr.frameworks[p.frameworks[i]]];
    }
    assert p.frameworks[..|p.frameworks|] == p.frameworks;
    var controls: seq<Entry<Control>> := [];
    for i := 0 to |p.controls|
      invariant forall n | n in p.controls[..i] :: n in fr.controls
      invariant controls == Merged(fr.controls, p.controls[..i])
    {
      if p.controls[i] !in fr.controls { assert p.controls[i] in p.controls; return None; }
      assert p.controls[..i+1][..i] == p.controls[..i];
      controls := controls + fr.controls[p.controls[i]];
    }
    assert p.controls[..|p.controls|] == p.controls;
    var crosswalks: seq<Entry<Crosswalk>> := [];
    for i := 0 to |p.crosswalks|
      invariant forall n | n in p.crosswalks[..i] :: n in fr.crosswalks
      invariant crosswalks == Merged(fr.crosswalks, p.crosswalks[..i])
    {
      if p.crosswalks[i] !in fr.crosswalks { assert p.crosswalks[i] in p.crosswalks; return None; }
      assert p.crosswalks[..i+1][..i] == p.crosswalks[..i];
      crosswalks := crosswalks + fr.crosswalks[p.crosswalks[i]];
    }
    assert p.crosswalks[..|p.crosswalks|] == p.crosswalks;
    CatalogIsAssembled(fr, p);
    return Some(Catalog(List(frameworks), List(controls), List(crosswalks)));
  }

  /*************** install and uninstall ***************/

  // `content_pack_version:<org>:<pack>` in app_settings, and whatever else is stored there.
  datatype SettingKey = PackVersion(org: Org, pack: string) | OtherSetting(name: string)

  function OwnedAssets(org: Org, source: string, db: Db): set<Id> {
    set a | a in db.assets && OwnsAsset(org, source, db.assets[a])
  }

  function OwnedEdges(org: Org, source: string, db: Db): set<Id> {
    set e | e in db.edges && OwnsEdge(org, source, db.edges[e])
  }

  // The first two statements of an uninstall; the second one cascades.
  function Uninstalled(org: Org, source: string, db: Db): Db {
    var d := DeleteEdges(db, OwnedEdges(org, source, db));
    DeleteAssets(d, OwnedAssets(org, source, d))
  }

  /** The settings table next to the graph session. */
  class PackManager {
    const session: Sync.Session
    var settings: map<SettingKey, string>

    constructor (session: Sync.Session, settings: map<SettingKey, string>)
      ensures this.session == session && this.settings == settings
    {
      this.session, this.settings := session, settings;
    }

    /** Install under the session's source.  The version is recorded only after a real, error-free
        run; that statement is not part of the run's transaction, so it may raise on its own. */
    method InstallPack(fr: Fragments, p: Pack, dryRun: bool, prune: bool) returns (raised: bool, result: Option<Sync.SyncResult>)
      requires Valid(session.Tables()) && session.source == SourceOf(p)
      modifies this, session
      ensures Valid(session.Tables())
      ensures !Present(fr, p) ==> raised && result.None?
      ensures raised && result.None? ==> session.Tables() == old(session.Tables()) && settings == old(settings)
      ensures raised && result.Some? ==> settings == old(settings) && Present(fr, p) && !dryRun && result.value.errors == []
      ensures !raised ==> result.Some? && Present(fr, p)
      ensures result.Some? ==> (result.value.errors == [] <==> WellFormed(CatalogOf(fr, p)))
      ensures result.Some? && (dryRun || result.value.errors != []) ==>
                session.Tables() == old(session.Tables()) && settings == old(settings)
      ensures result.Some? && !dryRun && result.value.errors == [] ==>
                Runnable(Ops(CatalogOf(fr, p))) &&
                session.Tables() == Committed(session.org, SourceOf(p), prune, old(session.Tables()), Ops(CatalogOf(fr, p)))
      ensures result.Some? && !dryRun && result.value.errors == [] ==>
                Assembled(fr, p, CatalogOf(fr, p)) &&
                Meaning.Shows(CatalogOf(fr, p), session.org, SourceOf(p), old(session.Tables()), session.Tables())
      ensures !raised && !dryRun && result.value.errors == [] ==>
                settings == old(settings)[PackVersion(session.org, p.id) := p.version]
    {
      hide Valid, Committed, WellFormed, Ops, Runnable, Assembled, Meaning.Shows, Meaning.CountsEntries;
      result := None;
      var catalog := LoadCatalog(fr, p);
      if catalog.None? { return true, None; }
      var r;
      raised, r := session.SyncCatalog(catalog.value, dryRun, prune);
      if raised { return; }
      result := Some(r);
      if !dryRun && r.errors == [] {
        session.statements := session.statements + 1;
        raised := session.fails(session.statements - 1);
        if raised { return; }
        settings := settings[PackVersion(session.org, p.id) := p.version];
      }
    }

    /** One transaction of three deletes; if any raises, nothing has changed. */
    method UninstallPack(p: Pack) returns (raised: bool, assets: nat, relationships: nat)
      requires Valid(session.Tables()) && session.source == SourceOf(p)
      modifies this, session
      ensures Valid(session.Tables())
      ensures raised ==> session.Tables() == old(session.Tables()) && settings == old(settings)
      ensures !raised ==> session.Tables() == Uninstalled(session.org, SourceOf(p), old(session.Tables()))
      ensures !raised ==> settings == old(settings) - {PackVersion(session.org, p.id)}
      ensures !raised ==> assets == |OwnedAssets(session.org, SourceOf(p), old(session.Tables()))|
      ensures !raised ==> relationships == |OwnedEdges(session.org, SourceOf(p), old(session.Tables()))|
    {
      hide Valid;
      var n := session.statements;
      session.statements := n + 3;
      raised := session.fails(n) || session.fails(n + 1) || session.fails(n + 2);
      assets, relationships := 0, 0;
      if raised { return; }
      var org, source := session.org, session.source;
      var edges := set e | e in session.edges && OwnsEdge(org, source, session.edges[e]);
      DeleteEdgesKeepsValid(session.Tables(), edges);
      relationships := |edges|;
      session.edges := map e | e in session.edges && e !in edges :: session.edges[e];
      var gone := set a | a in session.assets && OwnsAsset(org, source, session.assets[a]);
      DeleteAssetsKeepsValid(session.Tables(), gone);
      assets := |gone|;
      session.edges := map e | e in session.edges && session.edges[e].src !in gone && session.edges[e].dst !in gone :: session.edges[e];
      session.assets := map a | a in session.assets && a !in gone :: Disowned(session.assets[a], gone);
      settings := settings - {PackVersion(org, p.id)};
    }
  }

  /*************** reversibility ***************/

  /** From a graph with no row of the source, installing and then uninstalling gives back every asset
      and every relationship exactly. */
  lemma InstallThenUninstall(org: Org, source: string, prune: bool, before: Db, ops: seq<Op>)
    requires Valid(before) && Runnable(ops)
    requires OwnedAssets(org, source, before) == {} && OwnedEdges(org, source, before) == {}
    ensures var after := Uninstalled(org, source, Committed(org, source, prune, before, ops));
            after.assets == before.assets && after.edges == before.edges
  {
    hide Valid, Runnable, Committed;
    hide AssetPlan, Uninstalled, DeleteAssets, OwnedAssets, OwnedEdges, Dropped;
    var mid := Committed(org, source, false, before, ops);
    OthersUntouched(org, source, before, ops);
    NothingOwned(org, source, before);
    UninstallRestores(org, source, before, mid);
    if prune { FirstPruneIsIdle(org, source, before, ops); }
  }

  /** Trying a pack out: install it, then uninstall it.  Where the pack was not installed before, an uninstall
      that goes through gives back the settings, the assets and the relationships exactly, and it does so
      however the install ended: completed, refused, dry, or raised at any statement, the one that records the
      version included. */
  method TryOut(m: PackManager, fr: Fragments, p: Pack, dryRun: bool, prune: bool) returns (raised: bool)
    requires Valid(m.session.Tables()) && m.session.source == SourceOf(p)
    requires PackVersion(m.session.org, p.id) !in m.settings
    requires OwnedAssets(m.session.org, SourceOf(p), m.session.Tables()) == {}
    requires OwnedEdges(m.session.org, SourceOf(p), m.session.Tables()) == {}
    modifies m, m.session
    ensures Valid(m.session.Tables())
    ensures !raised ==> m.settings == old(m.settings)
    ensures !raised ==> m.session.Tables().assets == old(m.session.Tables()).assets
    ensures !raised ==> m.session.Tables().edges == old(m.session.Tables()).edges
  {
    hide *;
    ghost var (org, before, settings, key) := (m.session.org, m.session.Tables(), m.settings, PackVersion(m.session.org, p.id));
    var failed, result := m.InstallPack(fr, p, dryRun, prune);
    UninstallingNothing(org, SourceOf(p), before);
    if result.Some? && !dryRun && result.value.errors == [] {
      InstallThenUninstall(org, SourceOf(p), prune, before, Ops(CatalogOf(fr, p)));
    } else {
      assert m.session.Tables() == before;
    }
    assert m.settings == settings || m.settings == settings[key := p.version];
    SettingRemoved(settings, key, p.version);
    var assets, relationships;
    raised, assets, relationships := m.UninstallPack(p);
  }

  lemma SettingRemoved(settings: map<SettingKey, string>, key: SettingKey, value: string)
    requires key !in settings
    ensures settings - {key} == settings && settings[key := value] - {key} == settings
  {}

  lemma UninstallingNothing(org: Org, source: string, db: Db)
    requires Valid(db) && OwnedAssets(org, source, db) == {} && OwnedEdges(org, source, db) == {}
    ensures Uninstalled(org, source, db).assets == db.assets && Uninstalled(org, source, db).edges == db.edges
  {
    hide Valid, Uninstalled, OwnedAssets, OwnedEdges;
    NothingOwned(org, source, db);
    UninstallRestores(org, source, db, db);
  }

  // With no row of the source before, there is nothing to prune.
  lemma FirstPruneIsIdle(org: Org, source: string, before: Db, ops: seq<Op>)
    requires Valid(before) && Runnable(ops) && OwnedAssets(org, source, before) == {}
    ensures Committed(org, source, true, before, ops) == Committed(org, source, false, before, ops)
    ensures Dropped(org, source, AssetPlan(ops), before) == {}
  {
    hide Valid, Runnable, Committed, DeleteAssets;
    PruneIsExact(org, source, before, ops);
    var gone := Dropped(org, source, AssetPlan(ops), before);
    assert gone <= OwnedAssets(org, source, before) == {};
    assert gone == {};
    Sync.DeleteNone(Committed(org, source, false, before, ops));
  }

  lemma NothingOwned(org: Org, source: string, db: Db)
    requires OwnedAssets(org, source, db) == {} && OwnedEdges(org, source, db) == {}
    ensures forall a | a in db.assets :: !OwnsAsset(org, source, db.assets[a])
    ensures forall e | e in db.edges :: !OwnsEdge(org, source, db.edges[e])
  {
    forall a | a in db.assets ensures !OwnsAsset(org, source, db.assets[a]) {
      assert a in OwnedAssets(org, source, db) <==> OwnsAsset(org, source, db.assets[a]);
    }
    forall e | e in db.edges ensures !OwnsEdge(org, source, db.edges[e]) {
      assert e in OwnedEdges(org, source, db) <==> OwnsEdge(org, source, db.edges[e]);
    }
  }

  lemma UninstallRestores(org: Org, source: string, before: Db, mid: Db)
    requires Valid(before)
    requires forall a | a in before.assets :: !OwnsAsset(org, source, before.assets[a]) && a in mid.assets && mid.assets[a] == before.assets[a]
    requires forall a | a in mid.assets && !OwnsAsset(org, source, mid.assets[a]) :: a in before.assets
    requires forall e | e in before.edges :: !OwnsEdge(org, source, before.edges[e]) && e in mid.edges && mid.edges[e] == before.edges[e]
    requires forall e | e in mid.edges && !OwnsEdge(org, source, mid.edges[e]) :: e in before.edges
    ensures Uninstalled(org, source, mid).assets == before.assets
    ensures Uninstalled(org, source, mid).edges == before.edges
  {
    hide UniqueAssets, UniqueEdges, IdsBelow;
    var d := DeleteEdges(mid, OwnedEdges(org, source, mid));
    var gone := OwnedAssets(org, source, d);
    assert forall a | a in before.assets :: a !in gone;
    forall a | a in before.assets ensures Disowned(mid.assets[a], gone) == before.assets[a] {
      assert before.assets[a].owner.Some? ==> before.assets[a].owner.value in before.assets;
    }
    forall e | e in before.edges ensures mid.edges[e].src !in gone && mid.edges[e].dst !in gone {
      assert before.edges[e].src in before.assets && before.edges[e].dst in before.assets;
    }
  }

  /*************** coexistence ***************/

  // Both ends of every edge of the source are assets of the source.
  ghost predicate EndsInside(org: Org, source: string, db: Db) {
    forall e | e in db.edges && OwnsEdge(org, source, db.edges[e]) ::
      && db.edges[e].src in db.assets && OwnsAsset(org, source, db.assets[db.edges[e].src])
      && db.edges[e].dst in db.assets && OwnsAsset(org, source, db.assets[db.edges[e].dst])
  }

  /** Installing leaves every edge of the pack between two assets of the pack. */
  lemma InstalledEdgesInside(org: Org, source: string, prune: bool, before: Db, ops: seq<Op>)
    requires Valid(before) && Runnable(ops)
    ensures EndsInside(org, source, Committed(org, source, prune, before, ops))
  {
    hide Valid, Runnable, Committed;
    EdgesConverge(org, source, prune, before, ops);
    var db := Committed(org, source, prune, before, ops);
    forall e | e in db.edges && OwnsEdge(org, source, db.edges[e])
      ensures db.edges[e].src in db.assets && OwnsAsset(org, source, db.assets[db.edges[e].src])
      ensures db.edges[e].dst in db.assets && OwnsAsset(org, source, db.assets[db.edges[e].dst])
    {
      assert EdgeMatches(org, source, db, e, EdgePlan(ops)[db.edges[e].origin.value.ref]);
    }
  }

  /** Uninstalling one pack leaves another's assets, and every edge between them, as they were; only an
      owner someone set to a removed asset is cleared. */
  lemma UninstallLeavesOther(org: Org, source: string, other: string, db: Db)
    requires source != other && EndsInside(org, other, db)
    ensures var after := Uninstalled(org, source, db);
            && (forall a | a in db.assets && OwnsAsset(org, other, db.assets[a]) ::
                  a in after.assets && after.assets[a] == Disowned(db.assets[a], OwnedAssets(org, source, db)))
            && (forall e | e in db.edges && OwnsEdge(org, other, db.edges[e]) ::
                  e in after.edges && after.edges[e] == db.edges[e])
            && OwnedAssets(org, source, after) == {} && OwnedEdges(org, source, after) == {}
            && EndsInside(org, other, after)
  {}

  /** An install of one source leaves the edges and assets of any other source as they were, also under
      their refs. */
  lemma InstallLeavesOther(org: Org, source: string, other: string, before: Db, ops: seq<Op>)
    requires Valid(before) && Runnable(ops) && source != other
    ensures var after := Committed(org, source, false, before, ops);
            && AssetContent(org, other, after) == AssetContent(org, other, before)
            && EdgeContent(org, other, after) == EdgeContent(org, other, before)
  {
    hide Valid, Runnable, Committed, RefAt;
    var after := Committed(org, source, false, before, ops);
    OthersUntouched(org, source, before, ops);
    forall i | i in before.assets ensures RefAt(after, i) == RefAt(before, i) { RefsStay(org, source, before, ops, i); }
    EdgeEndsKnown(before);
    SameOwned(org, other, before, after);
  }

  lemma RefsStay(org: Org, source: string, before: Db, ops: seq<Op>, i: Id)
    requires Valid(before) && Runnable(ops) && i in before.assets
    ensures RefAt(Committed(org, source, false, before, ops), i) == RefAt(before, i)
  {
    hide Valid, Runnable, Play, Played, EdgesAfter, TallyIs, IdsName, Resolved;
    PlayIsPlayed(org, source, before, ops);
    var r := Play(org, source, Start(before), ops);
    PlayedParts(org, source, before, ops, r);
    assert r.db.assets[i] == AssetBecomes(org, source, AssetPlan(ops), before.assets[i]);
  }

  lemma EdgeEndsKnown(db: Db)
    requires Valid(db)
    ensures forall e | e in db.edges :: db.edges[e].src in db.assets && db.edges[e].dst in db.assets
  {}

  lemma SameOwned(org: Org, other: string, before: Db, after: Db)
    requires forall a | a in before.assets && OwnsAsset(org, other, before.assets[a]) :: a in after.assets && after.assets[a] == before.assets[a]
    requires forall a | a in after.assets && OwnsAsset(org, other, after.assets[a]) :: a in before.assets && after.assets[a] == before.assets[a]
    requires forall e | e in before.edges && OwnsEdge(org, other, before.edges[e]) :: e in after.edges && after.edges[e] == before.edges[e]
    requires forall e | e in after.edges && OwnsEdge(org, other, after.edges[e]) :: e in before.edges && after.edges[e] == before.edges[e]
    requires forall e | e in before.edges :: before.edges[e].src in before.assets && before.edges[e].dst in before.assets
    requires forall i | i in before.assets :: RefAt(after, i) == RefAt(before, i)
    ensures AssetContent(org, other, after) == AssetContent(org, other, before)
    ensures EdgeContent(org, other, after) == EdgeContent(org, other, before)
  {
    hide RefAt;
  }

  // A first install brings exactly the catalog's assets.
  lemma FirstInstallContent(org: Org, source: string, before: Db, ops: seq<Op>)
    requires Valid(before) && Runnable(ops) && OwnedAssets(org, source, before) == {}
    ensures AssetContent(org, source, Committed(org, source, false, before, ops)) == PlanContent(AssetPlan(ops))
  {
    hide Valid, Runnable, Committed, PlanContent, AssetContent;
    FirstPruneIsIdle(org, source, before, ops);
    PrunedContent(org, source, before, ops);
  }

  /** Two packs can be installed in either order: the tagged content of both is the same, and it is what
      each of their catalogs says. */
  lemma InstallOrderIrrelevant(org: Org, s1: string, s2: string, before: Db, ops1: seq<Op>, ops2: seq<Op>)
    requires Valid(before) && Runnable(ops1) && Runnable(ops2) && s1 != s2
    requires OwnedAssets(org, s1, before) == {} && OwnedAssets(org, s2, before) == {}
    ensures var d12 := Committed(org, s2, false, Committed(org, s1, false, before, ops1), ops2);
            var d21 := Committed(org, s1, false, Committed(org, s2, false, before, ops2), ops1);
            && AssetContent(org, s1, d12) == AssetContent(org, s1, d21) == PlanContent(AssetPlan(ops1))
            && AssetContent(org, s2, d12) == AssetContent(org, s2, d21) == PlanContent(AssetPlan(ops2))
            && EdgeContent(org, s1, d12) == EdgeContent(org, s1, d21) == EdgePlan(ops1).Values
            && EdgeContent(org, s2, d12) == EdgeContent(org, s2, d21) == EdgePlan(ops2).Values
  {
    FirstThenSecond(org, s1, s2, before, ops1, ops2);
    FirstThenSecond(org, s2, s1, before, ops2, ops1);
  }

  lemma FirstThenSecond(org: Org, s1: string, s2: string, before: Db, ops1: seq<Op>, ops2: seq<Op>)
    requires Valid(before) && Runnable(ops1) && Runnable(ops2) && s1 != s2
    requires OwnedAssets(org, s1, before) == {} && OwnedAssets(org, s2, before) == {}
    ensures var d := Committed(org, s2, false, Committed(org, s1, false, before, ops1), ops2);
            && AssetContent(org, s1, d) == PlanContent(AssetPlan(ops1)) && EdgeContent(org, s1, d) == EdgePlan(ops1).Values
            && AssetContent(org, s2, d) == PlanContent(AssetPlan(ops2)) && EdgeContent(org, s2, d) == EdgePlan(ops2).Values
  {
    hide Valid, Runnable, Committed, AssetContent, EdgeContent, PlanContent, EdgesConverged, OwnedAssets;
    var mid := Committed(org, s1, false, before, ops1);
    CommittedKeepsValid(org, s1, false, before, ops1);
    FirstInstallContent(org, s1, before, ops1);
    HistoryIndependent(org, s1, false, before, before, ops1);
    InstallLeavesOther(org, s2, s1, mid, ops2);
    StillUnowned(org, s1, s2, before, ops1);
    FirstInstallContent(org, s2, mid, ops2);
    HistoryIndependent(org, s2, false, mid, mid, ops2);
  }

  lemma StillUnowned(org: Org, s1: string, s2: string, before: Db, ops1: seq<Op>)
    requires Valid(before) && Runnable(ops1) && s1 != s2 && OwnedAssets(org, s2, before) == {}
    ensures OwnedAssets(org, s2, Committed(org, s1, false, before, ops1)) == {}
  {
    hide Valid, Runnable, Committed;
    OthersUntouched(org, s1, before, ops1);
    var mid := Committed(org, s1, false, before, ops1);
    forall a | a in OwnedAssets(org, s2, mid) ensures a in OwnedAssets(org, s2, before) {
      assert !OwnsAsset(org, s1, mid.assets[a]);
      assert mid.assets[a] == before.assets[a];
    }
  }

  /** Installing one pack, with pruning or without, keeps the edges of another between that one's assets. */
  lemma InstallKeepsInside(org: Org, source: string, other: string, prune: bool, before: Db, ops: seq<Op>)
    requires Valid(before) && Runnable(ops) && source != other && EndsInside(org, other, before)
    ensures EndsInside(org, other, Committed(org, source, prune, before, ops))
  {
    hide Valid, Runnable, Committed;
    OthersUntouched(org, source, before, ops);
    if prune { PruneIsExact(org, source, before, ops); }
  }

  /** Uninstalling one pack leaves the tagged content of another as it was. */
  lemma UninstallKeepsContent(org: Org, source: string, other: string, db: Db)
    requires source != other && EndsInside(org, other, db)
    ensures AssetContent(org, other, Uninstalled(org, source, db)) == AssetContent(org, other, db)
    ensures EdgeContent(org, other, Uninstalled(org, source, db)) == EdgeContent(org, other, db)
  {
    UninstallLeavesOther(org, source, other, db);
    var after := Uninstalled(org, source, db);
    forall a | a in db.assets && OwnsAsset(org, other, db.assets[a]) ensures RefAt(after, a) == RefAt(db, a) {}
    OwnedShrink(org, source, db);
    hide Uninstalled, OwnedAssets, OwnedEdges, RefAt;
    SameContent(org, other, db, after);
  }

  lemma OwnedShrink(org: Org, source: string, db: Db)
    ensures var after := Uninstalled(org, source, db);
            && (forall a | a in after.assets :: a in db.assets && after.assets[a].origin == db.assets[a].origin && after.assets[a].org == db.assets[a].org)
            && (forall e | e in after.edges :: e in db.edges && after.edges[e] == db.edges[e])
  {}

  lemma SameContent(org: Org, other: string, db: Db, after: Db)
    requires EndsInside(org, other, db)
    requires forall a | a in db.assets && OwnsAsset(org, other, db.assets[a]) ::
      a in after.assets && after.assets[a] == db.assets[a].(owner := after.assets[a].owner) && RefAt(after, a) == RefAt(db, a)
    requires forall a | a in after.assets && OwnsAsset(org, other, after.assets[a]) :: a in db.assets && OwnsAsset(org, other, db.assets[a])
    requires forall e | e in db.edges && OwnsEdge(org, other, db.edges[e]) :: e in after.edges && after.edges[e] == db.edges[e]
    requires forall e | e in after.edges && OwnsEdge(org, other, after.edges[e]) :: e in db.edges && after.edges[e] == db.edges[e]
    ensures AssetContent(org, other, after) == AssetContent(org, other, db)
    ensures EdgeContent(org, other, after) == EdgeContent(org, other, db)
  {
    hide RefAt;
  }

  /** Two packs installed one after the other: whichever of them is then uninstalled, the tagged content of the
      one that stays is what its own catalog says, and nothing of the other is left. */
  lemma EitherCanGo(org: Org, s1: string, s2: string, before: Db, ops1: seq<Op>, ops2: seq<Op>)
    requires Valid(before) && Runnable(ops1) && Runnable(ops2) && s1 != s2
    requires OwnedAssets(org, s1, before) == {} && OwnedAssets(org, s2, before) == {}
    ensures var both := Committed(org, s2, false, Committed(org, s1, false, before, ops1), ops2);
            && Remains(org, s1, s2, Uninstalled(org, s1, both), ops2) && Remains(org, s2, s1, Uninstalled(org, s2, both), ops1)
  {
    hide Valid, Runnable, Committed, Uninstalled, OwnedAssets, OwnedEdges, EndsInside;
    hide AssetContent, EdgeContent, PlanContent;
    var mid := Committed(org, s1, false, before, ops1);
    var both := Committed(org, s2, false, mid, ops2);
    CommittedKeepsValid(org, s1, false, before, ops1);
    FirstThenSecond(org, s1, s2, before, ops1, ops2);
    InstalledEdgesInside(org, s1, false, before, ops1);
    InstallKeepsInside(org, s2, s1, false, mid, ops2);
    InstalledEdgesInside(org, s2, false, mid, ops2);
    OneGone(org, s1, s2, both, ops2);
    OneGone(org, s2, s1, both, ops1);
  }

  ghost predicate Remains(org: Org, gone: string, kept: string, db: Db, ops: seq<Op>) {
    && OwnedAssets(org, gone, db) == {} && OwnedEdges(org, gone, db) == {}
    && AssetContent(org, kept, db) == PlanContent(AssetPlan(ops)) && EdgeContent(org, kept, db) == EdgePlan(ops).Values
  }

  lemma OneGone(org: Org, gone: string, kept: string, both: Db, ops: seq<Op>)
    requires gone != kept && EndsInside(org, kept, both)
    requires AssetContent(org, kept, both) == PlanContent(AssetPlan(ops)) && EdgeContent(org, kept, both) == EdgePlan(ops).Values
    ensures Remains(org, gone, kept, Uninstalled(org, gone, both), ops)
  {
    hide Uninstalled, EndsInside, AssetContent, EdgeContent, PlanContent;
    UninstallLeavesOther(org, gone, kept, both);
    UninstallKeepsContent(org, gone, kept, both);
  }
}
