/** `clone_asset`: a copy of one asset and, on request, of the relationships around it.  The second pass
    reads the table after the first has written to it. */
module AssetClone {
  import opened Options
  import opened Graph

  function OutOf(edges: map<Id, Edge>, a: Id): set<Id> { set e | e in edges && edges[e].src == a }
  function InTo(edges: map<Id, Edge>, a: Id): set<Id> { set e | e in edges && edges[e].dst == a }
  function Loops(edges: map<Id, Edge>, a: Id): set<Id> { OutOf(edges, a) * InTo(edges, a) }
  function Touching(edges: map<Id, Edge>, a: Id): set<Id> { OutOf(edges, a) + InTo(edges, a) }

  datatype Pass = Outgoing | Incoming

  // The row one pass inserts for `e`, with the clone `n` in the original's place.
  function CopyRow(pass: Pass, org: Org, n: Id, e: Edge): Edge {
    if pass.Outgoing? then Edge(org, n, e.dst, e.kind, e.description, None)
    else Edge(org, e.src, n, e.kind, e.description, None)
  }

  ghost predicate Injective(m: map<Id, Id>) { forall i, j | i in m && j in m && m[i] == m[j] :: i == j }

  // `m` names the fresh copy of each row in its domain.
  ghost predicate Copies(before: map<Id, Edge>, after: map<Id, Edge>, m: map<Id, Id>, pass: Pass, org: Org, n: Id) {
    && Injective(m)
    && m.Keys <= before.Keys
    && m.Values !! before.Keys
    && after.Keys == before.Keys + m.Values
    && (forall e | e in before :: after[e] == before[e])
    && (forall e | e in m :: after[m[e]] == CopyRow(pass, org, n, before[e]))
  }

  /* The relationships after both passes: `first` copies every row leaving the original, and `second` every
     row then arriving at it. */
  ghost predicate Cloned(before: map<Id, Edge>, after: map<Id, Edge>, org: Org, a: Id, n: Id,
                         middle: map<Id, Edge>, first: map<Id, Id>, second: map<Id, Id>) {
    && Copies(before, middle, first, Outgoing, org, n) && first.Keys == OutOf(before, a)
    && Copies(middle, after, second, Incoming, org, n) && second.Keys == InTo(middle, a)
  }

  class Store {
    var db: Db

    method InsertRelationship(e: Edge) returns (id: Id)
      requires Valid(db) && e.origin.None? && e.src in db.assets && e.dst in db.assets
      modifies this
      ensures Valid(db)
      ensures id == old(db.next) && id !in old(db.edges)
      ensures db == old(db).(edges := old(db.edges)[id := e], next := id + 1)
    {
      id := db.next;
      db := db.(edges := db.edges[id := e], next := id + 1);
    }

    // One pass: a copy of every row of `rels`, read before the first insert.
    method CopyPass(rels: set<Id>, pass: Pass, org: Org, n: Id) returns (ghost m: map<Id, Id>)
      requires Valid(db) && rels <= db.edges.Keys && n in db.assets
      modifies this
      ensures Valid(db) && db.assets == old(db.assets)
      ensures m.Keys == rels
      ensures Copies(old(db.edges), db.edges, m, pass, org, n)
    {
      hide Valid, Copies;
      var before, todo := db.edges, rels;
      m := map[];
      NoCopies(before, pass, org, n);
      Ends(db);
      while todo != {}
        invariant Valid(db) && db.assets == old(db.assets)
        invariant todo <= rels && m.Keys == rels - todo
        invariant Copies(before, db.edges, m, pass, org, n)
        decreases todo
      {
        var e :| e in todo;
        todo := todo - {e};
        ghost var was := db.edges;
        var id := InsertRelationship(CopyRow(pass, org, n, before[e]));
        OneMore(before, was, db.edges, m, pass, org, n, e, id);
        m := m[e := id];
      }
    }

    /** Without the asset in the organization nothing happens; otherwise one new asset row, and with
        `cloneRelationships` the two passes over its relationships. */
    method CloneAsset(org: Org, a: Id, newName: Option<string>, cloneRelationships: bool)
        returns (r: Option<Id>, ghost middle: map<Id, Edge>, ghost first: map<Id, Id>, ghost second: map<Id, Id>)
      requires Valid(db)
      modifies this
      ensures Valid(db)
      ensures r.Some? <==> a in old(db.assets) && old(db.assets)[a].org == org
      ensures r.None? ==> db == old(db)
      ensures r.Some? ==> r.value !in old(db.assets)
      ensures r.Some? ==> db.assets == old(db.assets)[r.value := CloneRow(old(db.assets)[a], newName)]
      ensures r.Some? ==> r.value in db.assets && ClonedRow(old(db.assets)[a], db.assets[r.value], newName)
      ensures r.Some? && cloneRelationships ==> ClonedEdges(old(db.edges), db.edges, org, a, r.value)
      ensures r.Some? && !cloneRelationships ==> db.edges == old(db.edges)
      ensures r.Some? && cloneRelationships ==> Cloned(old(db.edges), db.edges, org, a, r.value, middle, first, second)
    {
      hide Copies, Valid, OutOf, InTo;
      r, middle, first, second := None, map[], map[], map[];
      if a !in db.assets || db.assets[a].org != org { return; }
      var n := db.next;
      CloneRowFits(db, a, newName);
      db := db.(assets := db.assets[n := CloneRow(db.assets[a], newName)], next := n + 1);
      r := Some(n);
      if cloneRelationships {
        first := CopyPass(OutOf(db.edges, a), Outgoing, org, n);
        middle := db.edges;
        second := CopyPass(InTo(db.edges, a), Incoming, org, n);
        ClonedShows(old(db.edges), db.edges, org, a, n, middle, first, second);
      }
    }
  }

  // The new row, column by column: the original's type, text, status, owner and custom fields under the new name or
  // a name of its own, and no provenance.
  predicate ClonedRow(original: Asset, clone: Asset, newName: Option<string>) {
    && clone.org == original.org && clone.kind == original.kind && clone.description == original.description
    && clone.status == original.status && clone.owner == original.owner && clone.metadata == original.metadata
    && clone.origin == None
    && clone.name == if newName in {None, Some("")} then original.name + " (Copy)" else newName.value
  }

  // Every relationship is still there, and each that leaves or enters the original has a new one that leaves or enters
  // the clone, of the same kind and text, with the same other end and no provenance.
  ghost predicate ClonedEdges(before: map<Id, Edge>, after: map<Id, Edge>, org: Org, a: Id, n: Id) {
    && (forall e | e in before :: e in after && after[e] == before[e])
    && (forall e | e in before && before[e].src == a ::
          exists c :: IsCopy(before, after, c, Edge(org, n, before[e].dst, before[e].kind, before[e].description, None)))
    && (forall e | e in before && before[e].dst == a ::
          exists c :: IsCopy(before, after, c, Edge(org, before[e].src, n, before[e].kind, before[e].description, None)))
  }

  predicate IsCopy(before: map<Id, Edge>, after: map<Id, Edge>, c: Id, row: Edge) { c in after && c !in before && after[c] == row }

  lemma ClonedShows(before: map<Id, Edge>, after: map<Id, Edge>, org: Org, a: Id, n: Id,
                    middle: map<Id, Edge>, first: map<Id, Id>, second: map<Id, Id>)
    requires Cloned(before, after, org, a, n, middle, first, second)
    ensures ClonedEdges(before, after, org, a, n)
  {
    forall e | e in before && before[e].src == a
      ensures exists c :: IsCopy(before, after, c, Edge(org, n, before[e].dst, before[e].kind, before[e].description, None))
    {
      assert e in first && first[e] in first.Values;
      assert IsCopy(before, after, first[e], Edge(org, n, before[e].dst, before[e].kind, before[e].description, None));
    }
    forall e | e in before && before[e].dst == a
      ensures exists c :: IsCopy(before, after, c, Edge(org, before[e].src, n, before[e].kind, before[e].description, None))
    {
      assert e in second && second[e] in second.Values;
      assert IsCopy(before, after, second[e], Edge(org, before[e].src, n, before[e].kind, before[e].description, None));
    }
  }

  // Everything but the name is the original's; provenance is not copied.
  function CloneRow(a: Asset, newName: Option<string>): Asset {
    var name := if newName.Some? && newName.value != "" then newName.value else a.name + " (Copy)";
    a.(name := name, origin := None)
  }

  lemma NoCopies(before: map<Id, Edge>, pass: Pass, org: Org, n: Id)
    ensures Copies(before, before, map[], pass, org, n)
  {
  }

  lemma Ends(db: Db)
    requires Valid(db)
    ensures forall e | e in db.edges :: db.edges[e].src in db.assets && db.edges[e].dst in db.assets
  {
  }

  lemma OneMore(before: map<Id, Edge>, was: map<Id, Edge>, now: map<Id, Edge>, m: map<Id, Id>,
                pass: Pass, org: Org, n: Id, e: Id, id: Id)
    requires Copies(before, was, m, pass, org, n) && e in before && e !in m && id !in was
    requires now == was[id := CopyRow(pass, org, n, before[e])]
    ensures Copies(before, now, m[e := id], pass, org, n)
  {
    var next := m[e := id];
    forall i | i in m ensures m[i] in was { assert m[i] in m.Values; }
    assert next.Values == m.Values + {id} by {
      assert forall i | i in m :: next[i] == m[i];
      assert next[e] == id;
      forall v | v in m.Values ensures v in next.Values {
        var i :| i in m && m[i] == v;
        assert next[i] == v;
      }
    }
  }

  lemma CloneRowFits(db: Db, a: Id, newName: Option<string>)
    requires Valid(db) && a in db.assets
    ensures db.next !in db.assets
    ensures Valid(db.(assets := db.assets[db.next := CloneRow(db.assets[a], newName)], next := db.next + 1))
    ensures forall x: Id, es: map<Id, Edge> :: OutOf(es, x) <= es.Keys && InTo(es, x) <= es.Keys
  {
  }

  /*************** how many ***************/

  lemma {:induction false} ImageSize(m: map<Id, Id>)
    requires Injective(m)
    ensures |m.Values| == |m.Keys|
    decreases |m|
  {
    if m.Keys == {} {
      assert m.Values == {};
    } else {
      var e :| e in m;
      var rest := m - {e};
      assert rest.Keys == m.Keys - {e};
      ImageSize(rest);
      assert m.Values == rest.Values + {m[e]} by {
        forall v | v in m.Values ensures v in rest.Values + {m[e]} {
          var i :| i in m && m[i] == v;
          if i != e { assert rest[i] == v; }
        }
      }
      assert m[e] !in rest.Values;
    }
  }

  lemma CopiesAdd(before: map<Id, Edge>, after: map<Id, Edge>, m: map<Id, Id>, pass: Pass, org: Org, n: Id)
    requires Copies(before, after, m, pass, org, n)
    ensures |after.Keys| == |before.Keys| + |m.Keys|
  {
    ImageSize(m);
  }

  function FirstCopies(before: map<Id, Edge>, a: Id, first: map<Id, Id>): map<Id, Id>
    requires first.Keys == OutOf(before, a)
  {
    map e | e in Loops(before, a) :: first[e]
  }

  lemma CopyAt(before: map<Id, Edge>, after: map<Id, Edge>, m: map<Id, Id>, pass: Pass, org: Org, n: Id, v: Id) returns (e: Id)
    requires Copies(before, after, m, pass, org, n) && v in m.Values
    ensures e in m && m[e] == v && v in after && v !in before && after[v] == CopyRow(pass, org, n, before[e])
  {
    e :| e in m && m[e] == v;
  }

  lemma LoopCopy(before: map<Id, Edge>, org: Org, a: Id, n: Id, middle: map<Id, Edge>, first: map<Id, Id>, v: Id)
    requires Copies(before, middle, first, Outgoing, org, n) && first.Keys == OutOf(before, a)
    requires v in FirstCopies(before, a, first).Values
    ensures v in first.Values && v !in before && v in InTo(middle, a)
  {
    var loops := FirstCopies(before, a, first);
    var i :| i in loops && loops[i] == v;
    assert first[i] == v;
  }

  lemma LoopMap(before: map<Id, Edge>, org: Org, a: Id, n: Id, middle: map<Id, Edge>, first: map<Id, Id>)
    requires Copies(before, middle, first, Outgoing, org, n) && first.Keys == OutOf(before, a)
    ensures FirstCopies(before, a, first).Keys == Loops(before, a) && Injective(FirstCopies(before, a, first))
  {
  }

  lemma NewArrival(before: map<Id, Edge>, org: Org, a: Id, n: Id, middle: map<Id, Edge>, first: map<Id, Id>, v: Id)
    requires Copies(before, middle, first, Outgoing, org, n) && first.Keys == OutOf(before, a) && a != n
    requires v in InTo(middle, a) && v !in before
    ensures v in FirstCopies(before, a, first).Values
  {
    var i := CopyAt(before, middle, first, Outgoing, org, n, v);
    var loops := FirstCopies(before, a, first);
    assert i in loops && loops[i] == v;
  }

  lemma OldArrivals(before: map<Id, Edge>, after: map<Id, Edge>, m: map<Id, Id>, pass: Pass, org: Org, n: Id, a: Id)
    requires Copies(before, after, m, pass, org, n)
    ensures forall e | e in before :: e in InTo(after, a) <==> e in InTo(before, a)
    ensures InTo(before, a) <= before.Keys
  {
  }

  // The second pass meets every old arrival and the first pass's copy of every self-loop.
  lemma SecondPassReads(before: map<Id, Edge>, org: Org, a: Id, n: Id, middle: map<Id, Edge>, first: map<Id, Id>)
    requires Copies(before, middle, first, Outgoing, org, n) && first.Keys == OutOf(before, a) && a != n
    ensures InTo(middle, a) == InTo(before, a) + FirstCopies(before, a, first).Values
    ensures |InTo(middle, a)| == |InTo(before, a)| + |Loops(before, a)|
  {
    hide *;
    var loops := FirstCopies(before, a, first);
    LoopMap(before, org, a, n, middle, first);
    OldArrivals(before, middle, first, Outgoing, org, n, a);
    forall v | v in loops.Values ensures v !in before && v in InTo(middle, a) {
      LoopCopy(before, org, a, n, middle, first, v);
    }
    forall v | v in InTo(middle, a) && v !in before ensures v in loops.Values {
      NewArrival(before, org, a, n, middle, first, v);
    }
    ImageSize(loops);
    assert InTo(before, a) !! loops.Values;
    assert InTo(middle, a) == InTo(before, a) + loops.Values;
  }

  /** Cloning adds out-degree + in-degree + number of self-loops relationships and changes none. */
  lemma CloneAdds(before: map<Id, Edge>, after: map<Id, Edge>, org: Org, a: Id, n: Id,
                  middle: map<Id, Edge>, first: map<Id, Id>, second: map<Id, Id>)
    requires Cloned(before, after, org, a, n, middle, first, second) && a != n
    ensures |after.Keys| == |before.Keys| + |OutOf(before, a)| + |InTo(before, a)| + |Loops(before, a)|
    ensures forall e | e in before :: e in after && after[e] == before[e]
  {
    CopiesAdd(before, middle, first, Outgoing, org, n);
    CopiesAdd(middle, after, second, Incoming, org, n);
    SecondPassReads(before, org, a, n, middle, first);
  }

  /*************** the neighbourhood ***************/

  // The other end, seen from `x`, with the direction.
  function Seen(e: Edge, x: Id): (bool, Id, string, string) {
    if e.src == x then (true, e.dst, e.kind, e.description) else (false, e.src, e.kind, e.description)
  }

  // A one-to-one match of the relationships around `a` with those around `n`.
  ghost predicate Matches(before: map<Id, Edge>, after: map<Id, Edge>, a: Id, n: Id, m: map<Id, Id>) {
    && Injective(m)
    && m.Keys == Touching(before, a)
    && m.Values == Touching(after, n)
    && forall e | e in m :: e in before && m[e] in after && Seen(after[m[e]], n) == Seen(before[e], a)
  }

  lemma NewAtClone(before: map<Id, Edge>, after: map<Id, Edge>, org: Org, a: Id, n: Id,
                   middle: map<Id, Edge>, first: map<Id, Id>, second: map<Id, Id>)
    requires Cloned(before, after, org, a, n, middle, first, second) && a != n && Touching(before, n) == {}
    ensures Touching(after, n) == first.Values + second.Values
  {
    forall e | e in Touching(after, n) ensures e in first.Values + second.Values {
      assert e !in Touching(before, n);
    }
    forall e | e in first.Values ensures e in Touching(after, n) {
      var i := CopyAt(before, middle, first, Outgoing, org, n, e);
    }
    forall e | e in second.Values ensures e in Touching(after, n) {
      var i := CopyAt(middle, after, second, Incoming, org, n, e);
    }
  }

  lemma JoinedMaps(first: map<Id, Id>, second: map<Id, Id>)
    requires first.Keys !! second.Keys && first.Values !! second.Values && Injective(first) && Injective(second)
    ensures Injective(first + second) && (first + second).Values == first.Values + second.Values
    ensures forall e | e in first :: (first + second)[e] == first[e]
    ensures forall e | e in second :: (first + second)[e] == second[e]
  {
    var m := first + second;
    forall e | e in m ensures m[e] in (if e in first then first.Values else second.Values) {
      if e in first { assert m[e] == first[e]; } else { assert m[e] == second[e]; }
    }
    forall v | v in first.Values ensures v in m.Values { var e :| e in first && first[e] == v; assert m[e] == v; }
    forall v | v in second.Values ensures v in m.Values { var e :| e in second && second[e] == v; assert m[e] == v; }
  }

  lemma ClonedMaps(before: map<Id, Edge>, after: map<Id, Edge>, org: Org, a: Id, n: Id,
                   middle: map<Id, Edge>, first: map<Id, Id>, second: map<Id, Id>)
    requires Cloned(before, after, org, a, n, middle, first, second) && a != n && Loops(before, a) == {}
    ensures Injective(first) && Injective(second)
    ensures first.Keys == OutOf(before, a) && second.Keys == InTo(before, a) && first.Keys !! second.Keys
    ensures first.Values !! second.Values && first.Keys + second.Keys == Touching(before, a)
    ensures second.Keys <= before.Keys
  {
    FreshMaps(before, after, org, a, n, middle, first, second);
    NoLoopReads(before, org, a, n, middle, first);
    OldArrivals(before, middle, first, Outgoing, org, n, a);
    NoLoopParts(before, a);
    hide *;
    assert first.Keys + second.Keys == Touching(before, a);
  }

  lemma NoLoopParts(edges: map<Id, Edge>, a: Id)
    requires Loops(edges, a) == {}
    ensures OutOf(edges, a) !! InTo(edges, a) && OutOf(edges, a) + InTo(edges, a) == Touching(edges, a)
  {
    hide OutOf, InTo;
    forall e | e in OutOf(edges, a) ensures e !in InTo(edges, a) {
      assert e !in Loops(edges, a);
    }
  }

  lemma NoLoopReads(before: map<Id, Edge>, org: Org, a: Id, n: Id, middle: map<Id, Edge>, first: map<Id, Id>)
    requires Copies(before, middle, first, Outgoing, org, n) && first.Keys == OutOf(before, a) && a != n
    requires Loops(before, a) == {}
    ensures InTo(middle, a) == InTo(before, a)
  {
    hide *;
    SecondPassReads(before, org, a, n, middle, first);
    LoopMap(before, org, a, n, middle, first);
    var loops := FirstCopies(before, a, first);
    ImageSize(loops);
    assert |loops.Keys| == 0;
    assert loops.Values == {};
  }

  lemma FreshMaps(before: map<Id, Edge>, after: map<Id, Edge>, org: Org, a: Id, n: Id,
                  middle: map<Id, Edge>, first: map<Id, Id>, second: map<Id, Id>)
    requires Cloned(before, after, org, a, n, middle, first, second)
    ensures Injective(first) && Injective(second) && first.Values !! second.Values
    ensures Copies(before, middle, first, Outgoing, org, n)
    ensures first.Keys == OutOf(before, a) && second.Keys == InTo(middle, a)
  {
    hide Injective, OutOf, InTo, CopyRow;
    assert first.Values <= middle.Keys;
  }

  /** An asset without a self-loop: the clone's neighbourhood is the original's, relationship by
      relationship. */
  lemma NoLoopMatches(before: map<Id, Edge>, after: map<Id, Edge>, org: Org, a: Id, n: Id,
                      middle: map<Id, Edge>, first: map<Id, Id>, second: map<Id, Id>)
    requires Cloned(before, after, org, a, n, middle, first, second) && a != n && Touching(before, n) == {}
    requires Loops(before, a) == {}
    ensures Matches(before, after, a, n, first + second)
  {
    hide *;
    var m := first + second;
    NewAtClone(before, after, org, a, n, middle, first, second);
    ClonedMaps(before, after, org, a, n, middle, first, second);
    JoinedMaps(first, second);
    forall e | e in first ensures e in before && first[e] in after && Seen(after[first[e]], n) == Seen(before[e], a) {
      SeenFirst(before, after, org, a, n, middle, first, second, e);
    }
    forall e | e in second && e !in first
      ensures e in before && second[e] in after && Seen(after[second[e]], n) == Seen(before[e], a)
    {
      SeenSecond(before, after, org, a, n, middle, first, second, e);
    }
    Gathered(before, after, a, n, m, first, second);
  }

  lemma Gathered(before: map<Id, Edge>, after: map<Id, Edge>, a: Id, n: Id, m: map<Id, Id>, first: map<Id, Id>, second: map<Id, Id>)
    requires m == first + second && Injective(m) && m.Keys == Touching(before, a) && m.Values == Touching(after, n)
    requires forall e | e in m :: e in before && m[e] in after && Seen(after[m[e]], n) == Seen(before[e], a)
    ensures Matches(before, after, a, n, m)
  {
  }

  lemma SeenFirst(before: map<Id, Edge>, after: map<Id, Edge>, org: Org, a: Id, n: Id,
                  middle: map<Id, Edge>, first: map<Id, Id>, second: map<Id, Id>, e: Id)
    requires Cloned(before, after, org, a, n, middle, first, second) && e in first
    ensures e in before && first[e] in after && Seen(after[first[e]], n) == Seen(before[e], a)
  {
    assert first[e] in first.Values && first[e] in middle;
  }

  lemma SeenSecond(before: map<Id, Edge>, after: map<Id, Edge>, org: Org, a: Id, n: Id,
                   middle: map<Id, Edge>, first: map<Id, Id>, second: map<Id, Id>, e: Id)
    requires Cloned(before, after, org, a, n, middle, first, second) && Touching(before, n) == {}
    requires e in second && e in before && e !in first
    ensures second[e] in after && Seen(after[second[e]], n) == Seen(before[e], a)
  {
    assert second[e] in second.Values;
    assert e !in Touching(before, n);
  }

  /** A self-loop breaks that: every self-loop leaves the clone with two relationships more than the
      original had, so a match exists exactly when there is none. */
  lemma MatchesIffNoLoop(before: map<Id, Edge>, after: map<Id, Edge>, org: Org, a: Id, n: Id,
                         middle: map<Id, Edge>, first: map<Id, Id>, second: map<Id, Id>)
    requires Cloned(before, after, org, a, n, middle, first, second) && a != n && Touching(before, n) == {}
    ensures |Touching(after, n)| == |Touching(before, a)| + 2 * |Loops(before, a)|
    ensures (exists m :: Matches(before, after, a, n, m)) <==> Loops(before, a) == {}
  {
    ImageSize(first);
    ImageSize(second);
    SecondPassReads(before, org, a, n, middle, first);
    NewAtClone(before, after, org, a, n, middle, first, second);
    assert first.Values <= middle.Keys;
    assert |first.Values + second.Values| == |first.Values| + |second.Values|;
    assert |Touching(before, a)| + |Loops(before, a)| == |OutOf(before, a)| + |InTo(before, a)|;
    if Loops(before, a) == {} {
      NoLoopMatches(before, after, org, a, n, middle, first, second);
    } else {
      forall m | Matches(before, after, a, n, m) ensures false { ImageSize(m); }
    }
  }

  // What the two theorems ask of the clone's id, the call provides: it is fresh, so nothing touches it yet.
  lemma FreshIdIsUntouched(db: Db, n: Id)
    requires Valid(db) && n !in db.assets
    ensures Touching(db.edges, n) == {}
  {
  }
}
