/** A well-formed catalog yields a runnable plan: the guards `sync_catalog` keeps for unresolved
    endpoints can never be taken, and no asset is written twice in a run. */
module CatalogRunnable {
  import opened Graph
  import opened CatalogDocument
  import opened CatalogPlan

  function AssetRefs(ops: seq<Op>): set<string> {
    set o | o in ops && o.PutAsset? :: o.asset.ref
  }

  // Runnable after the assets in `base` have been written.
  ghost predicate RunnableAfter(base: set<string>, ops: seq<Op>) {
    && DistinctAssets(ops)
    && AssetRefs(ops) !! base
    && (forall k | 0 <= k < |ops| && ops[k].PutEdge? ::
          (ops[k].edge.srcRef in base || WrittenBefore(ops, k, ops[k].edge.srcRef)) &&
          (ops[k].edge.dstRef in base || WrittenBefore(ops, k, ops[k].edge.dstRef)))
  }

  lemma WrittenBeforeAppend(a: seq<Op>, b: seq<Op>, k: nat, ref: string)
    requires |a| <= k <= |a| + |b|
    ensures ref in AssetRefs(a) ==> WrittenBefore(a + b, k, ref)
    ensures WrittenBefore(b, k - |a|, ref) ==> WrittenBefore(a + b, k, ref)
  {
    if ref in AssetRefs(a) {
      var o :| o in a && o.PutAsset? && o.asset.ref == ref;
      var i :| 0 <= i < |a| && a[i] == o;
      assert (a + b)[i] == o;
    }
    if WrittenBefore(b, k - |a|, ref) {
      var i :| 0 <= i < k - |a| && i < |b| && b[i].PutAsset? && b[i].asset.ref == ref;
      assert (a + b)[|a| + i] == b[i];
    }
  }

  lemma WrittenBeforePrefix(a: seq<Op>, b: seq<Op>, k: nat, ref: string)
    requires k <= |a| && WrittenBefore(a, k, ref)
    ensures WrittenBefore(a + b, k, ref)
  {
    var i :| 0 <= i < k && i < |a| && a[i].PutAsset? && a[i].asset.ref == ref;
    assert (a + b)[i] == a[i];
  }

  lemma RunnableAppend(base: set<string>, a: seq<Op>, b: seq<Op>)
    requires RunnableAfter(base, a) && RunnableAfter(base + AssetRefs(a), b)
    ensures RunnableAfter(base, a + b) && AssetRefs(a + b) == AssetRefs(a) + AssetRefs(b)
  {
    var ops := a + b;
    forall i, j | 0 <= i < j < |ops| && ops[i].PutAsset? && ops[j].PutAsset?
      ensures ops[i].asset.ref != ops[j].asset.ref
    {
      if i < |a| && |a| <= j {
        assert ops[i] == a[i] && ops[j] == b[j - |a|];
        assert a[i].asset.ref in AssetRefs(a) && b[j - |a|].asset.ref in AssetRefs(b);
      } else if j < |a| {
        assert ops[i] == a[i] && ops[j] == a[j];
      } else {
        assert ops[i] == b[i - |a|] && ops[j] == b[j - |a|];
      }
    }
    forall k, ref | 0 <= k < |ops| && ops[k].PutEdge? && (ref == ops[k].edge.srcRef || ref == ops[k].edge.dstRef)
      ensures ref in base || WrittenBefore(ops, k, ref)
    {
      if k < |a| {
        assert ops[k] == a[k];
        if ref !in base { WrittenBeforePrefix(a, b, k, ref); }
      } else {
        assert ops[k] == b[k - |a|];
        WrittenBeforeAppend(a, b, k, ref);
      }
    }
  }

  lemma EmptyRunnable(base: set<string>)
    ensures RunnableAfter(base, []) && AssetRefs([]) == {}
  {}

  /*************** the three sections ***************/

  predicate GoodEntries(qs: seq<Entry<Requirement>>) {
    && (forall j | 0 <= j < |qs| :: qs[j].Object?)
    && (forall j, k | 0 <= j < k < |qs| && qs[j].Object? && qs[k].Object? :: qs[j].value.ref != qs[k].value.ref)
  }

  function ReqRefSet(qs: seq<Entry<Requirement>>): set<string> {
    set j | 0 <= j < |qs| && qs[j].Object? :: RequirementRef(qs[j].value.ref)
  }

  lemma ReqRefSetGrows(qs: seq<Entry<Requirement>>)
    requires qs != [] && GoodEntries(qs)
    ensures ReqRefSet(qs) == ReqRefSet(qs[..|qs|-1]) + {RequirementRef(qs[|qs|-1].value.ref)}
    ensures RequirementRef(qs[|qs|-1].value.ref) !in ReqRefSet(qs[..|qs|-1])
  {
    var init, q := qs[..|qs|-1], qs[|qs|-1].value;
    forall r | r in ReqRefSet(qs) ensures r in ReqRefSet(init) + {RequirementRef(q.ref)} {
      var j :| 0 <= j < |qs| && qs[j].Object? && r == RequirementRef(qs[j].value.ref);
      if j < |qs| - 1 { assert init[j] == qs[j]; }
    }
    forall r | r in ReqRefSet(init) ensures r in ReqRefSet(qs) && r != RequirementRef(q.ref) {
      var j :| 0 <= j < |init| && init[j].Object? && r == RequirementRef(init[j].value.ref);
      assert qs[j] == init[j];
      KindsDiffer(init[j].value.ref, q.ref);
    }
  }

  lemma OneRequirementRunnable(base: set<string>, fw: Framework, q: Requirement)
    requires FrameworkRef(fw.ref) in base && RequirementRef(q.ref) !in base
    ensures RunnableAfter(base, [PutAsset(RequirementWrite(fw, q)), PutEdge(ParentOf(fw, q))])
    ensures AssetRefs([PutAsset(RequirementWrite(fw, q)), PutEdge(ParentOf(fw, q))]) == {RequirementRef(q.ref)}
  {
    var ops := [PutAsset(RequirementWrite(fw, q)), PutEdge(ParentOf(fw, q))];
    assert ops[0] in ops && ops[0].asset.ref == RequirementRef(q.ref);
    assert WrittenBefore(ops, 1, RequirementRef(q.ref));
  }

  lemma {:induction false} RequirementOpsRunnable(base: set<string>, fw: Framework, qs: seq<Entry<Requirement>>)
    requires GoodEntries(qs) && FrameworkRef(fw.ref) in base && ReqRefSet(qs) !! base
    ensures RunnableAfter(base, RequirementOps(fw, qs)) && AssetRefs(RequirementOps(fw, qs)) == ReqRefSet(qs)
  {
    if qs == [] {
      EmptyRunnable(base);
    } else {
      var n := |qs| - 1;
      ReqRefSetGrows(qs);
      RequirementOpsRunnable(base, fw, qs[..n]);
      OneRequirementRunnable(base + ReqRefSet(qs[..n]), fw, qs[n].value);
      RunnableAppend(base, RequirementOps(fw, qs[..n]), [PutAsset(RequirementWrite(fw, qs[n].value)), PutEdge(ParentOf(fw, qs[n].value))]);
    }
  }

  // What the first n frameworks write.
  ghost predicate FrameworkSectionRef(c: Catalog, n: nat, r: string) {
    || (exists i :: 0 <= i < n && i < |Frameworks(c)| && Frameworks(c)[i].Object? &&
                    r == FrameworkRef(Frameworks(c)[i].value.ref))
    || (exists i, j :: 0 <= i < n && HasReq(c, i, j) && r == RequirementRef(ReqRef(c, i, j)))
  }

  lemma KindsDiffer(a: string, b: string)
    ensures FrameworkRef(a) != RequirementRef(b)
    ensures FrameworkRef(a) != ControlRef(b)
    ensures RequirementRef(a) != ControlRef(b)
    ensures FrameworkRef(a) == FrameworkRef(b) ==> a == b
    ensures RequirementRef(a) == RequirementRef(b) ==> a == b
    ensures ControlRef(a) == ControlRef(b) ==> a == b
  {
    assert FrameworkRef(a)[0] == 'f' && RequirementRef(a)[0] == RequirementRef(b)[0] == 'r' && ControlRef(b)[0] == 'c';
    assert FrameworkRef(a)[|"framework:"|..] == a && FrameworkRef(b)[|"framework:"|..] == b;
    assert RequirementRef(a)[|"requirement:"|..] == a && RequirementRef(b)[|"requirement:"|..] == b;
    assert ControlRef(a)[|"control:"|..] == a && ControlRef(b)[|"control:"|..] == b;
  }

  lemma OneFrameworkRunnable(c: Catalog, n: nat, base: set<string>)
    requires WellFormed(c) && n < |Frameworks(c)|
    requires forall r :: r in base <==> FrameworkSectionRef(c, n, r)
    ensures Frameworks(c)[n].Object?
    ensures RunnableAfter(base, OneFrameworkOps(Frameworks(c)[n].value))
    ensures forall r :: r in base + AssetRefs(OneFrameworkOps(Frameworks(c)[n].value)) <==> FrameworkSectionRef(c, n + 1, r)
  {
    assert FrameworkOk(Frameworks(c)[n]);
    var fw := Frameworks(c)[n].value;
    var qs := Items(fw.requirements);
    var head := [PutAsset(FrameworkWrite(fw))];
    assert AssetRefs(head) == {FrameworkRef(fw.ref)} by { assert head[0].PutAsset?; assert head[0] in head; }
    FrameworkNotYet(c, n, base);
    assert RunnableAfter(base, head);
    var base' := base + AssetRefs(head);
    assert GoodEntries(qs) by { RequirementsBelowDistinct(c, n); }
    forall r | r in ReqRefSet(qs) ensures r !in base' { RequirementNotYet(c, n, r, base'); }
    RequirementOpsRunnable(base', fw, qs);
    RunnableAppend(base, head, RequirementOps(fw, qs));
    assert AssetRefs(OneFrameworkOps(fw)) == {FrameworkRef(fw.ref)} + ReqRefSet(qs);
    forall r
      ensures r in base + AssetRefs(OneFrameworkOps(fw)) <==> FrameworkSectionRef(c, n + 1, r)
    {
      SectionGrows(c, n, r);
    }
  }

  lemma FrameworkNotYet(c: Catalog, n: nat, base: set<string>)
    requires WellFormed(c) && n < |Frameworks(c)| && Frameworks(c)[n].Object?
    requires forall r :: r in base <==> FrameworkSectionRef(c, n, r)
    ensures FrameworkRef(Frameworks(c)[n].value.ref) !in base
  {
    var r := FrameworkRef(Frameworks(c)[n].value.ref);
    if r in base {
      if i :| 0 <= i < n && i < |Frameworks(c)| && Frameworks(c)[i].Object? && r == FrameworkRef(Frameworks(c)[i].value.ref) {
        KindsDiffer(Frameworks(c)[n].value.ref, Frameworks(c)[i].value.ref);
      } else {
        var i, j :| 0 <= i < n && HasReq(c, i, j) && r == RequirementRef(ReqRef(c, i, j));
        KindsDiffer(Frameworks(c)[n].value.ref, ReqRef(c, i, j));
      }
    }
  }

  lemma RequirementsBelowDistinct(c: Catalog, n: nat)
    requires WellFormed(c) && n < |Frameworks(c)|
    ensures GoodEntries(Requirements(Frameworks(c)[n]))
  {
    assert FrameworkOk(Frameworks(c)[n]);
    var qs := Requirements(Frameworks(c)[n]);
    forall j, k | 0 <= j < k < |qs| && qs[j].Object? && qs[k].Object? ensures qs[j].value.ref != qs[k].value.ref {
      assert HasReq(c, n, j) && HasReq(c, n, k);
      assert ReqRef(c, n, j) != ReqRef(c, n, k);
    }
  }

  lemma RequirementNotYet(c: Catalog, n: nat, r: string, base: set<string>)
    requires WellFormed(c) && n < |Frameworks(c)| && Frameworks(c)[n].Object?
    requires r in ReqRefSet(Requirements(Frameworks(c)[n]))
    requires forall s | s in base :: FrameworkSectionRef(c, n, s) || s == FrameworkRef(Frameworks(c)[n].value.ref)
    ensures r !in base
  {
    var qs := Requirements(Frameworks(c)[n]);
    var j :| 0 <= j < |qs| && qs[j].Object? && r == RequirementRef(qs[j].value.ref);
    assert FrameworkOk(Frameworks(c)[n]);
    assert HasReq(c, n, j) && ReqRef(c, n, j) == qs[j].value.ref;
    if r in base {
      KindsDiffer(Frameworks(c)[n].value.ref, qs[j].value.ref);
      if i :| 0 <= i < n && i < |Frameworks(c)| && Frameworks(c)[i].Object? && r == FrameworkRef(Frameworks(c)[i].value.ref) {
        KindsDiffer(Frameworks(c)[i].value.ref, qs[j].value.ref);
      } else {
        var i, k :| 0 <= i < n && HasReq(c, i, k) && r == RequirementRef(ReqRef(c, i, k));
        KindsDiffer(qs[j].value.ref, ReqRef(c, i, k));
      }
    }
  }

  lemma SectionGrows(c: Catalog, n: nat, r: string)
    requires WellFormed(c) && n < |Frameworks(c)| && Frameworks(c)[n].Object?
    ensures FrameworkSectionRef(c, n + 1, r) <==>
              FrameworkSectionRef(c, n, r) || r == FrameworkRef(Frameworks(c)[n].value.ref) ||
              r in ReqRefSet(Requirements(Frameworks(c)[n]))
  {
    var qs := Requirements(Frameworks(c)[n]);
    if r in ReqRefSet(qs) {
      var j :| 0 <= j < |qs| && qs[j].Object? && r == RequirementRef(qs[j].value.ref);
      assert FrameworkOk(Frameworks(c)[n]);
      assert HasReq(c, n, j) && r == RequirementRef(ReqRef(c, n, j));
    }
    if i: nat, j: nat :| 0 <= i < n + 1 && HasReq(c, i, j) && r == RequirementRef(ReqRef(c, i, j)) {
      if i == n { assert r == RequirementRef(qs[j].value.ref); }
    }
  }

  lemma {:induction false} FrameworkOpsRunnable(c: Catalog, n: nat)
    requires WellFormed(c) && n <= |Frameworks(c)|
    ensures RunnableAfter({}, FrameworkOps(Frameworks(c)[..n]))
    ensures forall r :: r in AssetRefs(FrameworkOps(Frameworks(c)[..n])) <==> FrameworkSectionRef(c, n, r)
  {
    hide WellFormed, RunnableAfter, OneFrameworkOps, HasReq;
    if n == 0 {
      EmptyRunnable({});
    } else {
      FrameworkOpsRunnable(c, n - 1);
      var init := FrameworkOps(Frameworks(c)[..n-1]);
      OneFrameworkRunnable(c, n - 1, AssetRefs(init));
      assert Frameworks(c)[..n][..n-1] == Frameworks(c)[..n-1];
      assert {} + AssetRefs(init) == AssetRefs(init);
      RunnableAppend({}, init, OneFrameworkOps(Frameworks(c)[n-1].value));
    }
  }

  lemma {:induction false} SatisfiesOpsRunnable(base: set<string>, t: Control, reqs: seq<string>)
    requires ControlRef(t.ref) in base && forall r | r in reqs :: RequirementRef(r) in base
    ensures RunnableAfter(base, SatisfiesOps(t, reqs)) && AssetRefs(SatisfiesOps(t, reqs)) == {}
  {
    if reqs == [] {
      EmptyRunnable(base);
    } else {
      var n := |reqs| - 1;
      SatisfiesOpsRunnable(base, t, reqs[..n]);
      var last := [PutEdge(Satisfies(t, reqs[n]))];
      assert base + {} == base && AssetRefs(last) == {};
      RunnableAppend(base, SatisfiesOps(t, reqs[..n]), last);
    }
  }

  function ControlRefSet(ts: seq<Entry<Control>>): set<string> {
    set j | 0 <= j < |ts| && ts[j].Object? :: ControlRef(ts[j].value.ref)
  }

  lemma OneControlRunnable(c: Catalog, n: nat, base: set<string>, earlier: set<string>)
    requires WellFormed(c) && n < |Controls(c)|
    requires forall r :: r in base <==> FrameworkSectionRef(c, |Frameworks(c)|, r)
    requires earlier == ControlRefSet(Controls(c)[..n])
    ensures Controls(c)[n].Object?
    ensures RunnableAfter(base + earlier, OneControlOps(Controls(c)[n].value))
    ensures AssetRefs(OneControlOps(Controls(c)[n].value)) == {ControlRef(Controls(c)[n].value.ref)}
  {
    assert ControlOk(c, Controls(c)[n]);
    var t := Controls(c)[n].value;
    var head := [PutAsset(ControlWrite(t))];
    assert AssetRefs(head) == {ControlRef(t.ref)} by { assert head[0].PutAsset?; assert head[0] in head; }
    ControlNotYet(c, n, base);
    assert RunnableAfter(base + earlier, head);
    forall r | r in t.satisfies ensures RequirementRef(r) in base {
      assert KnownRequirement(c, r);
      var i, j :| HasReq(c, i, j) && ReqRef(c, i, j) == r;
      assert FrameworkSectionRef(c, |Frameworks(c)|, RequirementRef(r));
    }
    SatisfiesOpsRunnable(base + earlier + AssetRefs(head), t, t.satisfies);
    RunnableAppend(base + earlier, head, SatisfiesOps(t, t.satisfies));
  }

  lemma ControlRefSetGrows(ts: seq<Entry<Control>>)
    requires ts != [] && ts[|ts|-1].Object?
    ensures ControlRefSet(ts) == ControlRefSet(ts[..|ts|-1]) + {ControlRef(ts[|ts|-1].value.ref)}
  {
    var init := ts[..|ts|-1];
    forall r | r in ControlRefSet(ts) ensures r in ControlRefSet(init) + {ControlRef(ts[|ts|-1].value.ref)} {
      var j :| 0 <= j < |ts| && ts[j].Object? && r == ControlRef(ts[j].value.ref);
      if j < |ts| - 1 { assert init[j] == ts[j]; }
    }
    forall r | r in ControlRefSet(init) ensures r in ControlRefSet(ts) {
      var j :| 0 <= j < |init| && init[j].Object? && r == ControlRef(init[j].value.ref);
      assert ts[j] == init[j];
    }
  }

  lemma {:induction false} ControlOpsRunnable(c: Catalog, n: nat, base: set<string>)
    requires WellFormed(c) && n <= |Controls(c)|
    requires forall r :: r in base <==> FrameworkSectionRef(c, |Frameworks(c)|, r)
    ensures RunnableAfter(base, ControlOps(Controls(c)[..n]))
    ensures AssetRefs(ControlOps(Controls(c)[..n])) == ControlRefSet(Controls(c)[..n])
  {
    if n == 0 {
      EmptyRunnable(base);
    } else {
      var ts := Controls(c)[..n];
      ControlOpsRunnable(c, n - 1, base);
      assert ts[..n-1] == Controls(c)[..n-1];
      OneControlRunnable(c, n - 1, base, ControlRefSet(ts[..n-1]));
      RunnableAppend(base, ControlOps(ts[..n-1]), OneControlOps(Controls(c)[n-1].value));
      ControlRefSetGrows(ts);
    }
  }

  lemma ControlNotYet(c: Catalog, n: nat, base: set<string>)
    requires WellFormed(c) && n < |Controls(c)| && Controls(c)[n].Object?
    requires forall r | r in base :: FrameworkSectionRef(c, |Frameworks(c)|, r)
    ensures ControlRef(Controls(c)[n].value.ref) !in base
    ensures ControlRef(Controls(c)[n].value.ref) !in ControlRefSet(Controls(c)[..n])
  {
    var t := Controls(c)[n].value;
    var r := ControlRef(t.ref);
    if r in base {
      if i :| 0 <= i < |Frameworks(c)| && Frameworks(c)[i].Object? && r == FrameworkRef(Frameworks(c)[i].value.ref) {
        KindsDiffer(Frameworks(c)[i].value.ref, t.ref);
      } else {
        var i, j :| 0 <= i < |Frameworks(c)| && HasReq(c, i, j) && r == RequirementRef(ReqRef(c, i, j));
        KindsDiffer(ReqRef(c, i, j), t.ref);
      }
    }
    if r in ControlRefSet(Controls(c)[..n]) {
      var j :| 0 <= j < n && Controls(c)[..n][j].Object? && r == ControlRef(Controls(c)[..n][j].value.ref);
      KindsDiffer(Controls(c)[j].value.ref, t.ref);
    }
  }

  lemma OneCrosswalkRunnable(c: Catalog, n: nat, base: set<string>)
    requires WellFormed(c) && n < |Crosswalks(c)|
    requires forall r :: FrameworkSectionRef(c, |Frameworks(c)|, r) ==> r in base
    ensures Crosswalks(c)[n].Object?
    ensures RunnableAfter(base, [PutEdge(CrossMaps(Crosswalks(c)[n].value))])
    ensures AssetRefs([PutEdge(CrossMaps(Crosswalks(c)[n].value))]) == {}
  {
    assert CrosswalkOk(c, Crosswalks(c)[n]);
    var x := Crosswalks(c)[n].value;
    forall r | r == x.src || r == x.dst ensures RequirementRef(r) in base {
      var i, j :| HasReq(c, i, j) && ReqRef(c, i, j) == r;
      assert FrameworkSectionRef(c, |Frameworks(c)|, RequirementRef(r));
    }
  }

  lemma {:induction false} CrosswalkOpsRunnable(c: Catalog, n: nat, base: set<string>)
    requires WellFormed(c) && n <= |Crosswalks(c)|
    requires forall r :: FrameworkSectionRef(c, |Frameworks(c)|, r) ==> r in base
    ensures RunnableAfter(base, CrosswalkOps(Crosswalks(c)[..n]))
    ensures AssetRefs(CrosswalkOps(Crosswalks(c)[..n])) == {}
  {
    hide RunnableAfter;
    if n == 0 {
      EmptyRunnable(base);
    } else {
      CrosswalkOpsRunnable(c, n - 1, base);
      assert Crosswalks(c)[..n][..n-1] == Crosswalks(c)[..n-1];
      OneCrosswalkRunnable(c, n - 1, base);
      var x := Crosswalks(c)[n-1].value;
      var last := [PutEdge(CrossMaps(x))];
      assert base + {} == base;
      RunnableAppend(base, CrosswalkOps(Crosswalks(c)[..n-1]), last);
    }
  }

  lemma RunnableFromNothing(ops: seq<Op>)
    requires RunnableAfter({}, ops)
    ensures Runnable(ops)
  {}

  /** Every well-formed catalog has a runnable plan. */
  lemma WellFormedIsRunnable(c: Catalog)
    requires WellFormed(c)
    ensures Runnable(Ops(c))
  {
    hide WellFormed, RunnableAfter, Runnable, FrameworkOps, ControlOps, CrosswalkOps, AssetRefs, FrameworkSectionRef;
    var f, t, x := FrameworkOps(Frameworks(c)), ControlOps(Controls(c)), CrosswalkOps(Crosswalks(c));
    assert Frameworks(c)[..|Frameworks(c)|] == Frameworks(c);
    assert Controls(c)[..|Controls(c)|] == Controls(c);
    assert Crosswalks(c)[..|Crosswalks(c)|] == Crosswalks(c);
    FrameworkOpsRunnable(c, |Frameworks(c)|);
    ControlOpsRunnable(c, |Controls(c)|, AssetRefs(f));
    assert {} + AssetRefs(f) == AssetRefs(f);
    RunnableAppend({}, f, t);
    CrosswalkOpsRunnable(c, |Crosswalks(c)|, AssetRefs(f + t));
    assert {} + AssetRefs(f + t) == AssetRefs(f + t);
    RunnableAppend({}, f + t, x);
    RunnableFromNothing(f + t + x);
  }
}
