/** `validate_catalog`: the loops that collect structural errors, against a declarative account
    of what is wrong with a catalog. */
module CatalogValidation {
  import opened Options
  import opened Graph
  import opened CatalogDocument

  // One constructor per message; the indices are the positions the message names.
  datatype Fault =
    | CatalogNotObject
    | FrameworksNotList
    | ControlsNotList
    | CrosswalksNotList
    | FrameworkNotObject(i: nat)
    | FrameworkNoRef(i: nat)
    | FrameworkDuplicate(i: nat)
    | FrameworkNoName(i: nat)
    | RequirementsNotList(i: nat)
    | RequirementNotObject(i: nat, j: nat)
    | RequirementNoRef(i: nat, j: nat)
    | RequirementDuplicate(i: nat, j: nat)
    | RequirementNoName(i: nat, j: nat)
    | ControlNotObject(i: nat)
    | ControlNoRef(i: nat)
    | ControlDuplicate(i: nat)
    | ControlNoName(i: nat)
    | ControlUnknownRequirement(i: nat, k: nat)
    | CrosswalkNotObject(i: nat)
    | CrosswalkIncomplete(i: nat)
    | CrosswalkSelf(i: nat)
    | CrosswalkUnknownSource(i: nat)
    | CrosswalkUnknownTarget(i: nat)
    | CrosswalkBadRelationship(i: nat)
    | CrosswalkDuplicate(i: nat)

  predicate FwObject(c: Catalog, i: nat) { i < |Frameworks(c)| && Frameworks(c)[i].Object? }

  predicate ReqObject(c: Catalog, i: nat, j: nat) {
    FwObject(c, i) && j < |Requirements(Frameworks(c)[i])| && Requirements(Frameworks(c)[i])[j].Object?
  }

  predicate CtrlObject(c: Catalog, i: nat) { i < |Controls(c)| && Controls(c)[i].Object? }

  predicate XwObject(c: Catalog, i: nat) { i < |Crosswalks(c)| && Crosswalks(c)[i].Object? }

  predicate XwComplete(c: Catalog, i: nat) {
    XwObject(c, i) && Crosswalks(c)[i].value.src != "" && Crosswalks(c)[i].value.dst != ""
  }

  // Document order on requirement positions.
  predicate Before(i: nat, j: nat, k: nat, l: nat) { i < k || (i == k && j < l) }

  ghost predicate EarlierFramework(c: Catalog, i: nat, ref: string) {
    exists h: nat :: h < i && FwObject(c, h) && Frameworks(c)[h].value.ref == ref
  }

  ghost predicate EarlierRequirement(c: Catalog, i: nat, j: nat, ref: string) {
    exists k, l :: HasReq(c, k, l) && Before(k, l, i, j) && ReqRef(c, k, l) == ref
  }

  ghost predicate EarlierControl(c: Catalog, i: nat, ref: string) {
    exists h: nat :: h < i && CtrlObject(c, h) && Controls(c)[h].value.ref == ref
  }

  ghost predicate EarlierPair(c: Catalog, i: nat, x: Crosswalk) {
    exists h: nat :: h < i && XwComplete(c, h) && SamePair(Crosswalks(c)[h].value, x)
  }

  /** The document really has this fault. */
  ghost predicate Defect(c: Catalog, f: Fault) {
    match f
    case CatalogNotObject => c.NotCatalog?
    case FrameworksNotList => c.Catalog? && c.frameworks.NotList?
    case ControlsNotList => c.Catalog? && c.controls.NotList?
    case CrosswalksNotList => c.Catalog? && c.crosswalks.NotList?
    case FrameworkNotObject(i) => i < |Frameworks(c)| && Frameworks(c)[i].NotObject?
    case FrameworkNoRef(i) => FwObject(c, i) && Frameworks(c)[i].value.ref == ""
    case FrameworkDuplicate(i) =>
      FwObject(c, i) && Frameworks(c)[i].value.ref != "" && EarlierFramework(c, i, Frameworks(c)[i].value.ref)
    case FrameworkNoName(i) => FwObject(c, i) && Frameworks(c)[i].value.name == ""
    case RequirementsNotList(i) => FwObject(c, i) && Frameworks(c)[i].value.requirements.NotList?
    case RequirementNotObject(i, j) =>
      FwObject(c, i) && j < |Requirements(Frameworks(c)[i])| && Requirements(Frameworks(c)[i])[j].NotObject?
    case RequirementNoRef(i, j) => ReqObject(c, i, j) && Requirements(Frameworks(c)[i])[j].value.ref == ""
    case RequirementDuplicate(i, j) => HasReq(c, i, j) && EarlierRequirement(c, i, j, ReqRef(c, i, j))
    case RequirementNoName(i, j) => ReqObject(c, i, j) && Requirements(Frameworks(c)[i])[j].value.name == ""
    case ControlNotObject(i) => i < |Controls(c)| && Controls(c)[i].NotObject?
    case ControlNoRef(i) => CtrlObject(c, i) && Controls(c)[i].value.ref == ""
    case ControlDuplicate(i) =>
      CtrlObject(c, i) && Controls(c)[i].value.ref != "" && EarlierControl(c, i, Controls(c)[i].value.ref)
    case ControlNoName(i) => CtrlObject(c, i) && Controls(c)[i].value.name == ""
    case ControlUnknownRequirement(i, k) =>
      CtrlObject(c, i) && k < |Controls(c)[i].value.satisfies| &&
      !KnownRequirement(c, Controls(c)[i].value.satisfies[k])
    case CrosswalkNotObject(i) => i < |Crosswalks(c)| && Crosswalks(c)[i].NotObject?
    case CrosswalkIncomplete(i) => XwObject(c, i) && !XwComplete(c, i)
    case CrosswalkSelf(i) => XwComplete(c, i) && Crosswalks(c)[i].value.src == Crosswalks(c)[i].value.dst
    case CrosswalkUnknownSource(i) => XwComplete(c, i) && !KnownRequirement(c, Crosswalks(c)[i].value.src)
    case CrosswalkUnknownTarget(i) => XwComplete(c, i) && !KnownRequirement(c, Crosswalks(c)[i].value.dst)
    case CrosswalkBadRelationship(i) =>
      XwComplete(c, i) && Crosswalks(c)[i].value.relationship.Some? &&
      Crosswalks(c)[i].value.relationship.value !in RELATIONSHIPS
    case CrosswalkDuplicate(i) => XwComplete(c, i) && EarlierPair(c, i, Crosswalks(c)[i].value)
  }

  /** A catalog has no defect exactly when it is well formed. */
  lemma NoDefectIffWellFormed(c: Catalog)
    ensures (forall f :: !Defect(c, f)) <==> WellFormed(c)
  {
    if WellFormed(c) {
      forall f ensures !Defect(c, f) { WellFormedHasNoDefect(c, f); }
    }
    if forall f :: !Defect(c, f) {
      NoDefectFrameworks(c);
      NoDefectControls(c);
      NoDefectCrosswalks(c);
    }
  }

  lemma WellFormedHasNoDefect(c: Catalog, f: Fault)
    requires WellFormed(c)
    ensures !Defect(c, f)
  {
    if f.ControlUnknownRequirement? || f.ControlNotObject? || f.ControlNoRef? || f.ControlNoName? {
      if f.i < |Controls(c)| { assert ControlOk(c, Controls(c)[f.i]); }
    } else if f.CrosswalkNotObject? || f.CrosswalkIncomplete? || f.CrosswalkSelf? || f.CrosswalkUnknownSource?
              || f.CrosswalkUnknownTarget? || f.CrosswalkBadRelationship? {
      if f.i < |Crosswalks(c)| { assert CrosswalkOk(c, Crosswalks(c)[f.i]); }
    } else if f.ControlDuplicate? || f.FrameworkDuplicate? || f.RequirementDuplicate? || f.CrosswalkDuplicate? {
      WellFormedHasNoDuplicate(c, f);
    } else if !f.CatalogNotObject? && !f.FrameworksNotList? && !f.ControlsNotList? && !f.CrosswalksNotList? {
      if f.i < |Frameworks(c)| { assert FrameworkOk(Frameworks(c)[f.i]); }
    }
  }

  lemma WellFormedHasNoDuplicate(c: Catalog, f: Fault)
    requires WellFormed(c)
    requires f.ControlDuplicate? || f.FrameworkDuplicate? || f.RequirementDuplicate? || f.CrosswalkDuplicate?
    ensures !Defect(c, f)
  {
  }

  lemma NoDefectFrameworks(c: Catalog)
    requires forall f :: !Defect(c, f)
    ensures c.Catalog? && c.frameworks.List? && FrameworksWellFormed(c) && RequirementsDistinct(c)
  {
    assert !Defect(c, CatalogNotObject) && !Defect(c, FrameworksNotList);
    forall i | 0 <= i < |Frameworks(c)| ensures FrameworkOk(Frameworks(c)[i]) {
      assert !Defect(c, FrameworkNotObject(i)) && !Defect(c, FrameworkNoRef(i));
      assert !Defect(c, FrameworkNoName(i)) && !Defect(c, RequirementsNotList(i));
      forall j | 0 <= j < |Frameworks(c)[i].value.requirements.items|
        ensures var q := Frameworks(c)[i].value.requirements.items[j]; q.Object? && q.value.ref != "" && q.value.name != ""
      {
        assert !Defect(c, RequirementNotObject(i, j)) && !Defect(c, RequirementNoRef(i, j));
        assert !Defect(c, RequirementNoName(i, j));
      }
    }
    forall i, k | 0 <= i < k < |Frameworks(c)| && Frameworks(c)[i].Object? && Frameworks(c)[k].Object?
      ensures Frameworks(c)[i].value.ref != Frameworks(c)[k].value.ref
    {
      assert !Defect(c, FrameworkDuplicate(k)) && FwObject(c, i);
    }
    forall i, j, k, l | HasReq(c, i, j) && HasReq(c, k, l) && ReqRef(c, i, j) == ReqRef(c, k, l)
      ensures i == k && j == l
    {
      assert !Defect(c, RequirementDuplicate(i, j)) && !Defect(c, RequirementDuplicate(k, l));
      assert !Before(i, j, k, l) && !Before(k, l, i, j);
    }
  }

  lemma NoDefectControls(c: Catalog)
    requires forall f :: !Defect(c, f)
    ensures c.Catalog? && c.controls.List? && ControlsWellFormed(c)
  {
    assert !Defect(c, CatalogNotObject) && !Defect(c, ControlsNotList);
    forall i | 0 <= i < |Controls(c)| ensures ControlOk(c, Controls(c)[i]) {
      assert !Defect(c, ControlNotObject(i)) && !Defect(c, ControlNoRef(i)) && !Defect(c, ControlNoName(i));
      forall t | t in Controls(c)[i].value.satisfies ensures KnownRequirement(c, t) {
        var k :| 0 <= k < |Controls(c)[i].value.satisfies| && Controls(c)[i].value.satisfies[k] == t;
        assert !Defect(c, ControlUnknownRequirement(i, k));
      }
    }
    forall i, k | 0 <= i < k < |Controls(c)| && Controls(c)[i].Object? && Controls(c)[k].Object?
      ensures Controls(c)[i].value.ref != Controls(c)[k].value.ref
    {
      assert !Defect(c, ControlDuplicate(k)) && CtrlObject(c, i);
    }
  }

  lemma NoDefectCrosswalks(c: Catalog)
    requires forall f :: !Defect(c, f)
    ensures c.Catalog? && c.crosswalks.List? && CrosswalksWellFormed(c)
  {
    assert !Defect(c, CatalogNotObject) && !Defect(c, CrosswalksNotList);
    forall i | 0 <= i < |Crosswalks(c)| ensures CrosswalkOk(c, Crosswalks(c)[i]) && XwComplete(c, i) {
      NoDefectCrosswalk(c, i);
    }
    forall i, k | 0 <= i < k < |Crosswalks(c)|
      ensures !SamePair(Crosswalks(c)[i].value, Crosswalks(c)[k].value)
    {
      assert XwComplete(c, i) && XwComplete(c, k);
      assert !Defect(c, CrosswalkDuplicate(k));
      if SamePair(Crosswalks(c)[i].value, Crosswalks(c)[k].value) {
        assert EarlierPair(c, k, Crosswalks(c)[k].value);
      }
    }
  }

  lemma NoDefectCrosswalk(c: Catalog, i: nat)
    requires forall f :: !Defect(c, f)
    requires i < |Crosswalks(c)|
    ensures CrosswalkOk(c, Crosswalks(c)[i]) && XwComplete(c, i)
  {
    hide KnownRequirement, EarlierFramework, EarlierRequirement, EarlierControl, EarlierPair;
    assert !Defect(c, CrosswalkNotObject(i)) && !Defect(c, CrosswalkIncomplete(i)) && !Defect(c, CrosswalkSelf(i));
    assert !Defect(c, CrosswalkUnknownSource(i)) && !Defect(c, CrosswalkUnknownTarget(i));
    assert !Defect(c, CrosswalkBadRelationship(i));
  }

  /*************** the loops ***************/

  predicate RequirementFault(f: Fault) {
    f.RequirementNotObject? || f.RequirementNoRef? || f.RequirementDuplicate? || f.RequirementNoName?
  }

  predicate FrameworkFault(f: Fault) {
    f.FrameworkNotObject? || f.FrameworkNoRef? || f.FrameworkDuplicate? || f.FrameworkNoName? ||
    f.RequirementsNotList? || RequirementFault(f)
  }

  predicate ControlFault(f: Fault) {
    f.ControlNotObject? || f.ControlNoRef? || f.ControlDuplicate? || f.ControlNoName? ||
    f.ControlUnknownRequirement?
  }

  predicate CrosswalkFault(f: Fault) {
    f.CrosswalkNotObject? || f.CrosswalkIncomplete? || f.CrosswalkSelf? || f.CrosswalkUnknownSource? ||
    f.CrosswalkUnknownTarget? || f.CrosswalkBadRelationship? || f.CrosswalkDuplicate?
  }

  /*************** the order of the messages ***************/

  function Section(f: Fault): nat {
    if f.CatalogNotObject? then 0
    else if f.FrameworksNotList? then 1
    else if f.ControlsNotList? then 2
    else if FrameworkFault(f) then 3
    else if ControlFault(f) then 4
    else if f.CrosswalksNotList? then 5 else 6
  }

  // The position of the entry, of the check on it, and of what the check looks at.
  function Entry(f: Fault): nat { if Section(f) in {0, 1, 2, 5} then 0 else f.i }

  function Slot(f: Fault): nat {
    match f
    case FrameworkNotObject(_) => 0 case FrameworkNoRef(_) => 0 case FrameworkDuplicate(_) => 0
    case FrameworkNoName(_) => 1
    case RequirementsNotList(_) => 2
    case ControlNotObject(_) => 0 case ControlNoRef(_) => 0 case ControlDuplicate(_) => 0
    case ControlNoName(_) => 1
    case CrosswalkNotObject(_) => 0 case CrosswalkIncomplete(_) => 0 case CrosswalkSelf(_) => 0
    case CrosswalkUnknownSource(_) => 1
    case CrosswalkUnknownTarget(_) => 2
    case CrosswalkBadRelationship(_) => 3
    case CrosswalkDuplicate(_) => 4
    case _ => 5
  }

  function Inner(f: Fault): nat {
    match f
    case RequirementNotObject(_, j) => j case RequirementNoRef(_, j) => j
    case RequirementDuplicate(_, j) => j case RequirementNoName(_, j) => j
    case ControlUnknownRequirement(_, k) => k
    case _ => 0
  }

  function Part(f: Fault): nat { if f.RequirementNoName? then 1 else 0 }

  // The document is read from top to bottom: `f` is met before `g`.
  predicate Earlier(f: Fault, g: Fault) {
    if Section(f) != Section(g) then Section(f) < Section(g)
    else if Entry(f) != Entry(g) then Entry(f) < Entry(g)
    else if Slot(f) != Slot(g) then Slot(f) < Slot(g)
    else if Inner(f) != Inner(g) then Inner(f) < Inner(g)
    else Part(f) < Part(g)
  }

  predicate InOrder(errors: seq<Fault>) { forall p, q | 0 <= p < q < |errors| :: Earlier(errors[p], errors[q]) }

  predicate Once(errors: seq<Fault>) { forall p, q | 0 <= p < q < |errors| :: errors[p] != errors[q] }

  lemma InOrderThen(a: seq<Fault>, b: seq<Fault>)
    requires InOrder(a) && InOrder(b) && forall f, g | f in a && g in b :: Earlier(f, g)
    ensures InOrder(a + b)
  {}

  /** A list of faults in order has no fault twice, and two such lists of the same faults are equal. */
  lemma {:induction false} OrderSettlesTheList(a: seq<Fault>, b: seq<Fault>)
    requires InOrder(a) && InOrder(b) && forall f :: f in a <==> f in b
    ensures a == b && Once(a)
  {
    hide Earlier;
    Irreflexive();
    if a == [] {
      if b != [] { FirstIsMember(b); }
    } else {
      assert a[0] in b && b != [] && b[0] in a;
      FirstIsFirst(a, b);
      forall f ensures f in a[1..] <==> f in b[1..] { RestOf(a, f); RestOf(b, f); }
      OrderSettlesTheList(a[1..], b[1..]);
      assert a == [a[0]] + a[1..] && b == [b[0]] + b[1..];
    }
  }

  lemma FirstIsFirst(a: seq<Fault>, b: seq<Fault>)
    requires InOrder(a) && InOrder(b) && a != [] && b != [] && a[0] in b && b[0] in a
    ensures a[0] == b[0]
  {
    hide Earlier;
    var i :| 0 <= i < |a| && a[i] == b[0];
    var j :| 0 <= j < |b| && b[j] == a[0];
    Antisymmetric(a[0], b[0]);
  }

  lemma FirstIsMember(b: seq<Fault>)
    requires b != []
    ensures exists f :: f in b
  {
    assert b[0] in b;
  }

  lemma Irreflexive()
    ensures forall f :: !Earlier(f, f)
  {}

  lemma Antisymmetric(f: Fault, g: Fault)
    ensures !(Earlier(f, g) && Earlier(g, f))
  {}

  lemma RestOf(a: seq<Fault>, f: Fault)
    requires InOrder(a) && a != []
    ensures f in a[1..] <==> f in a && f != a[0]
  {
    hide Earlier;
    Irreflexive();
    assert a == [a[0]] + a[1..];
    if f in a[1..] { var k :| 0 <= k < |a| - 1 && a[1..][k] == f; assert a[k + 1] == f; }
  }

  lemma OneInOrder(f: Fault)
    ensures InOrder([]) && InOrder([f])
  {}

  // The next entry, or the next requirement or satisfied ref of one entry, comes after all before.
  lemma EntriesInOrder(errors: seq<Fault>, found: seq<Fault>, section: nat, i: nat)
    requires InOrder(errors) && InOrder(found) && section in {3, 4, 6}
    requires forall f | f in errors :: Section(f) == section && f.i < i
    requires forall f | f in found :: Section(f) == section && f.i == i
    ensures InOrder(errors + found)
  {
    InOrderThen(errors, found);
  }

  lemma RequirementsInOrder(errors: seq<Fault>, found: seq<Fault>, i: nat, j: nat)
    requires InOrder(errors) && InOrder(found)
    requires forall f | f in errors :: RequirementFault(f) && f.i == i && f.j < j
    requires forall f | f in found :: RequirementFault(f) && f.i == i && f.j == j
    ensures InOrder(errors + found)
  {
    InOrderThen(errors, found);
  }

  lemma SatisfiesInOrder(errors: seq<Fault>, i: nat, k: nat)
    requires InOrder(errors) && forall f | f in errors :: f.ControlUnknownRequirement? && f.i == i && f.k < k
    ensures InOrder(errors + [ControlUnknownRequirement(i, k)])
  {
    InOrderThen(errors, [ControlUnknownRequirement(i, k)]);
  }

  // The checks on one entry, in their order.
  lemma RequirementNameInOrder(found: seq<Fault>, i: nat, j: nat)
    requires found == [] || found == [RequirementNoRef(i, j)] || found == [RequirementDuplicate(i, j)]
    ensures InOrder(found) && InOrder(found + [RequirementNoName(i, j)])
  {}

  lemma FrameworkNameInOrder(found: seq<Fault>, i: nat)
    requires found == [] || found == [FrameworkNoRef(i)] || found == [FrameworkDuplicate(i)]
    ensures InOrder(found) && InOrder(found + [FrameworkNoName(i)])
  {}

  lemma FrameworkListInOrder(found: seq<Fault>, i: nat)
    requires InOrder(found) && forall f | f in found :: f in {FrameworkNoRef(i), FrameworkDuplicate(i), FrameworkNoName(i)}
    ensures InOrder(found + [RequirementsNotList(i)])
  {
    InOrderThen(found, [RequirementsNotList(i)]);
  }

  lemma FrameworkInOrder(head: seq<Fault>, more: seq<Fault>, i: nat)
    requires InOrder(head) && InOrder(more)
    requires forall f | f in head :: FrameworkFault(f) && !RequirementFault(f) && f.i == i
    requires forall f | f in more :: RequirementFault(f) && f.i == i
    ensures InOrder(head + more)
  {
    InOrderThen(head, more);
  }

  lemma ControlNameInOrder(found: seq<Fault>, i: nat)
    requires found == [] || found == [ControlNoRef(i)] || found == [ControlDuplicate(i)]
    ensures InOrder(found) && InOrder(found + [ControlNoName(i)])
  {}

  lemma ControlInOrder(head: seq<Fault>, more: seq<Fault>, i: nat)
    requires InOrder(head) && InOrder(more)
    requires forall f | f in head :: ControlFault(f) && !f.ControlUnknownRequirement? && f.i == i
    requires forall f | f in more :: f.ControlUnknownRequirement? && f.i == i
    ensures InOrder(head + more)
  {
    InOrderThen(head, more);
  }

  lemma StartChecks(i: nat)
    ensures CheckedTo([], i, 0) && InOrder([CrosswalkNotObject(i)]) && InOrder([CrosswalkIncomplete(i)])
    ensures Slot(CrosswalkSelf(i)) == 0 && Slot(CrosswalkUnknownSource(i)) == 1 && Slot(CrosswalkUnknownTarget(i)) == 2
    ensures Slot(CrosswalkBadRelationship(i)) == 3 && Slot(CrosswalkDuplicate(i)) == 4
  {}

  // The first n checks on a crosswalk are done.
  predicate CheckedTo(found: seq<Fault>, i: nat, n: nat) {
    InOrder(found) && forall e | e in found :: CrosswalkFault(e) && e.i == i && Slot(e) < n
  }

  lemma NextCheck(found: seq<Fault>, f: Fault, i: nat)
    requires CheckedTo(found, i, Slot(f)) && CrosswalkFault(f) && f.i == i
    ensures CheckedTo(found, i, Slot(f) + 1) && CheckedTo(found + [f], i, Slot(f) + 1)
    ensures InOrder(found) && InOrder(found + [f])
  {
    InOrderThen(found, [f]);
  }

  // The messages of the first n sections.
  ghost predicate ReportedTo(c: Catalog, errors: seq<Fault>, n: nat) {
    InOrder(errors) && forall f :: f in errors <==> Section(f) < n && Defect(c, f)
  }

  lemma NextSection(c: Catalog, errors: seq<Fault>, found: seq<Fault>, n: nat)
    requires ReportedTo(c, errors, n)
    requires InOrder(found) && forall f :: f in found <==> Section(f) == n && Defect(c, f)
    ensures ReportedTo(c, errors + found, n + 1)
  {
    InOrderThen(errors, found);
  }

  lemma LastSection(c: Catalog, errors: seq<Fault>)
    requires ReportedTo(c, errors, 7)
    ensures InOrder(errors) && Once(errors) && forall f :: f in errors <==> Defect(c, f)
    ensures errors == [] <==> WellFormed(c)
  {
    NoDefectIffWellFormed(c);
    OrderSettlesTheList(errors, errors);
    hide WellFormed, Once, InOrder, Defect;
    assert errors != [] ==> errors[0] in errors;
  }

  // The four messages about the document itself, each a section of its own.
  lemma DocumentSection(c: Catalog, f: Fault)
    requires f == CatalogNotObject || f == FrameworksNotList || f == ControlsNotList || f == CrosswalksNotList
    ensures InOrder([]) && InOrder([f]) && ReportedTo(c, [], 0)
    ensures Section(f) == if f.CatalogNotObject? then 0 else if f.FrameworksNotList? then 1 else if f.ControlsNotList? then 2 else 5
    ensures forall g :: Section(g) == Section(f) <==> g == f
  {}

  lemma SectionOf()
    ensures forall f :: FrameworkFault(f) <==> Section(f) == 3
    ensures forall f :: ControlFault(f) <==> Section(f) == 4
    ensures forall f :: CrosswalkFault(f) <==> Section(f) == 6
  {}

  lemma DocumentDefects(c: Catalog)
    ensures c.NotCatalog? ==> forall f :: Defect(c, f) <==> f == CatalogNotObject
    ensures c.Catalog? ==> !Defect(c, CatalogNotObject)
    ensures c.Catalog? ==> (Defect(c, FrameworksNotList) <==> c.frameworks.NotList?)
    ensures c.Catalog? ==> (Defect(c, ControlsNotList) <==> c.controls.NotList?)
    ensures c.Catalog? ==> (Defect(c, CrosswalksNotList) <==> c.crosswalks.NotList?)
  {}

  lemma NotCatalogReport(c: Catalog)
    requires c.NotCatalog?
    ensures ReportedTo(c, [CatalogNotObject], 7)
  {
    DocumentDefects(c);
  }

  method CheckRequirement(c: Catalog, i: nat, j: nat, known: set<string>) returns (found: seq<Fault>, refs: set<string>)
    requires FwObject(c, i) && j < |Requirements(Frameworks(c)[i])|
    requires forall r :: r in known <==> EarlierRequirement(c, i, j, r)
    ensures forall f :: f in found <==> RequirementFault(f) && f.i == i && f.j == j && Defect(c, f)
    ensures InOrder(found)
    ensures forall r :: r in refs <==> EarlierRequirement(c, i, j + 1, r)
  {
    hide InOrder, Earlier, EarlierRequirement;
    EarlierRequirementStep(c, i, j);
    OneInOrder(RequirementNotObject(i, j));
    found, refs := [], known;
    if Requirements(Frameworks(c)[i])[j].NotObject? {
      found := [RequirementNotObject(i, j)];
      return;
    }
    var req := Requirements(Frameworks(c)[i])[j].value;
    if req.ref == "" {
      found := [RequirementNoRef(i, j)];
    } else if req.ref in refs {
      assert HasReq(c, i, j) && ReqRef(c, i, j) == req.ref;
      found := [RequirementDuplicate(i, j)];
    } else {
      assert HasReq(c, i, j) && ReqRef(c, i, j) == req.ref;
      refs := refs + {req.ref};
    }
    RequirementNameInOrder(found, i, j);
    if req.name == "" {
      found := found + [RequirementNoName(i, j)];
    }
  }

  method CheckRequirements(c: Catalog, i: nat, known: set<string>) returns (errors: seq<Fault>, refs: set<string>)
    requires FwObject(c, i)
    requires forall r :: r in known <==> EarlierRequirement(c, i, 0, r)
    ensures forall f :: f in errors <==> RequirementFault(f) && f.i == i && Defect(c, f)
    ensures InOrder(errors)
    ensures forall r :: r in refs <==> EarlierRequirement(c, i + 1, 0, r)
  {
    hide InOrder, Earlier;
    errors, refs := [], known;
    OneInOrder(RequirementNotObject(i, 0));
    var reqs := Requirements(Frameworks(c)[i]);
    var j := 0;
    while j < |reqs|
      invariant j <= |reqs|
      invariant forall f :: f in errors <==> RequirementFault(f) && f.i == i && f.j < j && Defect(c, f)
      invariant InOrder(errors)
      invariant forall r :: r in refs <==> EarlierRequirement(c, i, j, r)
    {
      var found;
      found, refs := CheckRequirement(c, i, j, refs);
      RequirementsInOrder(errors, found, i, j);
      errors := errors + found;
      j := j + 1;
    }
    forall r ensures EarlierRequirement(c, i + 1, 0, r) <==> EarlierRequirement(c, i, |reqs|, r) {
      if EarlierRequirement(c, i + 1, 0, r) {
        var k, l :| HasReq(c, k, l) && Before(k, l, i + 1, 0) && ReqRef(c, k, l) == r;
        assert Before(k, l, i, |reqs|);
      }
      if EarlierRequirement(c, i, |reqs|, r) {
        var k, l :| HasReq(c, k, l) && Before(k, l, i, |reqs|) && ReqRef(c, k, l) == r;
        assert Before(k, l, i + 1, 0);
      }
    }
  }

  // Passing entry (i, j) adds its ref, if it has one.
  lemma EarlierRequirementStep(c: Catalog, i: nat, j: nat)
    ensures forall r :: EarlierRequirement(c, i, j + 1, r) <==>
              EarlierRequirement(c, i, j, r) || (HasReq(c, i, j) && ReqRef(c, i, j) == r)
  {
    forall r
      ensures EarlierRequirement(c, i, j + 1, r) <==>
              EarlierRequirement(c, i, j, r) || (HasReq(c, i, j) && ReqRef(c, i, j) == r)
    {
      if EarlierRequirement(c, i, j + 1, r) {
        var k, l :| HasReq(c, k, l) && Before(k, l, i, j + 1) && ReqRef(c, k, l) == r;
        assert Before(k, l, i, j) || (k == i && l == j);
      }
      if EarlierRequirement(c, i, j, r) {
        var k, l :| HasReq(c, k, l) && Before(k, l, i, j) && ReqRef(c, k, l) == r;
        assert Before(k, l, i, j + 1);
      }
      if HasReq(c, i, j) && ReqRef(c, i, j) == r {
        assert Before(i, j, i, j + 1);
      }
    }
  }

  // An entry without requirements adds none.
  lemma EarlierRequirementSkip(c: Catalog, i: nat)
    requires i < |Frameworks(c)| && Requirements(Frameworks(c)[i]) == []
    ensures forall r :: EarlierRequirement(c, i + 1, 0, r) <==> EarlierRequirement(c, i, 0, r)
  {
    forall r ensures EarlierRequirement(c, i + 1, 0, r) <==> EarlierRequirement(c, i, 0, r) {
      if EarlierRequirement(c, i + 1, 0, r) {
        var k, l :| HasReq(c, k, l) && Before(k, l, i + 1, 0) && ReqRef(c, k, l) == r;
        assert Before(k, l, i, 0);
      }
      if EarlierRequirement(c, i, 0, r) {
        var k, l :| HasReq(c, k, l) && Before(k, l, i, 0) && ReqRef(c, k, l) == r;
        assert Before(k, l, i + 1, 0);
      }
    }
  }

  // The checks on framework entry i that look at the entry itself.
  method CheckFrameworkHead(c: Catalog, i: nat, known: set<string>) returns (errors: seq<Fault>, refs: set<string>)
    requires i < |Frameworks(c)|
    requires forall r :: r in known <==> r != "" && EarlierFramework(c, i, r)
    ensures forall f :: f in errors <==> FrameworkFault(f) && !RequirementFault(f) && f.i == i && Defect(c, f)
    ensures InOrder(errors)
    ensures forall r :: r in refs <==> r != "" && EarlierFramework(c, i + 1, r)
  {
    hide InOrder, Earlier;
    errors, refs := [], known;
    OneInOrder(FrameworkNotObject(i));
    if Frameworks(c)[i].NotObject? {
      errors := [FrameworkNotObject(i)];
      return;
    }
    var fw := Frameworks(c)[i].value;
    assert FwObject(c, i);
    if fw.ref == "" {
      errors := [FrameworkNoRef(i)];
    } else if fw.ref in refs {
      errors := [FrameworkDuplicate(i)];
    } else {
      refs := refs + {fw.ref};
    }
    FrameworkNameInOrder(errors, i);
    if fw.name == "" {
      errors := errors + [FrameworkNoName(i)];
    }
    FrameworkListInOrder(errors, i);
    if fw.requirements.NotList? {
      errors := errors + [RequirementsNotList(i)];
    }
  }

  method CheckFrameworks(c: Catalog) returns (errors: seq<Fault>, reqRefs: set<string>)
    ensures forall f :: f in errors <==> FrameworkFault(f) && Defect(c, f)
    ensures InOrder(errors)
    ensures forall r :: r in reqRefs <==> KnownRequirement(c, r)
  {
    errors, reqRefs := [], {};
    var fwRefs: set<string> := {};
    var i := 0;
    while i < |Frameworks(c)|
      invariant i <= |Frameworks(c)|
      invariant forall f :: f in errors <==> FrameworkFault(f) && f.i < i && Defect(c, f)
      invariant InOrder(errors)
      invariant forall r :: r in fwRefs <==> r != "" && EarlierFramework(c, i, r)
      invariant forall r :: r in reqRefs <==> EarlierRequirement(c, i, 0, r)
    {
      var head, more := [], [];
      head, fwRefs := CheckFrameworkHead(c, i, fwRefs);
      if Frameworks(c)[i].NotObject? || Frameworks(c)[i].value.requirements.NotList? {
        EarlierRequirementSkip(c, i);
      } else {
        more, reqRefs := CheckRequirements(c, i, reqRefs);
      }
      FrameworkInOrder(head, more, i);
      EntriesInOrder(errors, head + more, 3, i);
      errors := errors + (head + more);
      i := i + 1;
    }
    forall r ensures EarlierRequirement(c, |Frameworks(c)|, 0, r) <==> KnownRequirement(c, r) {
      if KnownRequirement(c, r) {
        var k, l :| HasReq(c, k, l) && ReqRef(c, k, l) == r;
        assert Before(k, l, |Frameworks(c)|, 0);
      }
    }
  }

  // `for tref in ctrl.get("satisfies", []) or []`
  method CheckSatisfies(c: Catalog, i: nat, reqRefs: set<string>) returns (errors: seq<Fault>)
    requires CtrlObject(c, i)
    requires forall r :: r in reqRefs <==> KnownRequirement(c, r)
    ensures forall f :: f in errors <==> f.ControlUnknownRequirement? && f.i == i && Defect(c, f)
    ensures InOrder(errors)
  {
    errors := [];
    var satisfies := Controls(c)[i].value.satisfies;
    var k := 0;
    while k < |satisfies|
      invariant k <= |satisfies|
      invariant forall f :: f in errors <==> f.ControlUnknownRequirement? && f.i == i && f.k < k && Defect(c, f)
      invariant InOrder(errors)
    {
      if satisfies[k] !in reqRefs {
        SatisfiesInOrder(errors, i, k);
        errors := errors + [ControlUnknownRequirement(i, k)];
      }
      k := k + 1;
    }
  }

  method CheckControlHead(c: Catalog, i: nat, known: set<string>) returns (errors: seq<Fault>, refs: set<string>)
    requires i < |Controls(c)|
    requires forall r :: r in known <==> r != "" && EarlierControl(c, i, r)
    ensures forall f :: f in errors <==> ControlFault(f) && !f.ControlUnknownRequirement? && f.i == i && Defect(c, f)
    ensures InOrder(errors)
    ensures forall r :: r in refs <==> r != "" && EarlierControl(c, i + 1, r)
  {
    hide InOrder, Earlier;
    errors, refs := [], known;
    OneInOrder(ControlNotObject(i));
    if Controls(c)[i].NotObject? {
      errors := [ControlNotObject(i)];
      return;
    }
    var ctrl := Controls(c)[i].value;
    assert CtrlObject(c, i);
    if ctrl.ref == "" {
      errors := [ControlNoRef(i)];
    } else if ctrl.ref in refs {
      errors := [ControlDuplicate(i)];
    } else {
      refs := refs + {ctrl.ref};
    }
    ControlNameInOrder(errors, i);
    if ctrl.name == "" {
      errors := errors + [ControlNoName(i)];
    }
  }

  method CheckControls(c: Catalog, reqRefs: set<string>) returns (errors: seq<Fault>)
    requires forall r :: r in reqRefs <==> KnownRequirement(c, r)
    ensures forall f :: f in errors <==> ControlFault(f) && Defect(c, f)
    ensures InOrder(errors)
  {
    errors := [];
    var ctrlRefs: set<string> := {};
    var i := 0;
    while i < |Controls(c)|
      invariant i <= |Controls(c)|
      invariant forall f :: f in errors <==> ControlFault(f) && f.i < i && Defect(c, f)
      invariant InOrder(errors)
      invariant forall r :: r in ctrlRefs <==> r != "" && EarlierControl(c, i, r)
    {
      var head, more := [], [];
      head, ctrlRefs := CheckControlHead(c, i, ctrlRefs);
      if Controls(c)[i].Object? {
        more := CheckSatisfies(c, i, reqRefs);
      }
      ControlInOrder(head, more, i);
      EntriesInOrder(errors, head + more, 4, i);
      errors := errors + (head + more);
      i := i + 1;
    }
  }

  /** Python's `<=` on strings: lexicographic by code point. */
  predicate LexLe(a: string, b: string) {
    a == [] || (b != [] && (a[0] < b[0] || (a[0] == b[0] && LexLe(a[1..], b[1..]))))
  }

  lemma {:induction false} LexLeTotalAntisymmetric(a: string, b: string)
    ensures LexLe(a, b) || LexLe(b, a)
    ensures LexLe(a, b) && LexLe(b, a) ==> a == b
  {
    if a != [] && b != [] {
      LexLeTotalAntisymmetric(a[1..], b[1..]);
      assert a == [a[0]] + a[1..] && b == [b[0]] + b[1..];
    }
  }

  // `(frm, to) if frm <= to else (to, frm)`
  function PairKey(x: Crosswalk): (string, string) {
    if LexLe(x.src, x.dst) then (x.src, x.dst) else (x.dst, x.src)
  }

  /** The ordered pair the code remembers stands for the unordered pair. */
  lemma PairKeyIsUnordered(x: Crosswalk, y: Crosswalk)
    ensures PairKey(x) == PairKey(y) <==> SamePair(x, y)
  {
    LexLeTotalAntisymmetric(x.src, x.dst);
    LexLeTotalAntisymmetric(y.src, y.dst);
  }

  ghost predicate EarlierKey(c: Catalog, i: nat, p: (string, string)) {
    exists h: nat :: h < i && XwComplete(c, h) && PairKey(Crosswalks(c)[h].value) == p
  }

  lemma EarlierKeyIsEarlierPair(c: Catalog, i: nat, x: Crosswalk)
    ensures EarlierKey(c, i, PairKey(x)) <==> EarlierPair(c, i, x)
  {
    if EarlierKey(c, i, PairKey(x)) {
      var h: nat :| h < i && XwComplete(c, h) && PairKey(Crosswalks(c)[h].value) == PairKey(x);
      PairKeyIsUnordered(Crosswalks(c)[h].value, x);
    }
    if EarlierPair(c, i, x) {
      var h: nat :| h < i && XwComplete(c, h) && SamePair(Crosswalks(c)[h].value, x);
      PairKeyIsUnordered(Crosswalks(c)[h].value, x);
    }
  }

  // What a crosswalk's two ends can have wrong.
  method CheckEnds(c: Catalog, i: nat, reqRefs: set<string>) returns (errors: seq<Fault>)
    requires XwComplete(c, i)
    requires forall r :: r in reqRefs <==> KnownRequirement(c, r)
    ensures forall f :: f in errors <==>
      (f.CrosswalkSelf? || f.CrosswalkUnknownSource? || f.CrosswalkUnknownTarget?) && f.i == i && Defect(c, f)
    ensures CheckedTo(errors, i, 3)
  {
    hide KnownRequirement, InOrder, Earlier, CheckedTo, Slot;
    var x := Crosswalks(c)[i].value;
    errors := [];
    StartChecks(i);
    NextCheck(errors, CrosswalkSelf(i), i);
    if x.src == x.dst {
      errors := errors + [CrosswalkSelf(i)];
    }
    NextCheck(errors, CrosswalkUnknownSource(i), i);
    if x.src !in reqRefs {
      errors := errors + [CrosswalkUnknownSource(i)];
    }
    NextCheck(errors, CrosswalkUnknownTarget(i), i);
    if x.dst !in reqRefs {
      errors := errors + [CrosswalkUnknownTarget(i)];
    }
  }

  method CheckCrosswalk(c: Catalog, i: nat, reqRefs: set<string>, seen: set<(string, string)>)
    returns (errors: seq<Fault>, pairs: set<(string, string)>)
    requires i < |Crosswalks(c)|
    requires forall r :: r in reqRefs <==> KnownRequirement(c, r)
    requires forall p :: p in seen <==> EarlierKey(c, i, p)
    ensures forall f :: f in errors <==> CrosswalkFault(f) && f.i == i && Defect(c, f)
    ensures InOrder(errors)
    ensures forall p :: p in pairs <==> EarlierKey(c, i + 1, p)
  {
    hide KnownRequirement, EarlierPair, PairKey, LexLe, EarlierFramework, EarlierRequirement, EarlierControl, InOrder, Earlier, CheckedTo, Slot;
    errors, pairs := [], seen;
    StartChecks(i);
    if Crosswalks(c)[i].NotObject? {
      errors := [CrosswalkNotObject(i)];
      return;
    }
    var x := Crosswalks(c)[i].value;
    if x.src == "" || x.dst == "" {
      errors := [CrosswalkIncomplete(i)];
      return;
    }
    assert XwComplete(c, i);
    errors := CheckEnds(c, i, reqRefs);
    NextCheck(errors, CrosswalkBadRelationship(i), i);
    if x.relationship.Some? && x.relationship.value !in RELATIONSHIPS {
      errors := errors + [CrosswalkBadRelationship(i)];
    }
    EarlierKeyIsEarlierPair(c, i, x);
    NextCheck(errors, CrosswalkDuplicate(i), i);
    if PairKey(x) in pairs {
      errors := errors + [CrosswalkDuplicate(i)];
    } else {
      pairs := pairs + {PairKey(x)};
    }
  }

  method CheckCrosswalks(c: Catalog, reqRefs: set<string>) returns (errors: seq<Fault>)
    requires forall r :: r in reqRefs <==> KnownRequirement(c, r)
    ensures forall f :: f in errors <==> CrosswalkFault(f) && Defect(c, f)
    ensures InOrder(errors)
  {
    errors := [];
    var seenPairs: set<(string, string)> := {};
    var i := 0;
    while i < |Crosswalks(c)|
      invariant i <= |Crosswalks(c)|
      invariant forall f :: f in errors <==> CrosswalkFault(f) && f.i < i && Defect(c, f)
      invariant InOrder(errors)
      invariant forall p :: p in seenPairs <==> EarlierKey(c, i, p)
    {
      var found;
      found, seenPairs := CheckCrosswalk(c, i, reqRefs, seenPairs);
      EntriesInOrder(errors, found, 6, i);
      errors := errors + found;
      i := i + 1;
    }
  }

  /** The reported errors are exactly the defects of the document, each once, in the order in which the
      document is read; and there are none exactly when it is well formed. */
  method ValidateCatalog(c: Catalog) returns (errors: seq<Fault>)
    ensures forall f :: f in errors <==> Defect(c, f)
    ensures InOrder(errors) && Once(errors)
    ensures errors == [] <==> WellFormed(c)
  {
    hide *;
    SectionOf();
    DocumentDefects(c);
    DocumentSection(c, CatalogNotObject);
    if c.NotCatalog? {
      NotCatalogReport(c);
      LastSection(c, [CatalogNotObject]);
      return [CatalogNotObject];
    }
    errors := [];
    assert [] + [] == errors;
    NextSection(c, errors, [], 0);
    DocumentSection(c, FrameworksNotList);
    NextSection(c, errors, if c.frameworks.NotList? then [FrameworksNotList] else [], 1);
    if c.frameworks.NotList? {
      errors := errors + [FrameworksNotList];
    }
    DocumentSection(c, ControlsNotList);
    NextSection(c, errors, if c.controls.NotList? then [ControlsNotList] else [], 2);
    if c.controls.NotList? {
      errors := errors + [ControlsNotList];
    }
    var fw, reqRefs := CheckFrameworks(c);
    NextSection(c, errors, fw, 3);
    errors := errors + fw;
    var ct := CheckControls(c, reqRefs);
    NextSection(c, errors, ct, 4);
    errors := errors + ct;
    DocumentSection(c, CrosswalksNotList);
    NextSection(c, errors, if c.crosswalks.NotList? then [CrosswalksNotList] else [], 5);
    if c.crosswalks.NotList? {
      errors := errors + [CrosswalksNotList];
    }
    var xw := CheckCrosswalks(c, reqRefs);
    NextSection(c, errors, xw, 6);
    errors := errors + xw;
    LastSection(c, errors);
  }
}
