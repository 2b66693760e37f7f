/** A controls catalog as the synchroniser receives it, before any validation.

    A text field that is missing, null or empty is the empty string here, since every check
    treats the three alike.  `relationship` is the exception: the code tells an absent one from
    an empty one. */
module CatalogDocument {
  import opened Options
  import opened Graph

  datatype Entry<+T> = NotObject | Object(value: T)
  datatype Listing<+T> = NotList | List(items: seq<Entry<T>>)

  datatype Requirement = Requirement(ref: string, name: string, description: string,
                                     referenceId: string, category: string, metadata: Meta)
  datatype Framework = Framework(ref: string, name: string, description: string, metadata: Meta,
                                 requirements: Listing<Requirement>)
  datatype Control = Control(ref: string, name: string, description: string, metadata: Meta,
                             satisfies: seq<string>)
  datatype Crosswalk = Crosswalk(src: string, dst: string, relationship: Option<string>,
                                 confidence: string, note: string)
  datatype Catalog = NotCatalog
                   | Catalog(frameworks: Listing<Framework>, controls: Listing<Control>,
                             crosswalks: Listing<Crosswalk>)

  const RELATIONSHIPS := {"equivalent", "superset", "subset", "partial", "related"}

  // `x if isinstance(x, list) else []`
  function Items<T>(l: Listing<T>): seq<Entry<T>> {
    if l.List? then l.items else []
  }

  function Frameworks(c: Catalog): seq<Entry<Framework>> {
    if c.Catalog? then Items(c.frameworks) else []
  }

  function Controls(c: Catalog): seq<Entry<Control>> {
    if c.Catalog? then Items(c.controls) else []
  }

  function Crosswalks(c: Catalog): seq<Entry<Crosswalk>> {
    if c.Catalog? then Items(c.crosswalks) else []
  }

  // The requirement entries below one framework entry.
  function Requirements(f: Entry<Framework>): seq<Entry<Requirement>> {
    if f.Object? then Items(f.value.requirements) else []
  }

  // Requirement entry (i, j) is an object with a ref.
  predicate HasReq(c: Catalog, i: nat, j: nat) {
    && i < |Frameworks(c)|
    && j < |Requirements(Frameworks(c)[i])|
    && Requirements(Frameworks(c)[i])[j].Object?
    && Requirements(Frameworks(c)[i])[j].value.ref != ""
  }

  function ReqRef(c: Catalog, i: nat, j: nat): string
    requires HasReq(c, i, j)
  {
    Requirements(Frameworks(c)[i])[j].value.ref
  }

  ghost predicate KnownRequirement(c: Catalog, ref: string) {
    exists i, j :: HasReq(c, i, j) && ReqRef(c, i, j) == ref
  }

  /** Well-formedness, stated on the document: what a catalog has to be for the sync to run. */
  ghost predicate WellFormed(c: Catalog) {
    && c.Catalog? && c.frameworks.List? && c.controls.List? && c.crosswalks.List?
    && FrameworksWellFormed(c)
    && RequirementsDistinct(c)
    && ControlsWellFormed(c)
    && CrosswalksWellFormed(c)
  }

  predicate FrameworkOk(f: Entry<Framework>) {
    && f.Object? && f.value.ref != "" && f.value.name != "" && f.value.requirements.List?
    && forall j | 0 <= j < |f.value.requirements.items| ::
         var q := f.value.requirements.items[j]; q.Object? && q.value.ref != "" && q.value.name != ""
  }

  ghost predicate FrameworksWellFormed(c: Catalog) {
    && (forall i | 0 <= i < |Frameworks(c)| :: FrameworkOk(Frameworks(c)[i]))
    && (forall i, k | 0 <= i < k < |Frameworks(c)| && Frameworks(c)[i].Object? && Frameworks(c)[k].Object? ::
          Frameworks(c)[i].value.ref != Frameworks(c)[k].value.ref)
  }

  // Requirement refs are unique over the whole catalog, not just below one framework.
  ghost predicate RequirementsDistinct(c: Catalog) {
    forall i, j, k, l | HasReq(c, i, j) && HasReq(c, k, l) && ReqRef(c, i, j) == ReqRef(c, k, l) ::
      i == k && j == l
  }

  ghost predicate ControlOk(c: Catalog, e: Entry<Control>) {
    && e.Object? && e.value.ref != "" && e.value.name != ""
    && forall t | t in e.value.satisfies :: KnownRequirement(c, t)
  }

  ghost predicate ControlsWellFormed(c: Catalog) {
    && (forall i | 0 <= i < |Controls(c)| :: ControlOk(c, Controls(c)[i]))
    && (forall i, k | 0 <= i < k < |Controls(c)| && Controls(c)[i].Object? && Controls(c)[k].Object? ::
          Controls(c)[i].value.ref != Controls(c)[k].value.ref)
  }

  ghost predicate CrosswalkOk(c: Catalog, e: Entry<Crosswalk>) {
    && e.Object? && e.value.src != "" && e.value.dst != "" && e.value.src != e.value.dst
    && KnownRequirement(c, e.value.src) && KnownRequirement(c, e.value.dst)
    && (e.value.relationship.Some? ==> e.value.relationship.value in RELATIONSHIPS)
  }

  // Two crosswalks over one unordered pair of requirements.
  predicate SamePair(x: Crosswalk, y: Crosswalk) {
    (x.src == y.src && x.dst == y.dst) || (x.src == y.dst && x.dst == y.src)
  }

  ghost predicate CrosswalksWellFormed(c: Catalog) {
    && (forall i | 0 <= i < |Crosswalks(c)| :: CrosswalkOk(c, Crosswalks(c)[i]))
    && (forall i, k | 0 <= i < k < |Crosswalks(c)| && Crosswalks(c)[i].Object? && Crosswalks(c)[k].Object? ::
          !SamePair(Crosswalks(c)[i].value, Crosswalks(c)[k].value))
  }
}
