/** What a well-formed catalog asks the database to write: the upserts of `sync_catalog`, in the
    order its loops issue them. */
module CatalogPlan {
  import opened Options
  import opened Graph
  import opened CatalogDocument

  datatype Op = PutAsset(asset: AssetWrite) | PutEdge(edge: EdgeWrite)

  function FrameworkRef(ref: string): string { "framework:" + ref }
  function RequirementRef(ref: string): string { "requirement:" + ref }
  function ControlRef(ref: string): string { "control:" + ref }
  function ParentOfRef(fw: string, req: string): string { "parent_of:" + fw + ":" + req }
  function SatisfiesRef(ctrl: string, req: string): string { "satisfies:" + ctrl + ":" + req }
  function CrossMapsRef(src: string, dst: string): string { "cross_maps:" + src + ":" + dst }

  // `name[:255]`, the width of the column.
  function Cut(name: string): string { if |name| <= 255 then name else name[..255] }

  function SetDefault(m: Meta, key: string, value: string): Meta {
    if key in m then m else m[key := value]
  }

  // The requirement's own metadata wins over the fields derived from the document.
  function RequirementMeta(fw: Framework, q: Requirement): Meta {
    var m := SetDefault(q.metadata, "framework", fw.name);
    var m := if q.referenceId != "" then SetDefault(m, "reference_id", q.referenceId) else m;
    if q.category != "" then SetDefault(m, "category", q.category) else m
  }

  const DOT := " \U{B7} "

  function CrosswalkText(x: Crosswalk): string {
    (if x.relationship.Some? && x.relationship.value != "" then x.relationship.value else "related")
    + (if x.confidence != "" then DOT + "confidence: " + x.confidence else "")
    + (if x.note != "" then DOT + x.note else "")
  }

  function FrameworkWrite(fw: Framework): AssetWrite {
    AssetWrite("framework", Cut(fw.name), fw.description, fw.metadata, FrameworkRef(fw.ref))
  }

  function RequirementWrite(fw: Framework, q: Requirement): AssetWrite {
    AssetWrite("requirement", Cut(q.name), q.description, RequirementMeta(fw, q), RequirementRef(q.ref))
  }

  function ControlWrite(t: Control): AssetWrite {
    AssetWrite("control", Cut(t.name), t.description, t.metadata, ControlRef(t.ref))
  }

  function ParentOf(fw: Framework, q: Requirement): EdgeWrite {
    EdgeWrite(FrameworkRef(fw.ref), RequirementRef(q.ref), "parent_of", "", ParentOfRef(fw.ref, q.ref))
  }

  function Satisfies(t: Control, req: string): EdgeWrite {
    EdgeWrite(ControlRef(t.ref), RequirementRef(req), "satisfies", "", SatisfiesRef(t.ref, req))
  }

  function CrossMaps(x: Crosswalk): EdgeWrite {
    EdgeWrite(RequirementRef(x.src), RequirementRef(x.dst), "cross_maps", CrosswalkText(x), CrossMapsRef(x.src, x.dst))
  }

  /*************** the upserts, list by list (last entry last) ***************/

  function RequirementOps(fw: Framework, qs: seq<Entry<Requirement>>): seq<Op> {
    if qs == [] then []
    else RequirementOps(fw, qs[..|qs|-1]) +
         if qs[|qs|-1].Object?
         then [PutAsset(RequirementWrite(fw, qs[|qs|-1].value)), PutEdge(ParentOf(fw, qs[|qs|-1].value))]
         else []
  }

  function OneFrameworkOps(fw: Framework): seq<Op> {
    [PutAsset(FrameworkWrite(fw))] + RequirementOps(fw, Items(fw.requirements))
  }

  function FrameworkOps(fs: seq<Entry<Framework>>): seq<Op> {
    if fs == [] then []
    else FrameworkOps(fs[..|fs|-1]) + if fs[|fs|-1].Object? then OneFrameworkOps(fs[|fs|-1].value) else []
  }

  function SatisfiesOps(t: Control, reqs: seq<string>): seq<Op> {
    if reqs == [] then [] else SatisfiesOps(t, reqs[..|reqs|-1]) + [PutEdge(Satisfies(t, reqs[|reqs|-1]))]
  }

  function OneControlOps(t: Control): seq<Op> {
    [PutAsset(ControlWrite(t))] + SatisfiesOps(t, t.satisfies)
  }

  function ControlOps(ts: seq<Entry<Control>>): seq<Op> {
    if ts == [] then []
    else ControlOps(ts[..|ts|-1]) + if ts[|ts|-1].Object? then OneControlOps(ts[|ts|-1].value) else []
  }

  function CrosswalkOps(xs: seq<Entry<Crosswalk>>): seq<Op> {
    if xs == [] then []
    else CrosswalkOps(xs[..|xs|-1]) + if xs[|xs|-1].Object? then [PutEdge(CrossMaps(xs[|xs|-1].value))] else []
  }

  function Ops(c: Catalog): seq<Op> {
    FrameworkOps(Frameworks(c)) + ControlOps(Controls(c)) + CrosswalkOps(Crosswalks(c))
  }

  /*************** what makes a plan runnable ***************/

  // No two asset upserts share a source_ref.
  ghost predicate DistinctAssets(ops: seq<Op>) {
    forall i, j | 0 <= i < j < |ops| && ops[i].PutAsset? && ops[j].PutAsset? :: ops[i].asset.ref != ops[j].asset.ref
  }

  ghost predicate WrittenBefore(ops: seq<Op>, k: nat, ref: string) {
    exists i :: 0 <= i < k && i < |ops| && ops[i].PutAsset? && ops[i].asset.ref == ref
  }

  // Every edge upsert finds both endpoints among the assets already upserted in this run.
  ghost predicate EndpointsWritten(ops: seq<Op>) {
    forall k | 0 <= k < |ops| && ops[k].PutEdge? ::
      WrittenBefore(ops, k, ops[k].edge.srcRef) && WrittenBefore(ops, k, ops[k].edge.dstRef)
  }

  ghost predicate Runnable(ops: seq<Op>) { DistinctAssets(ops) && EndpointsWritten(ops) }
}
