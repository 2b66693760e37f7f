/** A CMDB inventory: its validation, and what a valid one asks the database to hold. */
module InventoryPlan {
  import opened Options
  import opened Graph
  import opened CatalogDocument
  import opened CatalogPlan
  import opened ExternalSync

  // A text field that is missing or empty is the empty string; `attrs` holds the optional ones.
  datatype Ci = Ci(id: string, name: string, description: string, status: string, attrs: Meta, owner: string,
                   dependsOn: seq<string>)

  // A list is None when the inventory does not carry that class at all.
  datatype Inventory = NotInventory | Inventory(systems: Option<Listing<Ci>>, devices: Option<Listing<Ci>>)

  datatype Fault = NotAnObject | SystemsNotList | DevicesNotList | NothingCarried
                 | EntryNotObject | MissingId | DuplicateId(id: string) | MissingName

  function Entries(l: Option<Listing<Ci>>): seq<Entry<Ci>> { if l.None? then [] else Items(l.value) }

  /*************** validation ***************/

  predicate EntryOk(e: Entry<Ci>) { e.Object? && e.value.id != "" && e.value.name != "" }

  ghost predicate EntriesOk(items: seq<Entry<Ci>>, taken: set<string>) {
    && (forall i | 0 <= i < |items| :: EntryOk(items[i]) && items[i].value.id !in taken)
    && (forall i, j | 0 <= i < j < |items| && items[i].Object? && items[j].Object? :: items[i].value.id != items[j].value.id)
  }

  function IdsOf(items: seq<Entry<Ci>>): set<string> {
    set i | 0 <= i < |items| && items[i].Object? && items[i].value.id != "" :: items[i].value.id
  }

  ghost predicate Usable(inv: Inventory) {
    && inv.Inventory?
    && (inv.systems.Some? ==> inv.systems.value.List?)
    && (inv.devices.Some? ==> inv.devices.value.List?)
    && (Entries(inv.systems) != [] || Entries(inv.devices) != [])
    && EntriesOk(Entries(inv.systems), {})
    && EntriesOk(Entries(inv.devices), IdsOf(Entries(inv.systems)))
  }

  // One of the two passes over the entries, with the ids already seen.
  method CheckEntries(items: seq<Entry<Ci>>, taken: set<string>, before: seq<Fault>) returns (seen: set<string>, errors: seq<Fault>)
    ensures errors == [] <==> before == [] && EntriesOk(items, taken)
    ensures seen == taken + IdsOf(items)
  {
    seen, errors := taken, before;
    for k := 0 to |items|
      invariant seen == taken + IdsOf(items[..k])
      invariant errors == [] <==> before == [] && EntriesOk(items[..k], taken)
    {
      ghost var was, ok := seen, errors == [];
      var e := items[k];
      assert items[..k + 1] == items[..k] + [e];
      NextEntry(items[..k], e, taken);
      if e.NotObject? {
        errors := errors + [EntryNotObject];
      } else {
        if e.value.id == "" {
          errors := errors + [MissingId];
        } else if e.value.id in seen {
          errors := errors + [DuplicateId(e.value.id)];
        } else {
          seen := seen + {e.value.id};
        }
        if e.value.name == "" { errors := errors + [MissingName]; }
      }
    }
    assert items[..|items|] == items;
  }

  lemma NextEntry(items: seq<Entry<Ci>>, e: Entry<Ci>, taken: set<string>)
    ensures IdsOf(items + [e]) == IdsOf(items) + (if e.Object? && e.value.id != "" then {e.value.id} else {})
    ensures EntriesOk(items + [e], taken) <==> EntriesOk(items, taken) && EntryOk(e) && e.value.id !in taken + IdsOf(items)
  {
    var all := items + [e];
    assert all[|items|] == e;
    assert forall i | 0 <= i < |items| :: all[i] == items[i];
    forall x ensures x in IdsOf(all) <==> x in IdsOf(items) || (e.Object? && e.value.id != "" && x == e.value.id) {
      if x in IdsOf(items) {
        var i :| 0 <= i < |items| && items[i].Object? && items[i].value.id != "" && items[i].value.id == x;
        assert all[i].value.id == x;
      }
    }
    if EntriesOk(all, taken) {
      assert EntryOk(all[|items|]);
      forall x | x in IdsOf(items) ensures x != e.value.id {
        var i :| 0 <= i < |items| && items[i].Object? && items[i].value.id != "" && items[i].value.id == x;
        assert all[i].value.id != all[|items|].value.id;
      }
    }
    if EntriesOk(items, taken) && EntryOk(e) && e.value.id !in taken + IdsOf(items) {
      forall i | 0 <= i < |items| ensures items[i].value.id != e.value.id { assert EntryOk(items[i]); }
    }
  }

  /** Validation finds nothing exactly when the inventory is well formed. */
  method ValidateInventory(inv: Inventory) returns (errors: seq<Fault>)
    ensures errors == [] <==> Usable(inv)
  {
    if inv.NotInventory? { return [NotAnObject]; }
    if inv.systems.Some? && inv.systems.value.NotList? { return [SystemsNotList]; }
    if inv.devices.Some? && inv.devices.value.NotList? { return [DevicesNotList]; }
    if Entries(inv.systems) == [] && Entries(inv.devices) == [] { return [NothingCarried]; }
    var seen: set<string>;
    seen, errors := CheckEntries(Entries(inv.systems), {}, []);
    seen, errors := CheckEntries(Entries(inv.devices), seen, errors);
    assert {} + IdsOf(Entries(inv.systems)) == IdsOf(Entries(inv.systems));
  }

  /*************** the records ***************/

  const SYSTEM := "system"
  const DEVICE := "device"

  const SYSTEM_FIELDS := {"hostname", "ip_address", "fqdn", "cloud_resource_id", "environment", "hosting", "provider",
                          "region", "criticality", "data_classification", "url"}
  const DEVICE_FIELDS := {"device_type", "manufacturer", "model", "os", "ip_address", "serial_number", "location", "cmdb_link"}
  const ARCHIVED_STATUSES := {"inactive", "decommissioned", "retired", "archived", "disposed"}

  datatype Listed = Listed(kind: string, ci: Ci)

  function ListedOf(kind: string, items: seq<Entry<Ci>>): seq<Listed> {
    if items == [] then []
    else ListedOf(kind, items[..|items| - 1]) + if items[|items| - 1].Object? then [Listed(kind, items[|items| - 1].value)] else []
  }

  function Cis(inv: Inventory): seq<Listed> {
    if inv.Inventory? then ListedOf(SYSTEM, Entries(inv.systems)) + ListedOf(DEVICE, Entries(inv.devices)) else []
  }

  function RefOf(l: Listed): string { l.kind + ":" + l.ci.id }

  // Lower-casing beyond ASCII spells none of the words looked for.
  function Lower(s: string): string {
    if s == "" then "" else [if 'A' <= s[0] <= 'Z' then (s[0] as int + 32) as char else s[0]] + Lower(s[1..])
  }

  function StatusOf(ci: Ci): string { if Lower(ci.status) in ARCHIVED_STATUSES then ARCHIVED else "active" }

  function MetadataOf(l: Listed): Meta {
    var fields := if l.kind == SYSTEM then SYSTEM_FIELDS else DEVICE_FIELDS;
    var external := if "external_id" in l.ci.attrs && l.ci.attrs["external_id"] != "" then l.ci.attrs["external_id"] else l.ci.id;
    map["external_id" := external] + map k | k in fields && k in l.ci.attrs && l.ci.attrs[k] != "" :: l.ci.attrs[k]
  }

  // The oldest person or unit of that name; ids are handed out in order of creation.
  predicate CanOwn(org: Org, name: string, a: Asset) {
    a.org == org && a.kind in {"person", "organizational_unit"} && a.name == name
  }

  function FirstNamed(assets: map<Id, Asset>, org: Org, name: string, start: Id, end: Id): (r: Option<Id>)
    ensures r.Some? ==> r.value in assets && CanOwn(org, name, assets[r.value])
    decreases end - start
  {
    if start >= end then None
    else if start in assets && CanOwn(org, name, assets[start]) then Some(start)
    else FirstNamed(assets, org, name, start + 1, end)
  }

  function OwnerIn(db: Db, org: Org, name: string): Option<Id> {
    if name == "" then None else FirstNamed(db.assets, org, name, 0, db.next)
  }

  function WriteOf(db: Db, org: Org, l: Listed): Write {
    Write(l.kind, Cut(l.ci.name), l.ci.description, StatusOf(l.ci), MetadataOf(l), RefOf(l), OwnerIn(db, org, l.ci.owner))
  }

  function Writes(db: Db, org: Org, ls: seq<Listed>): seq<Write> {
    if ls == [] then [] else Writes(db, org, ls[..|ls| - 1]) + [WriteOf(db, org, ls[|ls| - 1])]
  }

  function DependsRef(a: string, b: string): string { "depends_on:" + a + ":" + b }
  function DependsOn(a: string, b: string): EdgeWrite { EdgeWrite(a, b, "depends_on", "", DependsRef(a, b)) }

  // A dependency on itself or on a CI the inventory does not list is skipped.
  function OneCiOps(id: string, deps: seq<string>, known: set<string>): seq<Op> {
    if deps == [] then []
    else
      var dep := deps[|deps| - 1];
      OneCiOps(id, deps[..|deps| - 1], known) + if dep != id && dep in known then [PutEdge(DependsOn(id, dep))] else []
  }

  function DependencyOps(ls: seq<Listed>, known: set<string>): seq<Op> {
    if ls == [] then []
    else DependencyOps(ls[..|ls| - 1], known) + OneCiOps(ls[|ls| - 1].ci.id, ls[|ls| - 1].ci.dependsOn, known)
  }

  function CiIds(ls: seq<Listed>): set<string> { set i | 0 <= i < |ls| :: ls[i].ci.id }

  /*************** rows typed by their refs ***************/

  /** Under the connector's tag the prefix of a ref is the row's type: the connector writes no other row and
      nothing changes an asset's type afterwards. */
  ghost predicate Classed(org: Org, source: string, db: Db) {
    forall i | i in db.assets && OwnsAsset(org, source, db.assets[i]) :: ClassedRow(db.assets[i])
  }

  predicate ClassedRow(a: Asset)
    requires a.origin.Some?
  {
    && (SYSTEM + ":" <= a.origin.value.ref ==> a.kind == SYSTEM)
    && (DEVICE + ":" <= a.origin.value.ref ==> a.kind == DEVICE)
  }

  // Every planned record is a system or a device, named after its class.
  ghost predicate ClassPlan(plan: map<string, Write>) {
    forall ref | ref in plan :: plan[ref].kind in {SYSTEM, DEVICE} && plan[ref].kind + ":" <= ref
  }

  lemma {:induction false} WritesAreClassed(db: Db, org: Org, ls: seq<Listed>)
    requires forall i | 0 <= i < |ls| :: ls[i].kind in {SYSTEM, DEVICE}
    ensures ClassPlan(PlanOf(Writes(db, org, ls)))
  {
    if ls != [] {
      WritesAreClassed(db, org, ls[..|ls| - 1]);
      WritesSnoc(db, org, ls);
      hide WriteOf, Writes, PlanOf;
      PrefixOfRef(db, org, ls[|ls| - 1]);
    }
  }

  lemma WritesSnoc(db: Db, org: Org, ls: seq<Listed>)
    requires ls != []
    ensures var w := WriteOf(db, org, ls[|ls| - 1]);
            PlanOf(Writes(db, org, ls)) == PlanOf(Writes(db, org, ls[..|ls| - 1]))[w.ref := w]
  {
    hide WriteOf;
    var ws := Writes(db, org, ls);
    assert ws[..|ws| - 1] == Writes(db, org, ls[..|ls| - 1]);
  }

  lemma PrefixOfRef(db: Db, org: Org, l: Listed)
    requires l.kind in {SYSTEM, DEVICE}
    ensures var w := WriteOf(db, org, l); w.kind in {SYSTEM, DEVICE} && w.kind + ":" <= w.ref
  {
    assert RefOf(l) == (l.kind + ":") + l.ci.id;
  }

  // A planned row is of the planned class.
  lemma PlannedKind(org: Org, source: string, plan: map<string, Write>, a: Asset)
    requires ClassPlan(plan) && Planned(org, source, plan, a) && ClassedRow(a)
    ensures a.kind == plan[a.origin.value.ref].kind
  {
  }
}
