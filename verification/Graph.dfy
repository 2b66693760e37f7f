/** The asset graph as its two tables: `assets` and `relationships`.

    A row written by a synchronisation carries an origin (source, source_ref); a row a person
    wrote carries none.  Row ids stand for UUIDs and are handed out by a counter, so a new row
    always gets an id no other row has.  The columns created_at and updated_at are not modelled. */
module Graph {
  import opened Options

  type Id = nat
  type Org = nat
  type Meta = map<string, string>

  datatype Origin = Origin(source: string, ref: string)

  datatype Asset = Asset(org: Org, kind: string, name: string, description: string, status: string,
                         owner: Option<Id>, metadata: Meta, origin: Option<Origin>)

  datatype Edge = Edge(org: Org, src: Id, dst: Id, kind: string, description: string,
                       origin: Option<Origin>)

  datatype Db = Db(assets: map<Id, Asset>, edges: map<Id, Edge>, next: Id)

  // One row of `assets` (or of `relationships`) belongs to (org, source).
  predicate OwnsAsset(org: Org, source: string, a: Asset) {
    a.org == org && a.origin.Some? && a.origin.value.source == source
  }

  predicate OwnsEdge(org: Org, source: string, e: Edge) {
    e.org == org && e.origin.Some? && e.origin.value.source == source
  }

  // The row holds the unique-index key (org, source, ref).
  predicate AssetKeyed(org: Org, o: Origin, a: Asset) {
    a.org == org && a.origin == Some(o)
  }

  predicate EdgeKeyed(org: Org, o: Origin, e: Edge) {
    e.org == org && e.origin == Some(o)
  }

  ghost predicate UniqueAssets(assets: map<Id, Asset>) {
    forall i, j | i in assets && j in assets && assets[i].origin.Some? &&
                  assets[i].org == assets[j].org && assets[i].origin == assets[j].origin :: i == j
  }

  ghost predicate UniqueEdges(edges: map<Id, Edge>) {
    forall i, j | i in edges && j in edges && edges[i].origin.Some? &&
                  edges[i].org == edges[j].org && edges[i].origin == edges[j].origin :: i == j
  }

  // No dangling edge and no dangling owner.
  ghost predicate NoDangling(db: Db) {
    && (forall e | e in db.edges :: db.edges[e].src in db.assets && db.edges[e].dst in db.assets)
    && (forall a | a in db.assets :: db.assets[a].owner.Some? ==> db.assets[a].owner.value in db.assets)
  }

  ghost predicate IdsBelow(db: Db) {
    && (forall i | i in db.assets :: i < db.next)
    && (forall i | i in db.edges :: i < db.next)
  }

  /** The database's own constraints: the two partial unique indexes, the foreign keys, and ids
      taken from the counter. */
  ghost predicate Valid(db: Db) {
    UniqueAssets(db.assets) && UniqueEdges(db.edges) && NoDangling(db) && IdsBelow(db)
  }

  // What one upsert writes.  `srcRef` and `dstRef` name the endpoints by source_ref.
  datatype AssetWrite = AssetWrite(kind: string, name: string, description: string, metadata: Meta, ref: string)
  datatype EdgeWrite = EdgeWrite(srcRef: string, dstRef: string, kind: string, description: string, ref: string)

  /** The row an `ON CONFLICT` clause would hit, or the id an insert would get. */
  ghost function AssetSlot(db: Db, org: Org, o: Origin): Id {
    if i :| i in db.assets && AssetKeyed(org, o, db.assets[i]) then i else db.next
  }

  ghost function EdgeSlot(db: Db, org: Org, o: Origin): Id {
    if i :| i in db.edges && EdgeKeyed(org, o, db.edges[i]) then i else db.next
  }
}
