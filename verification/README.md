# GRCen: protocols, projections and codecs, modelled and proved

GRCen keeps an organisation's governance graph (assets and typed relationships) in PostgreSQL, many
organisations to one database, served by several worker processes. This project models the parts of it
that have an algorithm or a protocol behind them and proves what they are for.

- **Projections into the graph.** A controls catalog, a content pack, a CMDB inventory and a scanner's
  export are each validated and then upserted by `(organisation, source, source_ref)`, with stale rows
  pruned or archived, in one transaction. Proved: validation decides well-formedness; runs converge, are
  idempotent and independent of history; rows of other authors and of parts not carried stay exactly as
  they were; trying a pack out and removing it restores everything, however the install ended. Edge refs
  are text joined by colons, and the exact conditions under which no link is lost or taken over are part
  of the result. Each synchronisation also states what it leaves in the document's own fields.
- **Claims across workers.** Alerts and e-mail digests are claimed rows. Labelled transition systems with
  crashes, failed sends and user edits show that an occurrence fires and a row is delivered at most once;
  the Python functions are methods proved to be runs of those systems.
- **Tenants over one pool.** Context variables, per-acquire stamping and the row policy, over every
  interleaving, bypassing jobs on the same connections included: a two-run non-interference theorem.
- **Time-driven state.** The sliding-window limiter refines an unpruned log; login lockout is bounded
  in every window, exactly when attempts come one after another, and concurrently up to the delay between an
  UPDATE and the clock it was stamped by; the posture cache has bounded staleness.
- **Queries and copies.** `list_assets` is a compiler from filters to numbered placeholders whose meaning is
  preserved; pages tile the answer exactly when the order is settled; cloning copies adjacency in two passes.
- **Codecs.** Backup framing, field encryption with key rotation, base64url, iCalendar escaping and folding.

Tables are maps from row ids to rows, a statement is one atomic step, and a transaction that rolls back
restores the tables. Ids come from a counter that also stands for creation order. Cryptographic
primitives, date parsing, pattern matching and collation are function values with stated laws, and lemmas
show the laws consistent.

Where code and comments disagree the model follows the code, and a lemma says so:

- `main.py`, "Reschedule before firing": the whole batch is claimed first, so a crash or a bad crontab
  leaves later recurring alerts without a time (`AlertTick.AlertStore.TickAlerts` says exactly which,
  `AlertParking.BadNeighbourParks` gives a batch of two).
- `asset.py`, "a single non-numeric row can't abort the whole ORDER BY": a value such as 1.2.3 does
  (`AssetPaging.BadNumberIff` says exactly which values).
- `calendar_service.py`, "always under the 75-octet ceiling": not for accented text
  (`Calendar.LinesFitIff`, `CalendarFeed.AccentedSummaryOverflows`).
- `tenancy.py` calls `RESET ALL` on release necessary for isolation; stamping both settings and the role on
  every acquire is enough by itself (`TenantPool.AcquireScopes`).
- Login lockout, the rate limiter's Retry-After, metadata filters, clone neighbourhoods, the writer's own
  reload of the posture and an unlisted CI's dependencies are each as promised exactly under the condition
  given by the lemma whose name ends in `Iff`.

Modules follow the repository's files: `Graph`, `Catalog*`, `ContentPacks`, `ExternalSync`, `Inventory*`,
`Findings*` (projections; the modules ending in `Meaning` restate each effect in document fields); `Alert*`, `Digest*` (claims); `Tenant*`; `RateLimiter`; `Lockout`;
`EncryptionConfig`; `Asset*`; `BackupStream`, `Base64`, `FieldEncryption`, `Calendar*` (codecs).
`dafny verify dfyconfig.toml` checks the whole project.

## Model

| member | source | states |
|---|---|---|
| CatalogValidation.ValidateCatalog | src/grcen/services/catalog_sync.py:77-178 | the errors are exactly the defects of the document, each once and in the order in which the document is read; there are none if and only if the catalog is well formed |
| CatalogValidation.NoDefectIffWellFormed | src/grcen/services/catalog_sync.py:77-178 | a catalog has no defect exactly when refs are unique, names present, endpoints known, no self-map, vocabulary kept, and no unordered pair mapped twice |
| CatalogValidation.OrderSettlesTheList | src/grcen/services/catalog_sync.py:77-178 | a list of errors in document order has no repetition and is settled by which errors it holds |
| CatalogValidation.PairKeyIsUnordered | src/grcen/services/catalog_sync.py:168-177 | the remembered ordered pair is equal for two crosswalks exactly when they map the same two requirements in either direction |
| CatalogRunnable.WellFormedIsRunnable | src/grcen/services/catalog_sync.py:304-323 | for a well-formed catalog every edge finds both ends among the assets upserted before it, so the unresolved-endpoint guards never skip anything |
| CatalogRun.FindAsset | src/grcen/services/catalog_sync.py:181-191 | the row an ON CONFLICT clause hits, or the id an insert gets |
| CatalogRun.FindEdge | src/grcen/services/catalog_sync.py:193-205 | the same for relationships |
| CatalogRun.PlayIsPlayed | src/grcen/services/catalog_sync.py:236-335 | after all upserts, from any valid graph: every old row is what it was or restamped, every new row is planned, the counters are the growth of the tables |
| CatalogCommit.CommittedKeepsValid | src/grcen/services/catalog_sync.py:208-371 | unique keys and foreign keys survive a run, pruning or not |
| CatalogCommit.OthersUntouched | src/grcen/services/catalog_sync.py:337-371 | without prune, rows of other sources, other organisations and people are exactly what they were, and none appears |
| CatalogCommit.PlannedAssets | src/grcen/services/catalog_sync.py:241-303 | every catalog asset is in the graph with the catalog's name, description and metadata; an existing row keeps id, type, status and owner |
| CatalogCommit.EdgesConverge | src/grcen/services/catalog_sync.py:254-345 | after a committed run the source's edges are exactly the projection, last write per ref |
| CatalogCommit.PruneIsExact | src/grcen/services/catalog_sync.py:347-363 | with prune the source's surviving assets are exactly the catalog's, no catalog edge is lost to the cascade, any other edge survives iff neither end was stale |
| CatalogCommit.ReplayIsIdle | src/grcen/services/catalog_sync.py:208-371 | replaying a plan over a graph that carries it changes no row and creates none |
| CatalogCommit.SecondRunIsIdle | src/grcen/services/catalog_sync.py:208-371 | an immediate second run creates 0, prunes 0 and leaves the graph as it was |
| CatalogCommit.HistoryIndependent | src/grcen/services/catalog_sync.py:208-371 | from any two graphs one run of the same catalog leaves the same tagged content |
| CatalogSync.Session.UpsertAsset | src/grcen/services/catalog_sync.py:241-252 | one upsert is one step of the plan; a raising statement changes nothing |
| CatalogSync.Session.UpsertEdge | src/grcen/services/catalog_sync.py:254-262 | the same for an edge |
| CatalogSync.Session.ProjectRequirements | src/grcen/services/catalog_sync.py:273-293 | the requirement loop plays exactly its part of the plan, in order |
| CatalogSync.Session.ProjectFrameworks | src/grcen/services/catalog_sync.py:264-293 | the framework loop plays exactly its part of the plan |
| CatalogSync.Session.ProjectSatisfies | src/grcen/services/catalog_sync.py:304-314 | the satisfies loop plays exactly its part of the plan |
| CatalogSync.Session.ProjectControls | src/grcen/services/catalog_sync.py:295-314 | the control loop plays exactly its part of the plan |
| CatalogSync.Session.ProjectCrosswalks | src/grcen/services/catalog_sync.py:316-335 | the crosswalk loop plays exactly its part of the plan |
| CatalogSync.Session.PruneEdges | src/grcen/services/catalog_sync.py:337-345 | deletes and counts exactly the source's edges whose ref was not seen |
| CatalogSync.Session.FindStale | src/grcen/services/catalog_sync.py:347-354 | the refs of exactly the source's assets not seen |
| CatalogSync.Session.PruneAssets | src/grcen/services/catalog_sync.py:355-363 | deletes and counts exactly those, with the cascade |
| CatalogSync.Session.Upserts | src/grcen/services/catalog_sync.py:264-335 | the upserts together are the whole plan, or one of them raised |
| CatalogSync.Session.Prunes | src/grcen/services/catalog_sync.py:337-363 | the three statements after the upserts take the played graph to the committed one |
| CatalogSync.Session.Project | src/grcen/services/catalog_sync.py:233-371 | the body of the try: the committed effect and its report, or a raised statement |
| CatalogSync.Session.SyncCatalog | src/grcen/services/catalog_sync.py:208-373 | an ill-formed catalog changes nothing; a run that raises or is dry leaves the tables as they were; counts and stale list are the same for a dry and a real run; a committed run shows the document, entry by entry and edge by edge, and the four counters are the numbers of its entries |
| CatalogMeaning.CommittedShows | src/grcen/services/catalog_sync.py:254-345 | in the document's own fields: a row for every framework, requirement and control with its kind, fitted name, description and metadata; an edge for every parent, satisfied requirement and crosswalk unless another spells its ref; and no other edge |
| CatalogMeaning.AsksIff | src/grcen/services/catalog_sync.py:289-335 | the planned edges are exactly those the document asks for |
| CatalogMeaning.RunCountsEntries | src/grcen/services/catalog_sync.py:264-335 | the run counts the document's entries, each once |
| CatalogLinks.NoLinkLostIff | src/grcen/services/catalog_sync.py:193-205 | the synchronised edges hold every requested link exactly when no two links spell one ref |
| CatalogLinks.CatalogKeepsLinksIff | src/grcen/services/catalog_sync.py:289-335 | for any catalog the edges are in bijection with its links if and only if no two of its links collide |
| CatalogLinks.PlainSourcesKeepLinks | src/grcen/services/catalog_sync.py:289-335 | source-side refs without a colon are enough |
| CatalogLinks.CollisionLosesALink | src/grcen/services/catalog_sync.py:289-335 | a well-formed catalog whose refs contain colons can lose a link |
| ContentPacks.LoadCatalog | src/grcen/services/content_packs.py:165-185 | the named fragments' entries, file after file and nothing else, or FileNotFoundError when one is missing |
| ContentPacks.PackManager.InstallPack | src/grcen/services/content_packs.py:256-280 | installs the pack's plan under its source; the version key is written only after a real, error-free run, and the graph then shows the assembled catalog |
| ContentPacks.PackManager.UninstallPack | src/grcen/services/content_packs.py:297-325 | deletes the source's edges, assets and version key in one transaction, or nothing |
| ContentPacks.TryOut | src/grcen/services/content_packs.py:256-325 | where the pack was not installed, an install, however it ends, and then an uninstall that goes through restore settings, assets and relationships exactly |
| ContentPacks.InstallThenUninstall | src/grcen/services/content_packs.py:256-325 | from a graph without rows of the source, committing its plan and deleting its rows restores every asset and relationship |
| ContentPacks.InstalledEdgesInside | src/grcen/services/content_packs.py:256-280 | every edge a pack creates joins two assets of the same source |
| ContentPacks.UninstallLeavesOther | src/grcen/services/content_packs.py:297-325 | uninstalling one pack leaves another's assets and inner edges as they were |
| ContentPacks.InstallLeavesOther | src/grcen/services/content_packs.py:256-280 | installing one pack leaves the rows of any other source as they were |
| ContentPacks.InstallKeepsInside | src/grcen/services/content_packs.py:256-280 | installing one pack, pruning or not, keeps every edge of another between that other's assets |
| ContentPacks.UninstallKeepsContent | src/grcen/services/content_packs.py:297-325 | uninstalling one pack leaves the tagged content of another as it was |
| ContentPacks.EitherCanGo | src/grcen/services/content_packs.py:256-325 | of two installed packs either can be uninstalled: the other's content is what its catalog says and nothing of the removed one is left |
| ContentPacks.InstallOrderIrrelevant | src/grcen/services/content_packs.py:256-280 | two packs installed in either order leave the same tagged content |
| ExternalSync.SecondProjectionIsIdle | src/grcen/services/external_sync.py:83-113 | the same projection again changes no asset and creates none |
| ExternalSync.SecondSweepIsIdle | src/grcen/services/external_sync.py:116-214 | redrawing and sweeping again changes no edge |
| InventoryPlan.CheckEntries | src/grcen/services/cmdb_sync.py:120-136 | one pass finds nothing exactly when every entry is an object with a new id and a name |
| InventoryPlan.ValidateInventory | src/grcen/services/cmdb_sync.py:107-136 | no error exactly when the inventory is usable: lists where given, something carried, ids unique over both classes, names present |
| InventoryRun.Session.UpsertAsset | src/grcen/services/external_sync.py:83-113 | writes the whole record, status included, on insert and update |
| InventoryRun.Session.LinkOwner | src/grcen/services/cmdb_sync.py:152-173 | sets the owner to the oldest person or unit of that name, or leaves it |
| InventoryRun.Session.UpsertCi | src/grcen/services/cmdb_sync.py:232-247 | one CI more is projected; created exactly when no row held its ref before the run |
| InventoryRun.Session.UpsertClass | src/grcen/services/cmdb_sync.py:232-264 | the loop over a class projects every CI of it and counts created and updated rows |
| InventoryRun.Session.UpsertEdge | src/grcen/services/external_sync.py:116-140 | one edge upsert |
| InventoryRun.Session.DrawOneCi | src/grcen/services/cmdb_sync.py:267-285 | the dependencies of one CI, self-references and unknown CIs skipped |
| InventoryRun.Session.DrawDependencies | src/grcen/services/cmdb_sync.py:266-285 | after the loop the edges are the planned ones, last write per ref |
| InventoryRun.Session.PruneStaleEdges | src/grcen/services/cmdb_sync.py:287-295 | deletes and counts the unseen edges that leave a CI of this run |
| InventoryRun.Session.ArchiveStale | src/grcen/services/cmdb_sync.py:176-195 | archives and counts the rows of one class not seen and not archived yet, and reports all not seen |
| InventoryRun.Session.SyncInventory | src/grcen/services/cmdb_sync.py:198-318 | nothing on a malformed inventory; otherwise the stated effect and report, kept unless the run is dry; and in the inventory's own fields every listed CI, every dependency and nothing else |
| InventoryMeaning.EffectShows | src/grcen/services/cmdb_sync.py:141-195 | each listed CI's row has its class, fitted name, description, the status archived exactly for the five words, exactly the non-empty fields of its class and the external id, and the oldest owner of that name; each dependency has its edge unless another spells its ref; all other rows and edges are as they were but for the archiving asked for |
| InventorySafety.AbsentClassIsUntouched | src/grcen/services/cmdb_sync.py:297-308 | a class whose list is absent: no row of that type changes, whoever wrote it |
| InventoryRun.ArchivesTheMissingIff | src/grcen/services/cmdb_sync.py:176-195 | in any database, what a run archives of a carried class is what it does not list if and only if no row of that class stands under a ref listed in the other class |
| InventorySafety.UncarriedEdgeStaysIff | src/grcen/services/cmdb_sync.py:276-284 | an edge that leaves an asset outside this run stays exactly as it was if and only if no listed CI has a drawn dependency that spells its ref |
| InventorySafety.UnlistedCiKeepsItsEdges | src/grcen/services/cmdb_sync.py:287-295 | so with colon-free ids the dependencies of a CI the inventory does not list stay as they were |
| InventorySafety.ColonTakesTheEdge | src/grcen/services/cmdb_sync.py:276-284 | with colons they need not: a listed a:b that depends on c takes the row of an unlisted a that depends on b:c |
| InventorySafety.TakeOver | src/grcen/services/cmdb_sync.py:198-308 | from any database, a usable inventory that lists a depending on b:c and then one that lists a:b depending on c: the edge the first drew from a is taken away |
| InventorySafety.SecondInventoryIsIdle | src/grcen/services/cmdb_sync.py:198-318 | the same inventory again changes no asset and no edge |
| InventorySafety.SecondReportIsEmpty | src/grcen/services/cmdb_sync.py:198-318 | and reports nothing created, archived or pruned |
| FindingsSync.ValidateExport | src/grcen/services/cspm_sync.py:80-101 | no error exactly when the export is a list of objects with unique ids and titles |
| FindingsRun.Session.UpsertAsset | src/grcen/services/external_sync.py:83-113 | writes the whole record, status included |
| FindingsRun.Session.UpsertEdge | src/grcen/services/external_sync.py:116-140 | one edge upsert |
| FindingsRun.Session.SyncFinding | src/grcen/services/cspm_sync.py:210-240 | one finding more is projected and, when its resource is found among the hosts of the graph the run began with, linked |
| FindingsRun.Session.SyncAll | src/grcen/services/cspm_sync.py:207-240 | the loop projects and links every finding; counts created, updated, linked and unresolved ones |
| FindingsRun.Session.PruneStaleEdges | src/grcen/services/cspm_sync.py:242-243 | deletes and counts every unseen edge of the source |
| FindingsRun.Session.ResolveMissing | src/grcen/services/cspm_sync.py:245-260 | archives, marks remediated and counts exactly the missing findings not archived yet |
| FindingsRun.Session.SyncFindings | src/grcen/services/cspm_sync.py:169-270 | refuses an empty export that would resolve everything unless allowed; otherwise the stated effect and report, kept unless dry: resolving archives and marks every missing finding, not resolving leaves unlisted rows alone, and the systems and devices looked up are never touched; and in the export's own fields every listed finding, its host and nothing else |
| FindingsMeaning.HostIsFound | src/grcen/services/cspm_sync.py:143-167 | a resource is found on the oldest system or device whose cloud_resource_id is its id, else whose external_id is, else of its name |
| FindingsMeaning.EffectShows | src/grcen/services/cspm_sync.py:207-260 | every listed finding has its row and, when it has a host, its edge from that host; the source owns no other edge; unlisted rows stay but for the resolution asked for |
| FindingsRun.HostsAreUntouched | src/grcen/services/cspm_sync.py:143-166 | the systems and devices looked up are the same rows before and after |
| FindingsRun.SecondExportIsIdle | src/grcen/services/cspm_sync.py:169-270 | the same export again changes no asset and no edge |
| AlertSafety.StepKeepsInv | src/grcen/main.py:48-89 | every step of every worker and every edit keeps each occurrence in exactly one of pending, claimed, fired, lost, overwritten |
| AlertSafety.AtMostOnce | src/grcen/main.py:48-89 | over any run no two notifications are for one occurrence, and a recurring alert fires only after its next time, not before the tick's now, was written |
| AlertCounting.FiringsBounded | src/grcen/main.py:48-89 | an alert fires at most as often as times were written for it |
| AlertCounting.OneShotBound | src/grcen/main.py:65-89 | a one-shot alert fires at most once per time a person scheduled it |
| AlertTick.AlertStore.ClaimRows | src/grcen/main.py:65-75 | clears next_fire_at of exactly the claimed rows and returns them |
| AlertTick.AlertStore.RescheduleRow | src/grcen/main.py:77-86 | writes the next time, or raises on a bad crontab |
| AlertTick.AlertStore.FireRow | src/grcen/services/alert_service.py:131-165 | one notification row, nothing for a deleted alert, or a raise that loses the rest of the batch |
| AlertTick.AlertStore.HandleRow | src/grcen/main.py:76-87 | reschedules before firing; the steps are steps of the protocol |
| AlertTick.AlertStore.ProcessRows | src/grcen/main.py:76-87 | the loop is a run of the protocol and stops at the first row k that fails: exactly the rows before it fire, in order; rows before k have their next time, row k has it exactly when its own crontab parses, later rows have none |
| AlertTick.AlertStore.TickAlerts | src/grcen/main.py:48-89 | a whole tick is a run of the protocol; the same of every claimed alert; and one is left without a time exactly when its own crontab or schedule gives none or an earlier row of the batch fails; every claimed alert was enabled and due, and nothing but next_fire_at is written |
| AlertParking.FreshInstallation | src/grcen/main.py:48-89 | the account holds of an installation without alerts |
| AlertParking.AbandonParksIff | src/grcen/main.py:76-87 | an alert a stopping worker still held is lost, and parked exactly when no time is written for it and no other worker holds it |
| AlertParking.BadNeighbourParks | src/grcen/main.py:76-87 | from an empty installation: two alerts, the first with a bad crontab; one tick parks the second, whose own crontab is good |
| AlertParking.ParkedNeverFires | src/grcen/main.py:66-75 | a parked alert never fires again until a person writes a time for it |
| DigestClaims.EmptyQueue | src/grcen/services/digest_service.py:32-59 | the account holds of an empty queue |
| DigestClaims.StepKeepsInv | src/grcen/services/digest_service.py:32-161 | queueing and every flush step keep each row in exactly one of pending, claimed, delivered, discarded, lost |
| DigestFlush.AtMostOneEnvelope | src/grcen/services/digest_service.py:85-161 | over any run no row is in two delivered envelopes or twice in one |
| DigestFlush.FailedSendReleases | src/grcen/services/digest_service.py:151-160 | a failed send returns exactly its group to pending |
| DigestFlush.GroupRows | src/grcen/services/digest_service.py:112-116 | the envelopes partition the claimed rows by user and organisation, in queued order |
| DigestFlush.SortedInOrder | src/grcen/services/digest_service.py:110 | the claimed rows are put in user, organisation, queued order, none lost |
| DigestStore.Store.ClaimRows | src/grcen/services/digest_service.py:98-116 | stamps exactly the claimed rows |
| DigestStore.Store.HandleGroup | src/grcen/services/digest_service.py:119-160 | discard, deliver, release or raise: one step of the protocol |
| DigestStore.Store.SendGroups | src/grcen/services/digest_service.py:118-161 | the loop stops at the first group k that raises: the accepted groups before it are delivered, in order, the refused ones before it released, rows of all others stay claimed |
| DigestStore.Store.FlushDigests | src/grcen/services/digest_service.py:85-161 | one flush end to end, raising or not: which envelopes went out, which rows are pending again, and their number |
| TenantContext.ContextVars.SetOrg | src/grcen/tenancy.py:116-136 | sets the organisation variable |
| TenantContext.ContextVars.SetBypass | src/grcen/tenancy.py:139-162 | sets the bypass variable |
| TenantContext.ContextVars.Run | src/grcen/tenancy.py:105-162 | whatever code is run, each query sees what its place in the code settles: the organisation last named for it, and the bypass on exactly when a system_context block was the last construct to act on it |
| TenantContext.ContextVars.Serve | src/grcen/middleware.py:40-50 | one request through the middleware, however it ends: both variables are back, and every query ran for an organisation the request named or none, bypassing exactly when a system_context block was the last construct to act on the bypass |
| TenantContext.ScopesAreSeen | src/grcen/tenancy.py:105-162 | the reference semantics is settled by structure, from every context |
| TenantContext.SystemJobBypasses | src/grcen/main.py:63-75 | every query of a system_context block that names no tenant bypasses row security |
| TenantContext.TenantWorkIsEnforced | src/grcen/tenancy.py:116-136 | in a tenant block, after set_tenant and in a request no query bypasses unless the code holds a system block |
| TenantContext.BypassNeverEscapes | src/grcen/tenancy.py:116-162 | from an enforced context no code leaves the bypass on |
| TenantContext.RequestBypassIsExplicit | src/grcen/tenancy.py:139-162 | a query that bypasses row security stands inside a system_context block of that request or in a task spawned in one |
| TenantContext.RequestSeesItsOwn | src/grcen/middleware.py:40-50 | every query of a request, spawned tasks included, runs for an organisation the request named itself, or for none |
| TenantContext.OrgContainedIff | src/grcen/tenancy.py:116-162 | code leaves the organisation in force as it was, from every context, if and only if no set_tenant call of it reaches out, which is decided by structure alone |
| TenantContext.SystemBlockLeaksTenant | src/grcen/tenancy.py:152-162 | a system_context block leaves the bypass as it was and the last tenant set in it in force |
| TenantPool.AcquireScopes | src/grcen/tenancy.py:165-203 | a connection acquired in an enforced context exposes exactly that organisation's rows, whatever it carried before |
| TenantPool.WritesStayInside | src/grcen/tenancy.py:165-203 | a statement on it changes no other row |
| TenantPool.SameViewSameEffect | src/grcen/tenancy.py:165-203 | its result and effect depend on those rows alone |
| TenantPool.TakesEffectIff | src/grcen/tenancy.py:200-203 | an enforced statement takes effect exactly as asked if and only if every row it writes is in a table without a policy or its own organisation's, and is otherwise refused with nothing changed |
| TenantPool.BypassTakesEffect | src/grcen/tenancy.py:165-203 | a bypassing statement, or one with row security off, sees every row and is never refused |
| TenantPool.StampsHoldInEveryRun | src/grcen/tenancy.py:165-203 | in every interleaving each statement runs under the context its connection was acquired in |
| TenantPool.OthersDoNotInterfere | src/grcen/tenancy.py:116-203 | for any run, with connections passing from bypassing jobs to tenants: taking out every step of other tenants and of the system, whose own statements leave what the organisation may know as it was, changes neither what the organisation's statements return nor its rows |
| TenantPool.TenantCannotTell | src/grcen/tenancy.py:116-203 | two installations that agree on one organisation's rows give it the same results in the same run |
| TenantPolicies.Schema.Protect | src/grcen/tenancy.py:321-330 | the four statements for one table |
| TenantPolicies.Schema.Unprotect | src/grcen/tenancy.py:344-346 | the two statements for one table |
| TenantPolicies.Schema.ApplyPolicies | src/grcen/tenancy.py:302-332 | all or nothing: every selected table enforces, or nothing changed |
| TenantPolicies.Schema.DropPolicies | src/grcen/tenancy.py:335-348 | the selected tables no longer carry the policy |
| TenantPolicies.Schema.AssertEnforcing | src/grcen/tenancy.py:274-299 | start-up passes exactly when the role is subject to row security and every selected table enforces |
| TenantPolicies.Schema.InitSchema | src/grcen/database.py:1157-1166 | start-up: with an unprivileged role only a statement can raise, and then nothing has changed; otherwise a data-plane table enforces if and only if it did before or its name passes the identifier pattern, and the database decides on every row as the pool model does; with row security off no selected table hides a row |
| TenantPolicies.TenantTablesAre | src/grcen/tenancy.py:206-220 | the selected tables are those with an organisation column, a safe name, and not of the identity plane |
| RateLimiter.Limiter.EvictStaleWindows | src/grcen/rate_limit.py:214-223 | the sweep forgets exactly the windows that are empty or expired |
| RateLimiter.Limiter.Prune | src/grcen/rate_limit.py:258-261 | drops exactly the hits older than the cutoff; one exactly 60 seconds old stays |
| RateLimiter.Limiter.CheckApiRateLimit | src/grcen/rate_limit.py:241-274 | the decision is the one an unpruned log makes, whatever was expired or swept before |
| RateLimiter.LimiterBound | src/grcen/rate_limit.py:214-274 | whatever calls a limiter has seen, sweeps included: no closed 60-second interval holds more admitted hits of a key than its limits ever allowed |
| RateLimiter.RemainingIsBudget | src/grcen/rate_limit.py:241-274 | an admitted caller is admitted exactly remaining times more at the same moment |
| RateLimiter.EarlyReturnIsRejected | src/grcen/rate_limit.py:264-267 | a caller told to wait more than a second is still rejected when it returns earlier |
| RateLimiter.EveryLogIsSpaced | src/grcen/rate_limit.py:241-274 | every log the limiter can build is spaced as its limits ask |
| RateLimiter.WindowBound | src/grcen/rate_limit.py:241-274 | with limits of at most n no closed 60-second interval holds more than n admitted hits of a key |
| RateLimiter.WaitFreesASlot | src/grcen/middleware.py:167-178 | waiting the advertised time expires the hit that blocked |
| RateLimiter.RetryIsEnough | src/grcen/middleware.py:167-178 | a rejected caller that waits int(retry_after) + 1 seconds with no other hit on its key is admitted, unless the limit was lowered |
| RateLimiter.LoweredLimitBreaksRetry | src/grcen/middleware.py:167-178 | after the limit was lowered the advertised wait can be too short |
| RateLimiter.RetryAdmittedIff | src/grcen/middleware.py:167-178 | read off the window at the rejection: with limit hits from the end of it, a caller who returns later is admitted exactly when the first of these has expired by then |
| RateLimiter.AdvertisedWaitIsEnoughIff | src/grcen/middleware.py:167-178 | so the advertised wait is enough exactly when it outlasts that hit, and always when the window holds no more hits than the limit |
| BackupStream.EncryptStream | src/grcen/services/backup_service.py:86-112 | writes magic, salt, one frame per non-empty chunk and the end marker; the count is the file length |
| BackupStream.DecryptFrames | src/grcen/services/backup_service.py:132-143 | the reading loop yields and ends as the reference reading |
| BackupStream.DecryptStream | src/grcen/services/backup_service.py:115-143 | the whole reader, both versions |
| BackupStream.RoundTrip | src/grcen/services/backup_service.py:86-143 | reading a written file gives exactly the non-empty chunks in order |
| BackupStream.TruncationIsDetected | src/grcen/services/backup_service.py:115-143 | every strict prefix yields a prefix of the chunks and then raises |
| BackupStream.LegacyTruncationIsDetected | src/grcen/services/backup_service.py:115-143 | the same for version 1 files |
| BackupStream.CompleteMeansFramed | src/grcen/services/backup_service.py:132-143 | a complete reading means well-formed frames that each open, then an end marker |
| BackupStream.Layout | src/grcen/services/backup_service.py:86-112 | a file byte by byte: GRCBKP and the version, salt, nonce, big-endian length, ciphertext, end marker |
| BackupStream.LegacyLayout | src/grcen/services/backup_service.py:125-143 | the same of version 1, without a salt |
| BackupStream.CompleteIffFramed | src/grcen/services/backup_service.py:115-143 | any bytes read as complete exactly when they are frames that each open, an end marker, and anything after it |
| BackupStream.EditAcceptedIff | src/grcen/services/backup_service.py:86-143 | frames carry no number: an edit that forges no frame is accepted exactly when all its frames are frames of the file, in any order and number, and yields their chunks in that order |
| BackupStream.CutAtFrameIsAccepted | src/grcen/services/backup_service.py:86-143 | a file whose last frames were cut and whose end marker was kept reads as complete |
| BackupStream.UnpackPack | src/grcen/services/backup_service.py:105-110 | the length field reads back |
| BackupStream.PackUnpack | src/grcen/services/backup_service.py:134-137 | every four bytes are a length field |
| BackupStream.SoundIsPossible | src/grcen/services/backup_service.py:46-55 | the laws asked of the primitives are consistent |
| AssetFilters.PushTexts | src/grcen/services/asset.py:121-136 | one value per listed text, the index in step |
| AssetFilters.KindClause | src/grcen/services/asset.py:116-137 | one type, several, or the posture types hidden |
| AssetFilters.SearchClause | src/grcen/services/asset.py:139-155 | the free-text clause with its two placeholders |
| AssetFilters.TextClauses | src/grcen/services/asset.py:157-165 | status and owner |
| AssetFilters.DateClauses | src/grcen/services/asset.py:167-175 | the date clauses, the day named last counting in full; ValueError and OverflowError |
| AssetFilters.TagClauses | src/grcen/services/asset.py:177-188 | tag and unlinked |
| AssetFilters.MetaClauses | src/grcen/services/asset.py:190-198 | the metadata loop, unsafe keys skipped |
| AssetFilters.BuildWhere | src/grcen/services/asset.py:107-200 | idx is the number of values plus one, every placeholder names a value of its type, and SQL keeps a row exactly when every requested filter holds of it |
| AssetFilters.MetaHonouredIff | src/grcen/services/asset.py:190-198 | metadata filters mean their conjunction exactly when every key is safe |
| AssetFilters.SafeKeyIsItsLiteral | src/grcen/services/asset.py:193-196 | a safe key between quotes is read back by SQL as itself |
| AssetPaging.Filtered | src/grcen/services/asset.py:202-207 | the rows the WHERE keeps |
| AssetPaging.Fetch | src/grcen/services/asset.py:243-251 | sorted, then cut by LIMIT and OFFSET; the statement's three errors |
| AssetPaging.ListAssets | src/grcen/services/asset.py:90-252 | total and page come from exactly the rows that meet every filter; the two values bound last are LIMIT and OFFSET; and the rows ascend in the field the request names, or descend exactly for desc, nulls last |
| AssetPaging.AnswerAsRequested | src/grcen/services/asset.py:217-251 | for each of the six sort names, by name for an unknown or unsafe one, and for meta. keys by text, or by number exactly for an integer field of the one type asked for |
| AssetPaging.ArrangeSorts | src/grcen/services/asset.py:243-251 | ORDER BY returns the rows themselves, in order |
| AssetPaging.OrderSettledIff | src/grcen/services/asset.py:209-251 | the order is settled exactly when no two selected rows share a sort key |
| AssetPaging.AnswerIs | src/grcen/services/asset.py:90-252 | an answer that does not fail is the window of the sorted selection, with its total |
| AssetPaging.PagesCoverOnce | src/grcen/services/asset.py:243-251 | without ties the pages, each answered from the table in any physical order, yield every selected row exactly once |
| AssetPaging.PagesCoverIff | src/grcen/services/asset.py:243-251 | for any table of distinct rows the pages do so for every page size and every physical order exactly when the order is settled |
| AssetPaging.BadNumberIff | src/grcen/services/asset.py:230-249 | a listing sorted by an integer field fails exactly when the request is sound and some selected row holds a text the guard lets through with two points, no digit, or more digits than numeric holds |
| AssetPaging.IntegersAndWordsAreSafe | src/grcen/services/asset.py:234-238 | integers of up to 131072 digits and words the guard keeps out never fail it |
| AssetPaging.VersionNumberStopsTheListing | src/grcen/services/asset.py:230-249 | a value such as 1.2.3 does, against the comment above the cast |
| AssetClone.Store.InsertRelationship | src/grcen/services/asset.py:473-478 | one inserted row under a fresh id |
| AssetClone.Store.CopyPass | src/grcen/services/asset.py:468-489 | a copy of every row read before the first insert |
| AssetClone.Store.CloneAsset | src/grcen/services/asset.py:431-494 | nothing without the asset in the organisation; otherwise one asset row, the original's column by column but for name and provenance, and, on request, the two passes, the second seeing the first: a new relationship for every one that leaves or enters the original |
| AssetClone.CloneAdds | src/grcen/services/asset.py:467-489 | adds out-degree + in-degree + self-loops relationships and changes none |
| AssetClone.NoLoopMatches | src/grcen/services/asset.py:467-489 | without a self-loop the clone's neighbourhood is the original's, one to one |
| AssetClone.MatchesIffNoLoop | src/grcen/services/asset.py:467-489 | such a match exists exactly when there is no self-loop; each loop leaves two relationships more |
| AssetClone.FreshIdIsUntouched | src/grcen/services/asset.py:448 | the fresh id has no relationships yet |
| Base64.DecodeEncode | src/grcen/services/encryption.py:78-82 | base64url decoding undoes encoding (section 5 of RFC 4648) |
| Base64.TestVectors | src/grcen/services/encryption.py:78 | the test vectors of section 10 of RFC 4648 and the two letters safe in addresses |
| Base64.EncodeLength | src/grcen/services/encryption.py:78 | four characters per three bytes begun |
| Base64.DecodeShrinks | src/grcen/services/encryption.py:85 | a decoded value is not longer than its text |
| FieldEncryption.Engine.constructor | src/grcen/services/encryption.py:36-47 | empty key caches |
| FieldEncryption.Engine.GetKey | src/grcen/services/encryption.py:60-63 | the cached key is the derived one |
| FieldEncryption.Engine.GetRetiredKey | src/grcen/services/encryption.py:65-70 | the same for the retired key, or none |
| FieldEncryption.Engine.Encrypt | src/grcen/services/encryption.py:74-79 | the prefixed sealed value |
| FieldEncryption.Engine.Decrypt | src/grcen/services/encryption.py:81-96 | active key, then retired key, then an error; unprefixed values as they are |
| FieldEncryption.Engine.EncryptBytes | src/grcen/services/encryption.py:100-104 | nonce and ciphertext |
| FieldEncryption.Engine.DecryptBytes | src/grcen/services/encryption.py:106-117 | active key, then retired key, then an error |
| FieldEncryption.Service.GetEngine | src/grcen/services/encryption.py:134-148 | made on first use; an unusable key is reported by the first call only, later calls find encryption off |
| FieldEncryption.Service.EncryptField | src/grcen/services/encryption.py:154-158 | the engine's answer; without one the value itself, and an error on the very first call when the key is unusable |
| FieldEncryption.Service.DecryptField | src/grcen/services/encryption.py:161-165 | the same for decryption |
| FieldEncryption.RotationReads | src/grcen/services/encryption.py:74-97 | over any line of rotations a value reads back in its own and the next generation and raises in every other |
| FieldEncryption.RotationReadsBytes | src/grcen/services/encryption.py:100-117 | the same for byte blobs |
| FieldEncryption.WrongScopeRaises | src/grcen/services/encryption.py:74-97 | a value asked for under another scope raises |
| FieldEncryption.PlaintextPassesIff | src/grcen/services/encryption.py:81-85 | a stored plaintext reads as itself exactly when it does not begin with the prefix |
| FieldEncryption.LawsArePossible | src/grcen/services/encryption.py:50-58 | the laws asked of the primitives are consistent |
| Lockout.Users.CheckLockout | src/grcen/services/auth.py:122-133 | true exactly while locked_until lies ahead |
| Lockout.Users.RecordFailedLogin | src/grcen/services/auth.py:136-154 | counts, and locks from the threshold on |
| Lockout.Users.RecordSuccessfulLogin | src/grcen/services/auth.py:157-167 | clears both columns |
| Lockout.Users.Login | src/grcen/routers/auth.py:27-43 | check, authenticate, record, as one request on its own |
| Lockout.AdmittedAtMost | src/grcen/services/auth.py:122-154 | any run, any window of it: with w attempts in flight, whose UPDATEs run at most d after their stamps, a span T admits at most (m - 1) + w (T / (L - d) + 1) wrong passwords |
| Lockout.SequentialBound | src/grcen/routers/auth.py:27-38 | one after another, in any window of any run and with any delays: (m - 1) + T / L + 1 |
| Lockout.SequentialBoundIff | src/grcen/routers/auth.py:27-38 | for every policy and delay the sequential bound holds of all runs exactly when attempts are not interleaved |
| Lockout.LateStampBreaksTheBound | src/grcen/services/auth.py:136-154 | a stamp that lands after a later one shortens the lock: with two workers or more and any delay, w - 1 attempts are admitted beyond (m - 1) + w (T / L + 1) |
| Lockout.UndelayedBoundIff | src/grcen/services/auth.py:136-154 | for every policy (m - 1) + w (T / L + 1) bounds all runs exactly when attempts are not interleaved or every UPDATE runs at its stamp |
| Lockout.BoundIsMet | src/grcen/services/auth.py:136-154 | (m - 1) + w (T / L + 1) is reached for every policy, any number of workers and every span: the count is not reset when a lock runs out |
| Lockout.SpansDivide | src/grcen/services/auth.py:136-154 | whole lock lengths in a span are an integer division |
| EncryptionConfig.Globals.constructor | src/grcen/services/encryption_config.py:26-28 | no cache |
| EncryptionConfig.Globals.CacheFresh | src/grcen/services/encryption_config.py:32-33 | fresh for less than 30 seconds after the store |
| EncryptionConfig.Globals.Store | src/grcen/services/encryption_config.py:36-46 | stores what the load read, whatever was stored meanwhile |
| EncryptionConfig.Globals.Lookup | src/grcen/services/encryption_config.py:49-60 | the cached scopes while fresh |
| EncryptionConfig.StartIsFine | src/grcen/services/encryption_config.py:26-29 | the invariant holds of freshly started workers |
| EncryptionConfig.StepKeepsInv | src/grcen/services/encryption_config.py:26-116 | every read, store, write and passage of time keeps each cache's content within reach of the table's history |
| EncryptionConfig.ReturnsAreRecent | src/grcen/services/encryption_config.py:32-60 | whatever a worker returns, the table held it in (t - 30 s - d, t], overlapping loads included |
| EncryptionConfig.WorkersAgree | src/grcen/services/encryption_config.py:75-106 | from 30 s + d after the last write every worker returns what the table holds |
| EncryptionConfig.ReloadCanBeUndone | src/grcen/services/encryption_config.py:36-46 | a load that began before a write can put the old value back after the writer's own reload |
| EncryptionConfig.ReloadSticksIff | src/grcen/services/encryption_config.py:36-60 | after a reload that read behind the last write, the worker hands out nothing else in any run without another write if and only if no other load of it in flight read another value before that write |
| EncryptionConfig.LateReloadSticks | src/grcen/services/encryption_config.py:36-60 | which holds of every reload that finishes more than d after the write |
| EncryptionConfig.ScopesReadBack | src/grcen/services/encryption_config.py:36-46 | the stored list of scopes reads back as the set that was written |
| Calendar.EscapeIsPerCharacter | src/grcen/services/calendar_service.py:67-74 | the four replaces are one map over the characters |
| Calendar.EscapeReadsBack | src/grcen/services/calendar_service.py:67-74 | reading an escaped text gives the text back (section 3.3.11 of RFC 5545) |
| Calendar.EscapeKeepsReturns | src/grcen/services/calendar_service.py:67-74 | no line feed is left, and a carriage return stays exactly where there was one |
| Calendar.Fold | src/grcen/services/calendar_service.py:77-86 | the loop ends for every input and its result is the folded line |
| Calendar.UnfoldFold | src/grcen/services/calendar_service.py:77-86 | unfolding gives back any line without a newline (section 3.1 of RFC 5545) |
| Calendar.LeftIs | src/grcen/services/calendar_service.py:77-86 | what the loop has left after k cuts is a space and the line from character 74 + 73 (k - 1) on |
| Calendar.LinesFitIff | src/grcen/services/calendar_service.py:77-86 | every physical line has at most 75 octets exactly when every window line[..74], ' ' + line[74 + 73 (k - 1)..74 + 73 k] does whose remaining tail is over 75 octets |
| Calendar.AsciiLinesFit | src/grcen/services/calendar_service.py:77-86 | which holds of every ASCII line |
| Calendar.ShortWideLineOverflows | src/grcen/services/calendar_service.py:77-86 | a line of at most 74 characters over 75 octets goes out whole, against the comment in the loop |
| CalendarFeed.BuildIcs | src/grcen/services/calendar_service.py:111-160 | the document is the folded content lines, each ended by CRLF, and its reader finds one event per review |
| CalendarFeed.FeedShowsReviews | src/grcen/services/calendar_service.py:111-160 | in order, each the event of its own review: UID, time stamp, due date, address, summary and description, and the alarm when there is one |
| CalendarFeed.AccentedSummaryOverflows | src/grcen/services/calendar_service.py:77-160 | a review whose accented summary makes the feed emit a physical line over 75 octets |
| CalendarFeed.RenderReadsBack | src/grcen/services/calendar_service.py:160 | unfolding and splitting gives back the content lines |
| CalendarFeed.FeedReadsBack | src/grcen/services/calendar_service.py:111-160 | every review's summary and description read back as the original texts |

## Left out

- The columns created_at and updated_at, other tables that cascade from assets, and the default organisation lookup.
- Metadata values that are not text, and column overflow, which is one more way a statement may raise.
- InventoryRun.Session.SyncInventory: a statement that raises mid-run rolls back as in the catalog; only the catalog's session carries those faults. The same holds of FindingsRun.Session.SyncFindings.
- InventoryRun.Session.LinkOwner: the oldest person or unit is the one with the lowest id; created_at ties between rows of one transaction, which the database may break either way, are broken by the id counter.
- InventoryRun.Session.SyncInventory: asks that rows under the source tag be typed by their ref prefix, which every run keeps. The tag comes with the inventory, so one that borrows another connector's tag can find rows that are not; InventoryRun.ArchivesTheMissingIff needs no such condition and says when a listed row is then archived.
- FindingsRun.Session.SyncFindings: asks the same of refs that begin with finding:.
- The texts of validation errors and warnings of the CMDB and CSPM connectors, and the joined description and metadata fields of a finding, which arrive as given text.
- vuln_sync, hris_sync, generic_sync and framework_service, which ride on the same upserts.
- AssetClone.Store.CloneAsset: tags, criticality and updated_by are copied the same way but are not in the graph rows; each insert commits on its own and a crash between them is not modelled.
- AssetFilters.BuildWhere: local-time rules behind the start of a day, ILIKE itself and integers beyond the driver's range are outside the model; metadata is an object or null.
- update_asset, bulk_update_assets and search_assets: the same placeholder discipline, or ranking.
- TenantContext.BypassNeverEscapes: enable_process_bypass, which turns the bypass on for a whole process with no token to turn it off by, is called by the repository's tests alone and is not one of the constructs.
- TenantPool.AcquireScopes: an organisation text that is not a uuid matches no row here; the policy's cast would raise. The code only ever sets identifiers or the empty text.
- TenantContext.ContextVars.Run: a spawned task's queries are listed where it is spawned; how tasks interleave in time is the subject of TenantPool.
- TenantPool.OthersDoNotInterfere: statements do not set session variables themselves, and neither unique-index conflicts with invisible rows nor foreign-key cascades are modelled.
- AlertTick.AlertStore.TickAlerts: crontab parsing and the next fire time are a function of expression and time; e-mail and webhook delivery inside fire_alert, whose failures are caught, are left out.
- DigestStore.Store.FlushDigests: rendering and SMTP are an outcome per envelope.
- RateLimiter.Limiter.CheckApiRateLimit: the caller key, the route overrides and the token fingerprint cache are inputs; time is real-valued.
- BackupStream.EncryptStream: pg_dump, psql and files on disk; AES-GCM and HKDF are functions with laws.
- FieldEncryption.RotationReads: asks that keys in use not open each other's values, which no law over all 256-bit keys with 16-byte tags could give; blind_index is left out.
- FieldEncryption.Engine.Decrypt: base64 decoding is strict, where Python skips foreign characters; this matters only for texts the engine did not write.
- Lockout.AdmittedAtMost: a correct password, which resets the count, starts a run afresh; runs hold wrong passwords only.
- EncryptionConfig.Globals.Lookup: the empty answer when no key is configured.
- CalendarFeed.BuildIcs: dates, time stamp and the summary label of a type arrive as text.
- HTTP routing, forms, templates, single sign-on, dashboards, and static tables of fields, scopes and permissions.
