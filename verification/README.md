# A verified model of the data layer and the audit gate

The project models three pieces of the repository in Dafny and proves what they promise.

**The eager loader.** A query builder carries a tree of nested builders, one for each edge to load
(`WithGroups`, `WithParent`, ...). Running it issues one query for its own rows and then, for each
nested builder, one batched query, whose results are filed into the rows' `Edges` through in-memory
maps. `Schema` and `Database` give the tables and the meaning of a query. `EagerPlan` defines two
meanings of a nested plan, batched loading and the simple "look up each row's neighbours, then
theirs", and proves them equal. `QueryBuilder` has the builder objects with their mutating methods
and `Clone`; `EagerLoader` has the loaders, as loops over node objects, and proves that the object
graph they leave behind unfolds to the batched trees. `EagerQueries` and `EagerEdges` say what a
query returns and which rows an edge attaches, in the columns of the stored rows themselves.
`EagerOrder`, `EagerRuns`, `EagerColumns`, `EagerPaging` and `EagerResults` draw the consequences:
what an arbitrary order of joined rows does to many-to-many neighbours, second runs, number of
queries, column selections, conservation, accessors, and exactly when a limit or an offset on a
nested builder breaks the equality.

**Creating accounts.** `AccountFields` follows one account from the content of its mutation through
`defaults`, `check` and `createSpec` to a stored row and back through `scanValues` and
`assignValues`. `BulkCreate` has the bulk `Save`: every builder is wrapped in its hooks, and builder
i calls builder i + 1 from inside its own chain. It is proved equal to a straight-line program of
events that stops at the first failure; `BulkResults` reads off the program's order, exactly when
the one batch insert happens, which mutations are done on return, and what the nodes hold.

**The audit gate.** `AuditParser` is the line-oriented parser of the exception list, `AuditGate`
collects the vulnerabilities of an audit report, `AuditVerdict` has the two deciding loops, proved
equal to a declarative statement of what passes, and `AuditResults` proves on what the verdict
depends. `AuditPolicy` says what the report yields and what passes in literal keys and words.

Conventions. Each core object that is updated in place is a class here, with a ghost value
(`Query.plan`, `Saving.world`) that every method states. The generated code repeats one loader
template per edge and one block per field; the model has one loader per relation and drives the
blocks by tables (`Schema.Rel`, `RULES`, `SPEC_FIELDS`, ...) in the order of the source; what the
tables come to is stated without them, by literal fields and columns (`EagerEdges.Linked`,
`AccountFields.Completed`, `AccountFields.HoldsContent`, ...). In the
database model a row is a map in which an absent column is NULL; a query filters and orders rows
stably, and a limit or offset of zero is as good as none, since a query specification cannot tell
the two apart; joined rows come back in any order whatever (`DB.arrange`, of which only
`Database.Permutes` is assumed). `Database.InTargetOrder` names the databases that return them ordered
by target, and the loaded trees are then compared with equality, else by `EagerOrder.Alike`, up to
the order of many-to-many neighbours at any level. A Python exception that nothing catches is the
result `Crash`, and an exit code of 1.

Two differences between the code and its own words: `Clone` says that it returns a duplicate of the
builder, but lock modifiers are not copied (`QueryBuilder.UnlockedIsSame` says exactly when that
matters). The gate's comment calls its `seen` set a removal of duplicates, but a repeated key with
another severity is passed over uncompared, so that the order of the report can decide
(`AuditResults.SeenHides`, `AuditResults.OrderHarmlessExactly`).

## Model

| member | source | states |
|---|---|---|
| EagerPlan.BatchIsNaive | backend/ent/account_query.go:550-844 | for every nested plan without nested limit or offset, on every well-formed database that returns joined rows in target order, and on every one if the plan has no many-to-many edge: batched loading through key sets and maps builds exactly the trees of row-by-row lookup, neighbour order included |
| EagerOrder.BatchIsAlike | backend/ent/account_query.go:550-844 | for every such plan and every well-formed database, whatever the order in which it returns joined rows: the trees of row-by-row lookup, but for the order of many-to-many neighbours at any level |
| EagerOrder.FetchUpToOrder | backend/ent/account_query.go:627-687 | one loader call brings each row the neighbours of its own lookup, each as often, many-to-many ones in some order |
| EagerPlan.FetchIsLookup | backend/ent/account_query.go:627-844 | one loader call, of any of the three templates, brings each row precisely the neighbours of its own lookup, in the same order; a join must return its rows in target order for that |
| EagerPlan.GatherJoin | backend/ent/account_query.go:639-686 | the join restricted to the loaded keys, folded to first appearances, files under each key exactly the targets joined to it, in query order |
| EagerEdges.LookupExactly | backend/ent/account_query.go:691-776 | for each of the 17 edges, in its own columns and tables: a row is among the neighbours that a lookup finds, as often as it is stored, if and only if its key column leads there and the predicates admit it |
| EagerEdges.BatchIsRight | backend/ent/account_query.go:550-844 | the loaded trees show, at every level and on every edge, exactly the rows to which the edge's columns lead, with the chosen columns and besides them keys only, whatever the plan and the order of joined rows |
| EagerEdges.InverseEdges | backend/ent/schema/account.go:213-227 | an account is among the children of another if and only if that is its parent, and likewise for proxies and their accounts, groups and their accounts, and memberships |
| EagerEdges.RunNarrows | backend/ent/account_query.go:704-770 | after a run, a nested builder selects those of its rows to which its edge leads from some of the loaded rows, or is joined once more with their keys |
| EagerQueries.MatchingExactly | backend/ent/account_query.go:882-888 | a query without paging returns each stored row as often as it is stored if every predicate admits it, and else not at all |
| EagerQueries.SortedAndStable | backend/ent/account_query.go:895-901 | the rows come sorted by the first option, in call order, that tells them apart, and in stored order where none does |
| EagerQueries.PagedExactly | backend/ent/account_query.go:889-894 | offset and limit cut out the stretch of these rows that starts after the offset, and no more than the limit |
| EagerLoader.SqlAll | backend/ent/account_query.go:550-625 | the node objects represent the batched trees and share at every level the neighbours they have in common, with the exact number of queries and the exact narrowing left on every nested builder, whatever the order of joined rows; the error results are unreachable |
| EagerLoader.LoadM2O | backend/ent/account_query.go:688-751 | files nodes under their foreign keys, asks once per key, and gives every node the neighbour with its key, nodes with the same key the very same object |
| EagerLoader.LoadO2M | backend/ent/account_query.go:752-784 | files nodes by ID and appends every neighbour to the one node it belongs to, in query order; a nil foreign key never comes back |
| EagerLoader.LoadM2M | backend/ent/account_query.go:627-687 | folds joined rows, in whatever order they come, into one node per target and appends it to all its sources, whose slices share that one object |
| EagerLoader.AttachUnique | backend/ent/account_query.go:710-718 | each node ends up pointing at the very object among the neighbours that carries its key, shared with every other node of that key |
| EagerLoader.AttachSlices | backend/ent/authidentity_query.go:577-590 | each node's slice is the sequence of neighbour objects with its ID, in query order, also over a nullable foreign key |
| EagerLoader.AttachJoined | backend/ent/account_query.go:676-685 | the same for joined neighbours, whatever the order in which the sets of source nodes are iterated |
| EagerLoader.FoldJoined | backend/ent/account_query.go:655-668 | after the scan, each target is kept at its first appearance only and `nids` maps it to precisely its source nodes |
| EagerResults.All | backend/ent/account_query.go:307-314 | the returned graph unfolds to trees alike to the row-by-row ones, equal to them with joins in target order or none; they are those of the plan without column selections showing some of the columns; equal IDs reached along equal edges are one object; with at most one query per builder and one in all for an empty result |
| EagerResults.AllTwice | backend/ent/account_query.go:688-784 | a second run over the same database gives equal trees in separate objects, although the first has narrowed every nested builder |
| EagerRuns.RerunBuildsSameTrees | backend/ent/account_query.go:704-776 | adding the key predicate and the foreign-key field to nested builders at every level changes none of the trees of a further run |
| EagerRuns.QueriesBounded | backend/ent/account_query.go:577-623 | the number of queries is bounded by that of nested builders, not of rows, and is zero below an empty result |
| EagerRuns.OneQueryPerBuilder | backend/ent/account_query.go:701-703 | the same at every level of the plan, none being issued for an empty key set |
| EagerColumns.ColumnsCarryKeys | backend/ent/account_query.go:866-888 | an explicit selection has the ID first and once, keeps every chosen column, and has the foreign key of each many-to-one edge that is loaded |
| EagerColumns.NodeKeyOfScan | backend/ent/accountgroup_query.go:448-489 | a node scanned through any selection files itself under the key of its row, also for the entity without an ID |
| EagerColumns.NeighbourKeyOfScan | backend/ent/account_query.go:762-778 | a neighbour scanned through any selection carries the column it is filed by, so the nil foreign-key error cannot occur |
| EagerColumns.SelectionKeepsEdges | backend/ent/account_query.go:858-902 | whatever is selected at whatever level, and whatever the paging, the trees that the loaders build attach the neighbours they attach without selections and show a part of the same columns |
| QueryBuilder.Query.SelectedColumns | backend/ent/account_query.go:866-888 | the loop of `querySpec` computes the specified columns |
| QueryBuilder.Query.Clone | backend/ent/account_query.go:388-408 | the clone denotes the same nested plan without locks and consists of new objects only |
| QueryBuilder.UnlockedIsSame | backend/ent/account_query.go:388-408 | dropping the locks leaves a plan the same if and only if no builder in it has one |
| QueryBuilder.LockIsLost | backend/ent/account_query.go:942-963 | a builder on which `ForUpdate` or `ForShare` was called is changed by cloning |
| QueryBuilder.Query.RunAll | backend/ent/account_query.go:43-72 | any sequence of builder calls, nested configuration included, keeps the builders a tree and gives the specified plan |
| QueryBuilder.Query.With | backend/ent/account_query.go:412-474 | puts a new builder, configured by the given calls, under the edge in place of any earlier one |
| EagerQueries.WhereNarrows | backend/ent/account_query.go:43-46 | `Where` keeps of the rows those that satisfy its predicates too, in their order |
| EagerQueries.OrderRefines | backend/ent/account_query.go:67-71 | `Order` keeps the rows and their earlier sorting, and sorts by its options what that leaves tied |
| EagerQueries.LimitsCut | backend/ent/account_query.go:48-58 | of several calls the last limit and the last offset count, and they cut the rows as they stand in the end |
| EagerQueries.SelectAdds | backend/ent/account_query.go:511-517 | `Select` adds its columns to the chosen ones, changes no row, and only keys are scanned besides |
| EagerQueries.FlagsLeaveRows | backend/ent/account_query.go:60-65 | `Unique` and locks change no row and no column, and a lock on Postgres takes `Unique` back |
| EagerQueries.WithReplacesOne | backend/ent/account_query.go:412-474 | `With` changes nothing but the nested builder of its own edge |
| EagerResults.CloneAndConfigure | backend/ent/account_query.go:388-408 | however calls on the original and on the clone are interleaved, each ends with the plan of its own calls alone |
| EagerResults.AccessorsReadTree | backend/ent/account.go:109-167 | the accessors tell not asked for, asked for but absent, and loaded apart, and give exactly the tree's neighbours |
| EagerResults.UniqueHasAtMostOne | backend/ent/account_query.go:720-751 | a many-to-one lookup never finds two neighbours, so nothing is overwritten |
| EagerResults.EachKeyOnce | backend/ent/apikey_query.go:497-557 | the key list of a many-to-one loader has each foreign key of the rows once and nothing else |
| EagerResults.OneToManyConserves | backend/ent/authidentity_query.go:529-591 | the slices' lengths add up to the number of neighbours fetched: each is placed exactly once |
| EagerOrder.JoinedTargetsExact | backend/ent/account_query.go:639-686 | for any order of joined rows, each target is kept once, in order of first appearance, and filed under a source if and only if the join pairs them |
| EagerOrder.OwnOrderExactly | backend/ent/account_query.go:655-685 | for any order of joined rows, the targets of a source come in the order of its own joined rows if and only if no two of them first appear in the whole join in the opposite order |
| EagerOrder.TargetMajorKeepsOrder | backend/ent/account_query.go:655-685 | so it is for every source of a join that returns the rows of each target together |
| EagerOrder.JoinOrderIsShared | backend/ent/account_query.go:655-685 | an example of a join on which the two orders differ |
| EagerPaging.NestedLimitLoses | backend/ent/account_query.go:888-893 | for every edge of the three kinds and every limit on the nested builder there is a database, with the source rows in its own tables, on which the last source loses its only neighbour |
| EagerPaging.NestedOffsetLoses | backend/ent/account_query.go:888-893 | for every edge and every offset on the nested builder there is such a database on which the last source gets a neighbour that its own lookup skips |
| EagerPaging.ExactWithoutPagingOnly | backend/ent/account_query.go:627-844 | for every edge, limit and offset: runs that load the edge give the row-by-row trees on all databases (joins in target order) if and only if both are absent or zero; and likewise alike trees on all databases |
| AccountFields.ApplyDefaults | backend/ent/account_create.go:526-585 | computes the specified fields and the field at which a missing default made it give up |
| AccountFields.DefaultsSetOnlyUnset | backend/ent/account_create.go:527-585 | `defaults` keeps what was set, adds nothing but the defaults of unset fields, adds them all on success, and gives up only on one that has no default |
| AccountFields.DefaultsExactly | backend/ent/account_create.go:527-585 | field by field: of the eleven fields with a default, in their order, those unset are set up to the first that has none, and nothing else changes |
| AccountFields.Check | backend/ent/account_create.go:588-662 | succeeds if and only if no rule is violated, and else names the first field at fault in the order of the source |
| AccountFields.PassesExactly | backend/ent/account_create.go:588-662 | the check demands exactly these fourteen fields and valid values of these six |
| AccountFields.OnlyThreeCanBeMissing | backend/ent/account_create.go:527-662 | after a successful `defaults`, only the name, the platform and the type can be missing |
| AccountFields.UnsetDefaultFailsCheck | backend/ent/account_create.go:527-662 | what `defaults` could not set, `check` misses, unless it was set in between |
| AccountFields.MakeSpec | backend/ent/account_create.go:682-886 | the loop over the fields and the edge blocks yield the specified node and spec, with the AccountGroup defaults on the group edge; node, row and edges hold the whole content of the mutation |
| AccountFields.SpecLosesNothing | backend/ent/account_create.go:682-886 | every field that was set is in the node and in the stored row with its value, both foreign keys are those of the edges, and each kind of edge is in the spec once, with its nodes and fields |
| AccountFields.RowIsNode | backend/ent/account_create.go:682-857 | the row that a spec stores holds exactly the fields and foreign keys of the node returned with it |
| AccountFields.Account.AssignValues | backend/ent/account.go:193-417 | the loop assigns column by column as specified and keeps unknown columns aside, reports too few values without touching the node, and stops at the first wrong type or at bytes that do not unmarshal |
| AccountFields.StopsExactly | backend/ent/account.go:193-417 | assigning stops with an error if and only if some known column has another destination than `scanValues` allocates or bytes that do not unmarshal, at the first such column |
| AccountFields.ReadRow | backend/ent/account.go:168-417 | allocating the destinations, scanning a row into them and assigning them gives the specified node |
| AccountFields.CreateThenRead | backend/ent/account.go:168-417 | whatever the mutation and in whatever order columns are read, unknown ones among them, scanning and assigning the spec's row gives back the created node with no error |
| BulkCreate.AccountCreateBulk.Save | backend/ent/account_create.go:2095-2152 | the nested calls have exactly the trace, result and effects of the straight-line program, and change nothing after an earlier error |
| BulkCreate.Saving.Call | backend/ent/account_create.go:2106-2144 | calling a mutator from any of its hooks on does the stations of that hook and of everything inside it, up to the first failure |
| BulkCreate.Saving.SetUp | backend/ent/account_create.go:2102-2145 | all defaults are applied, in order, each builder reading the default times anew, and every builder's chain is wrapped before any chain runs |
| BulkCreate.RunConcat | backend/ent/account_create.go:2115-2130 | what comes after a call happens only if the call succeeded |
| BulkResults.ProgramShape | backend/ent/account_create.go:2102-2151 | all defaults, then builder by builder the hooks from the outside in, check and spec, then one insert, then everything backwards in exactly reversed nesting |
| BulkResults.TraceIsPrefix | backend/ent/account_create.go:2103-2151 | whatever fails, the events are a prefix of that order, and the whole of it on success |
| BulkResults.InsertOnceOrNever | backend/ent/account_create.go:2119-2130 | the insert happens once, after all specs and before anything on the way up, if every builder is ready; and else never |
| BulkResults.BulkRuns | backend/ent/account_create.go:2095-2152 | the closed form of every run: success, inserted specs in builder order, node IDs from each one's own spec, and which mutations are done |
| BulkResults.DefaultsInEveryRun | backend/ent/account_create.go:2105 | however a run ends, a builder whose hooks leave its fields alone has the values that were set and the defaults of its unset fields, up to the first that has none |
| BulkResults.SoundBuildersAreInserted | backend/ent/account_create.go:2103-2130 | builders with valid name, platform and type, whose other required fields are set or have valid defaults, reach the insert, once and with a spec each, if no hook interferes |
| BulkResults.SoundBuildersSucceed | backend/ent/account_create.go:2103-2151 | and if then the insert succeeds and no hook rejects its node, all mutations are done |
| BulkResults.InsertLosesNothing | backend/ent/account_create.go:2117-2130 | when the builders are ready, each inserted row holds every field and key of its mutation as the hooks left it, and its spec every edge |
| BulkResults.OneRejectionStopsAll | backend/ent/account_create.go:2111-2133 | one rejecting hook or failing check anywhere: no insert, failure, nothing done |
| BulkResults.DoneIsSuffix | backend/ent/account_create.go:2131-2139 | the done mutations are those of the last so many builders, and all of them if and only if the insert and the hooks of all builders but the first succeed |
| BulkResults.DefaultsErrorStopsAll | backend/ent/account_create.go:2105-2113 | the discarded error of `defaults` still stops everything if no hook fills the field |
| BulkResults.CreatedNodesReadBack | backend/ent/account_create.go:2117-2139 | a finished node equals what reading the row of its own spec under its own ID gives |
| AuditParser.SplitKeyValue | tools/check_pnpm_audit_exceptions.py:12-20 | splits at the first colon, strips both parts and takes one pair of quotes off, or crashes without a colon |
| AuditParser.SplitQuoted | tools/check_pnpm_audit_exceptions.py:12-20 | whatever stands between two double or two single quote marks is the value, the key being what precedes the first colon, both without blanks around |
| AuditParser.SplitPlain | tools/check_pnpm_audit_exceptions.py:12-20 | a value not between two quote marks of a kind is taken as it stands, and a lone quote mark is lost |
| AuditParser.SplitPrinted | tools/check_pnpm_audit_exceptions.py:12-20 | a field printed with double, single or no quotes splits into the same key and value |
| AuditParser.ParseExceptions | tools/check_pnpm_audit_exceptions.py:23-48 | the loop returns the records of the specified state machine, or crashes with it |
| AuditParser.ParsePrint | tools/check_pnpm_audit_exceptions.py:23-48 | printing any list of printable records, each value in quotes of either kind or in none, and parsing it gives the dictionaries with exactly the printed items, the last of those with the same key |
| AuditParser.NoiseIsIgnored | tools/check_pnpm_audit_exceptions.py:29-45 | two inputs with the same stripped lines that matter parse alike: blanks, comments, headers, lone dashes and indentation make no difference |
| AuditParser.LineIsSkipped | tools/check_pnpm_audit_exceptions.py:29-33 | a blank line, a comment, or one that begins with `version:` or `exceptions:`, indented or not, can be removed anywhere |
| AuditParser.SpaceExactly | tools/check_pnpm_audit_exceptions.py:29 | `strip` removes these 29 characters and no other |
| AuditParser.LoneDashMerges | tools/check_pnpm_audit_exceptions.py:29-45 | a dash alone on a line, anywhere, starts no record: the result is that without the line |
| AuditParser.NoEntryIsLost | tools/check_pnpm_audit_exceptions.py:34-48 | it crashes if and only if some entry's first line has no colon, and else returns one record per line that starts an entry |
| AuditGate.IterVulns | tools/check_pnpm_audit_exceptions.py:64-112 | collects the vulnerabilities of both report shapes as specified, or crashes as specified |
| AuditPolicy.ReportExactly | tools/check_pnpm_audit_exceptions.py:64-112 | a report yields the vulnerabilities of its `advisories`, one each and in order, and then exactly those that its `vulnerabilities` yield |
| AuditPolicy.EntryExactly | tools/check_pnpm_audit_exceptions.py:81-112 | an entry yields one vulnerability for each cause that is a text or has a value under one of five keys, the first in their order, with its name, severity and the titles of its causes; and crashes if and only if one of these is no text |
| AuditPolicy.AdvisoryExactly | tools/check_pnpm_audit_exceptions.py:66-78 | an advisory yields the vulnerability whose name, severity, identifier and title are the first non-empty values under the keys of the source |
| AuditResults.EntryIsExact | tools/check_pnpm_audit_exceptions.py:81-112 | an entry under `vulnerabilities` yields a vulnerability, with its name, severity and joined titles, for each identifier of its causes and for nothing else |
| AuditResults.AdvisoriesAreExact | tools/check_pnpm_audit_exceptions.py:66-78 | each entry under `advisories` yields exactly one vulnerability, in order, and a malformed one crashes |
| AuditResults.PickIsFirst | tools/check_pnpm_audit_exceptions.py:51-61 | an advisory's identifier is the first non-empty one in order of stability, and a malformed CVE list crashes if and only if no stable one precedes it |
| AuditPolicy.PickExactly | tools/check_pnpm_audit_exceptions.py:51-61 | by keys: the GHSA number or URL, else the first CVE, else the number, else the title, advisory or overview |
| AuditVerdict.IndexedExactly | tools/check_pnpm_audit_exceptions.py:156-185 | the first loop finds no error if and only if all exceptions are usable with distinct keys, and the index holds each key's first usable exception in any case |
| AuditVerdict.ScannedExactly | tools/check_pnpm_audit_exceptions.py:187-219 | the second loop complains about nothing if and only if every vulnerability that counts is named and, where its key first occurs, covered |
| AuditVerdict.IndexExceptions | tools/check_pnpm_audit_exceptions.py:156-185 | the loop computes the specified index and errors |
| AuditVerdict.ScanVulns | tools/check_pnpm_audit_exceptions.py:187-219 | the loop computes the specified findings, or crashes on a severity that is no string |
| AuditVerdict.Run | tools/check_pnpm_audit_exceptions.py:142-243 | the exit code is 0 if and only if the declarative gate passes, which names neither index nor `seen` set |
| AuditPolicy.GateExactly | tools/check_pnpm_audit_exceptions.py:156-239 | in literal words: the gate passes if and only if every exception has the five fields, a date and a subject of its own, and every high or critical vulnerability has an identifier and, where first named, an exception for the same package in the same case, the same advisory in any case, its severity, and a date not passed |
| AuditPolicy.UnlistedEntryFails | tools/check_pnpm_audit_exceptions.py:81-210 | a high or critical entry with an identified cause fails the gate if no exception is for its name and that identifier |
| AuditResults.MonotoneInVulns | tools/check_pnpm_audit_exceptions.py:192-219 | vulnerabilities appended at the end of a report never turn a failing gate into a passing one |
| AuditResults.MonotoneInDate | tools/check_pnpm_audit_exceptions.py:187-239 | a gate that passes on a day passes on every earlier day |
| AuditResults.FindingsDistinct | tools/check_pnpm_audit_exceptions.py:192-219 | neither the missing nor the expired list has a key twice |
| AuditResults.SeenHides | tools/check_pnpm_audit_exceptions.py:191-206 | the gate without the `seen` set passes if and only if the gate passes and no vulnerability that counts has another severity than its exception |
| AuditResults.SeenIsHarmless | tools/check_pnpm_audit_exceptions.py:191-206 | with one severity per key the gate's verdict is that of the gate without the set |
| AuditResults.SomeOrderPasses | tools/check_pnpm_audit_exceptions.py:187-219 | some order of the report passes if and only if the exceptions are good, everything that counts is named, and each key has a vulnerability that is covered |
| AuditResults.EveryOrderPasses | tools/check_pnpm_audit_exceptions.py:187-219 | every order of the report passes if and only if, besides, all severities fit their exceptions |
| AuditResults.UnseenIsEveryOrder | tools/check_pnpm_audit_exceptions.py:191-206 | the loops without the `seen` set pass if and only if the loops with it pass in every order |
| AuditResults.OrderHarmlessExactly | tools/check_pnpm_audit_exceptions.py:191-219 | all orders of a report have the same verdict if and only if it is passable in none or all its severities fit |
| AuditResults.OrderIsHarmless | tools/check_pnpm_audit_exceptions.py:191-219 | then, and so with one severity per key, the gate's verdict depends only on which vulnerabilities are reported, not on order or repetition |
| AuditResults.OrderMatters | tools/check_pnpm_audit_exceptions.py:204-215 | a JSON report and an exception file on which, with two severities for a key, swapping two vulnerabilities turns a passing gate into a failing one |
| AuditResults.IdlessEntryIsSilent | tools/check_pnpm_audit_exceptions.py:81-112 | an entry under `vulnerabilities` without any identifier is as good as absent |
| AuditResults.IdlessAdvisoryFails | tools/check_pnpm_audit_exceptions.py:197-202 | a high or critical entry under `advisories` without an identifier fails the gate, whatever the exceptions |

## Left out

- EagerPlan.BatchIsNaive: nested builders have neither a limit nor an offset, unless zero, because the code shares the nested query between all rows; `EagerPaging.ExactWithoutPagingOnly` proves that the equality fails with every other limit and offset. Many-to-many neighbours are in target order only if the joined rows are; `EagerOrder.BatchIsAlike` is what holds without that.
- EagerResults.AllTwice: plans with a many-to-many edge are not rerun, because a second run joins the join table twice and how the SQL library names the two joins is not part of this model.
- A database that returns the same join in two different orders within one run.
- Interceptors (the soft-delete filter among them), path traversals (`QueryGroups`, ...), aggregation, and the check of column names in `prepareQuery`.
- The effect of `Unique` (`DISTINCT`) and of row locks on a query's result; both are carried along in the plan.
- Driver errors: every query succeeds, so the error results that remain are the loaders' own, which are proved unreachable.
- The `with*` pointers are one map from edges to builders and `Edges` is two maps from edges to nodes; an absent edge is a nil pointer or slice. Sharing of a slice's backing array between a builder and its clone is not modelled.
- Edges of `Group`, `Proxy`, `User` and `UsageLog` other than those between the modelled entities.
- SQL text, transactions and the 64-bit width of IDs, which are only compared.
- Conflict and upsert options, update builders, and the setters of single fields.
- BulkCreate.AccountCreateBulk.Save: the builders have different mutations, hooks call the next mutator exactly once with the mutation they were given and hand its error on, and what a hook does depends on the mutation or the node alone.
- The error values of `Save`: only whether it fails is modelled; the wrapping of constraint errors changes the message alone.
- AccountFields.CreateThenRead: JSON documents and times are abstract values, stored bytes that are no JSON document being a single one, that the database gives back unchanged, and so are numbers; the rounding of `rate_multiplier` in its decimal column is not modelled.
- The Python tool's arguments, file reading, JSON decoding and printed messages; the errors are values here. Lower case, the text of values that are no strings, and the ISO dates are parameters about which nothing is assumed.
