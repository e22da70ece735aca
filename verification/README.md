# MeshMCP contract graph: a verified model

MeshMCP keeps an in-memory graph of the contracts of a workspace (services, RPCs, topics, imports) with many derived
indices, and rebuilds it incrementally when files change. This project models that graph and the algorithms around it in
Dafny and proves what the system claims about them:

- **Contract graph.** `ContractGraph.dfy` is the graph as a class; `Imports`, `ImportPass`, `TopicPass`, `Handlers`,
  `HandlerIndex`, `HandlerPass`, `CallPass` and `EdgeLog` are the stages of one derivation, proved against definitions
  over the node table alone (`ImportMeaning`, `RpcMeaning`, `Reconciled`). `ImportCases`, `TopicCases`, `HandlerCases`
  and `CallCases` say case by case, from how names are spelled and declared, which edges a derived graph shows;
  `PrintedFacts` says that its printed lines leave nothing recorded out. `Workspace`, `Renaming`, `Canonical`,
  `Convergence`, `Capture`, `Places` and `Reload` prove exactly when any sequence of edits prints what a rebuild prints,
  and exactly when deriving twice changes nothing. `SideConditions` and `Truncation` run the graph through the cases in
  which each fails.
- **Impact walk.** `Impact`, `ImpactTarget` and `ImpactOnGraph`: the bounded walk over publish and subscribe edges is an
  exact breadth-first search from the nodes a target names.
- **Audit log.** `Audit`, `Calendar` and `Timestamps`: the hash chain under concurrent writers, what tampering is caught,
  and date arithmetic that refines a day-by-day Gregorian calendar.
- **Caches.** `SearchCache` (a result cache racing snapshot installs) and `IndexCache` (a parse cache with eviction under
  a quota, shared by processes).
- **Text and properties.** `PhraseFilter`, `EditDistance` and `Properties`.

Two documented claims do not hold of the code in general, and the model follows the code. Idempotence and "reload equals
rebuild" (`contracts.rs`, lines 923-933) can fail when a topic hub captures an import, because imports are resolved before
hubs are refreshed. `Reload.Idempotent` says exactly when a second derivation changes the edges: when a hub the first one
dropped or created takes an import. `Reload.ReloadEqualsRebuild` says exactly when a reload prints other lines than a
rebuild: when a hub it started from captures an import; `Reload.EditThenCompare` reads that off the files before and
after the last edit. The claim that placeholder resolution is derived afresh each time
(`properties.rs`, lines 174-180) fails for a key that once resolved to a mask; `Properties.AsRebuiltIffCurrent` says
exactly when.

Hypotheses that appear in the theorems:

- Everywhere in the graph: package `event-bus` and the hubs' repository id are reserved for hubs (`contracts.rs`, lines
  1009-1023, removes other stream nodes of that package), a file's facts name its own nodes, lower-casing leaves a topic
  key alone, and `.` is not alphanumeric.
- Only where two builds are compared: each imported (package, name) pair is declared at most once and no wildcard
  subscription hears more than 256 producers (`Places.Comparable`, over the files). `SideConditions.TwoOrders` and
  `Truncation.CrowdTwoOrders` are runs that need them. Idempotence needs neither.
- For placeholder chains: `Properties.AsRebuiltIffCurrent` and `Properties.OrderFreeIffSettled` are exact for chains of
  any length. The sharper one-order statements are for a key whose placeholder names no placeholder (`OneLink`).
- Hashes have 64 characters. Where a statement needs hashing to be injective it says instead: or these two texts collide.

## Model

| member | source | states |
|---|---|---|
| `Subjects.IsSubjectPattern` | crates/mesh-core/src/contracts.rs:22-31 | the token loop answers exactly whether some token is the one-level wildcard or the last token is the multi-level one, in the dialect the separator picks |
| `Subjects.SubjectMatches` | crates/mesh-core/src/contracts.rs:35-54 | the token loop equals the recursive meaning of a subscription, including that a topic with an empty token matches nothing |
| `Subjects.CoversExactly` | crates/mesh-core/src/contracts.rs:43-53 | without a final multi-level wildcard a pattern matches token by token and only topics of its own length |
| `Subjects.CoversRest` | crates/mesh-core/src/contracts.rs:45-48 | a final `#` also matches its parent level (section 4.7.1.2 of MQTT 5.0), a final `>` needs one more token; every earlier token must fit |
| `Subjects.LiteralMatchesItself` | crates/mesh-core/src/contracts.rs:22-54 | a key that is no pattern matches itself and nothing else |
| `Imports.FirstMap` | crates/mesh-core/src/contracts.rs:3118-3134 | the shared map gives, for every package, the first entry of the bucket in that package |
| `Imports.FilterTargetFile` | crates/mesh-core/src/contracts.rs:813-838 | filtering with remembered module keys keeps exactly the candidates a rescan keeps, in order |
| `Imports.MemoFirst` | crates/mesh-core/src/contracts.rs:738-755 | the memoised fully-qualified lookup equals scanning the name bucket |
| `Imports.MemoStem` | crates/mesh-core/src/contracts.rs:796-847 | the memoised relative-import lookup equals scanning and filtering the stem bucket |
| `Imports.ResolveMemoised` | crates/mesh-core/src/contracts.rs:724-859 | for every fact and any memo built so far, memoised resolution returns the candidates, order and confidence of direct resolution |
| `ImportMeaning.FirstIsLeast` | crates/mesh-core/src/contracts.rs:739-754 | the first bucket entry of a package is the least node id that declares the name there |
| `ImportMeaning.PickMeans` | crates/mesh-core/src/contracts.rs:667-693 | picking from a bucket is the choice read off the node table: a lone candidate, else a lone one of the importer's repository, else the whole tie as ambiguous |
| `ImportMeaning.ResolveMeans` | crates/mesh-core/src/contracts.rs:724-859 | with coherent indices, resolution means the same set of targets and confidence as a definition over the node table alone |
| `ImportPass.SortedFacts` | crates/mesh-core/src/contracts.rs:944-949 | the import facts, sorted by importer and target, each as often as recorded |
| `ImportPass.ReconcileImports` | crates/mesh-core/src/contracts.rs:936-990 | the pass emits exactly one edge per importer and target node, labelled by the least import text that reaches it, and nothing else |
| `Text.LastSegmentAt` | crates/mesh-core/src/contracts.rs:3270-3276 | the last segment of `a.b` is `b`, for every `a` and dot-free `b` |
| `Text.LessAt` | crates/mesh-core/src/contracts.rs:944-949 | of two texts the first character in which they differ decides the order |
| `Text.LessPrefix` | crates/mesh-core/src/contracts.rs:944-949 | a text sorts before every longer one it begins |
| `ImportCases.SplitsAtDot` | crates/mesh-core/src/contracts.rs:638-655 | `p.n` is the package `p` and the name `n`: the cut is at the last dot |
| `ImportCases.SplitsAtPath` | crates/mesh-core/src/contracts.rs:638-655 | `a::b::n` is the package `a.b` and the name `n`: the cut is at the last `::`, and the others are read as dots |
| `ImportCases.SplitsNowhere` | crates/mesh-core/src/contracts.rs:638-655 | a text without separators, or with nothing on one side of its only dot, names no package |
| `ImportCases.PairImport` | crates/mesh-core/src/contracts.rs:738-755 | in a derived graph an import of a pair is shown as an edge to the first node that carries the name in the package, exactly, and to nothing else |
| `ImportCases.DottedImport` | crates/mesh-core/src/contracts.rs:738-755 | an import of `p.n`, declared once, is shown as an edge to that node, exactly, whatever else is declared |
| `ImportCases.PathImport` | crates/mesh-core/src/contracts.rs:738-755 | the same for `a::b::n` and package `a.b` |
| `ImportCases.SlashedImport` | crates/mesh-core/src/contracts.rs:756-760 | with no such pair, a node whose package and name joined by a slash spell the import is the target, exactly |
| `ImportCases.LoneImport` | crates/mesh-core/src/contracts.rs:785-791 | a bare name that one node answers to leads there, as a guess, across repositories |
| `ImportCases.OwnImport` | crates/mesh-core/src/contracts.rs:667-693 | of several nodes of the name the only one of the importer's repository is the target |
| `ImportCases.TiedImport` | crates/mesh-core/src/contracts.rs:667-693 | several of the importer's repository are all shown, as ambiguous, and none of another |
| `ImportCases.ElsewhereImport` | crates/mesh-core/src/contracts.rs:667-693 | several elsewhere and none of the repository are all shown, as ambiguous |
| `ImportCases.BuiltinImport` | crates/mesh-core/src/contracts.rs:763-784 | a Node.js builtin, also with a subpath or `node:`, leads to nodes of the importer's repository only |
| `ImportCases.RelativeImport` | crates/mesh-core/src/contracts.rs:793-847 | a relative import leads to nodes of the repository that answer to its stem and, from a script, are declared in the file it names |
| `ImportCases.PackageImport` | crates/mesh-core/src/contracts.rs:849-857 | a qualified text that names a whole package leads to its one node |
| `ImportCases.UnknownImport` | crates/mesh-core/src/contracts.rs:859-861 | an import that names nothing is no edge |
| `TopicPass.ConcreteSubjects` | crates/mesh-core/src/contracts.rs:1107-1153 | the sorted keys that have producers and are no patterns |
| `TopicPass.LinkDirect` | crates/mesh-core/src/contracts.rs:1068-1106 | every registered producer and consumer of a key is linked to its hub, and nothing else |
| `TopicPass.LinkWildcard` | crates/mesh-core/src/contracts.rs:1107-1153 | the wildcard loop links exactly the producers kept: the first 256 the subscription hears, in subject and then bucket order, each by its least matching subject |
| `TopicPass.LinkTopic` | crates/mesh-core/src/contracts.rs:1028-1158 | a hub has a publish edge from p if and only if p is registered on the key, or the key is a pattern with a non-Kafka, non-queue consumer, p does not consume it and p is among the first 256 producers of a concrete subject it matches; exact with or without truncation |
| `TopicPass.InitialIsKept` | crates/mesh-core/src/contracts.rs:1128-1153 | a part of the heard producers that contains every earlier one, and is everything or is full, is the part kept |
| `TopicPass.KeptCount` | crates/mesh-core/src/contracts.rs:1128-1153 | as many producers are kept as are heard, up to 256 |
| `TopicPass.AllKept` | crates/mesh-core/src/contracts.rs:1128-1153 | with at most 256 heard, all are kept |
| `TopicCases.RegisteredLinked` | crates/mesh-core/src/contracts.rs:1068-1106 | each registered producer publishes to the hub of its key and each registered consumer hears it; a marked node as a guess |
| `TopicCases.SubscriptionsRegistered` | crates/mesh-core/src/contracts.rs:1068-1106 | every subscription leads from the hub of a key to a consumer registered on it |
| `TopicCases.PublishesRegistered` | crates/mesh-core/src/contracts.rs:1068-1153 | every publish is by a producer registered on the hub's key, or by one heard through a concrete subject its pattern matches, which does not consume the key |
| `TopicCases.HeardLinked` | crates/mesh-core/src/contracts.rs:1107-1153 | with at most 256 heard, every heard producer publishes to the hub, labelled by its least subject, as a guess |
| `TopicCases.LesserSubjectFirst` | crates/mesh-core/src/contracts.rs:1107-1153 | producers of a lesser subject come before those heard on greater subjects only |
| `TopicCases.EndsInWildcard` | crates/mesh-core/src/contracts.rs:22-31 | `a.*`, `a.>`, `a/+` and `a/#` are patterns |
| `TopicCases.NoWildcard` | crates/mesh-core/src/contracts.rs:22-31 | a text without the wildcard characters of its dialect is none |
| `TopicCases.OneMoreToken` | crates/mesh-core/src/contracts.rs:35-54 | `a.*` and `a/+` match exactly the topics one non-empty token below `a` |
| `TopicCases.AnyMoreTokens` | crates/mesh-core/src/contracts.rs:35-54 | `a.>` and `a/#` match everything below `a`; `a/#` matches `a` and `a.>` does not |
| `Handlers.MatchBareNames` | crates/mesh-core/src/contracts.rs:3270-3291 | the character-by-character comparison equals equality of last segments up to ASCII case and underscores |
| `Handlers.SignatureContainsBare` | crates/mesh-core/src/contracts.rs:3293-3318 | the scan finds a hit exactly when some occurrence of a prefix is followed by the name or by an identifier that matches it |
| `Handlers.Judge` | crates/mesh-core/src/contracts.rs:1216-1264 | a handler is accepted for an RPC exactly by the five-way predicate: exact, case-folded, Pascal, underscore-free, signature |
| `HandlerIndex.SignatureIdents` | crates/mesh-core/src/contracts.rs:3179-3223 | the identifiers collected from a signature are exactly those following a prefix |
| `HandlerIndex.Build` | crates/mesh-core/src/contracts.rs:3179-3223 | each key lists exactly the handlers that have it, the identifier list is sorted and complete, and every handler with a signature is in the fallback list |
| `HandlerIndex.PrefixRange` | crates/mesh-core/src/contracts.rs:3238-3250 | the run from the partition point on is exactly the handlers with an identifier that starts with the name |
| `HandlerIndex.PartitionPoint` | crates/mesh-core/src/contracts.rs:3241-3243 | the binary search finds where the sorted list stops being less than the name |
| `HandlerIndex.SignatureHitJoined` | crates/mesh-core/src/contracts.rs:3225-3256 | a signature match is reached through identifier keys, the prefix range or the fallback for names with other characters |
| `HandlerIndex.NeverPruned` | crates/mesh-core/src/contracts.rs:3153-3256 | for every handler and RPC name, a pair the predicate accepts is among the candidates |
| `HandlerIndex.Candidates` | crates/mesh-core/src/contracts.rs:3225-3256 | the candidate list is sorted, free of repeats, in range, and contains every accepted handler |
| `HandlerPass.ConstTable` | crates/mesh-core/src/contracts.rs:1974-2037 | the table of recorded constants holds exactly the recorded (repository, value) pairs of each name |
| `HandlerPass.LiteralOf` | crates/mesh-core/src/contracts.rs:2043-2073 | a quoted expression or a constant with one value in the caller's repository, else one value overall, resolves; anything else does not |
| `HandlerPass.ResolveHandlerNames` | crates/mesh-core/src/contracts.rs:1974-2037 | a handler is renamed to the RPC its last resolvable reference names, when that names exactly one declared RPC |
| `HandlerPass.CollectHandlers` | crates/mesh-core/src/contracts.rs:1164-1209 | the handler list holds each handler node once, under its resolved name |
| `HandlerPass.ReconcileHandlers` | crates/mesh-core/src/contracts.rs:1160-1267 | the indexed pass emits exactly the edges of the all-pairs pass, with the same confidences |
| `HandlerCases.HandlerLinked` | crates/mesh-core/src/contracts.rs:1216-1264 | in a derived graph a handler is linked to the RPC `s.m` if and only if it is named so or `m` up to case, or its Pascal case is `m`, or its last segment is `m` up to case and underscores, or its signature names `m`; exactly for the full name only |
| `HandlerCases.BareHandlerLinked` | crates/mesh-core/src/contracts.rs:1216-1264 | a handler named `m` is linked to every live RPC `s.m`, for every `s` and dot-free `m` |
| `HandlerCases.StartMeans` | crates/mesh-core/src/contracts.rs:3293-3318 | what follows a prefix in a signature is found wherever it stands |
| `HandlerCases.DecoratedHandlerLinked` | crates/mesh-core/src/contracts.rs:1974-2037 | a decorator that names one declared RPC overrides the node's name: the handler is linked to that RPC exactly, and otherwise as if it had that name |
| `HandlerCases.ConstantLiteral` | crates/mesh-core/src/contracts.rs:2043-2073 | a name stands for the one value recorded in the repository, else for the one recorded anywhere, else for nothing |
| `HandlerCases.NoHandler` | crates/mesh-core/src/contracts.rs:1164-1209 | nodes of proto files and nodes named after a pattern implement nothing |
| `CallPass.GroupByPackage` | crates/mesh-core/src/contracts.rs:696-716 | grouping lists, for each package, exactly the ids a scan of the list would keep, in order |
| `CallPass.PickIsScan` | crates/mesh-core/src/contracts.rs:3005-3041 | the grouped lookup returns what scanning the candidate list for the caller's package returns |
| `CallPass.PickAgrees` | crates/mesh-core/src/contracts.rs:3016-3041 | a lone candidate, else a lone one of the caller's package, wins; otherwise the whole tie is ambiguous |
| `CallPass.BuildTables` | crates/mesh-core/src/contracts.rs:1269-1324 | the full-name and bare-name tables list exactly the proto methods and declared services of each folded name, once each |
| `CallPass.ResolveTargetOf` | crates/mesh-core/src/contracts.rs:1496-1526 | the indexed target lookup equals choosing from the node table: full name first, then bare name |
| `CallPass.ResolveCallOf` | crates/mesh-core/src/contracts.rs:1436-1471 | an unprefixed call additionally drops the gRPC health service, and only there |
| `CallPass.ResolveMethodOf` | crates/mesh-core/src/contracts.rs:1405-1435 | a method-level call resolves by exact `Service.Method` only |
| `CallPass.InheritedOf` | crates/mesh-core/src/contracts.rs:2128-2160 | a call through an inherited field resolves against the base class's recorded binding, else by the field-name inference |
| `CallPass.CallOutcomeOf` | crates/mesh-core/src/contracts.rs:1341-1485 | each recorded call resolves, in its dialect, to the targets the node table and the records determine |
| `CallPass.FieldTable` | crates/mesh-core/src/contracts.rs:1325-1339 | the table of inherited field bindings holds exactly the recorded (repository, service) pairs of each class and field |
| `CallPass.ServedTable` | crates/mesh-core/src/contracts.rs:1893-1927 | what each handler serves, as its own records and resolved name say |
| `CallPass.YieldsByCaller` | crates/mesh-core/src/contracts.rs:1341-1485 | which record labels a call edge depends only on the order of that caller's own records |
| `CallPass.ReconcileCalls` | crates/mesh-core/src/contracts.rs:1269-1485 | the pass emits exactly one edge per caller and target, labelled by the caller's first record that reaches it |
| `CallCases.FullNameFirst` | crates/mesh-core/src/contracts.rs:1496-1526 | nodes of the call's full name are looked for first; RPCs of its bare name only when there are none |
| `CallCases.FullNameCall` | crates/mesh-core/src/contracts.rs:1436-1471 | when some node carries the full name, every target of the call does, and a lone one is the target, exactly |
| `CallCases.LabelledByFullName` | crates/mesh-core/src/contracts.rs:1496-1526 | in a derived graph an edge labelled by a declared full name leads to a node of that name |
| `CallCases.FullNameEdge` | crates/mesh-core/src/contracts.rs:1326-1486 | a lone record of a full name one node carries is one edge, to it, exactly |
| `CallCases.BareNameEdges` | crates/mesh-core/src/contracts.rs:1326-1486 | a lone record of an undeclared full name is a guessed edge to the RPC of its bare name, or several ambiguous ones, the caller's package first |
| `CallCases.FirstRecord` | crates/mesh-core/src/contracts.rs:1326-1486 | of several records that reach a node the first one labels the edge |
| `CallCases.ServiceCall` | crates/mesh-core/src/contracts.rs:1436-1471 | a call without a target is tried again with `Service` appended, unless it ends so or names the health client |
| `CallCases.ExactCall` | crates/mesh-core/src/contracts.rs:1405-1435 | `=S.m` means nodes of exactly that name |
| `CallCases.GuessedCall` | crates/mesh-core/src/contracts.rs:1377-1435 | `~S.m` means the same as a guess, and nothing inside the handler that serves it |
| `CallCases.InheritedCall` | crates/mesh-core/src/contracts.rs:2128-2160 | `^Base#field.m` means method `m` of the one service the class binds the field to |
| `CallCases.GuessedBinding` | crates/mesh-core/src/contracts.rs:2128-2160 | with no binding the service is guessed from the field's name |
| `CallCases.EmptyBinding` | crates/mesh-core/src/contracts.rs:2128-2160 | bound to nothing but empty services it is no call |
| `CallCases.FieldService` | crates/mesh-core/src/contracts.rs:2128-2160 | `fooService` and `fooClient` are guessed to be `FooService` |
| `CallCases.DelegatesMeans` | crates/mesh-core/src/contracts.rs:1377-1403 | a guess delegates what the handler serves when service and method agree, cases apart |
| `CallCases.HealthNameMeans` | crates/mesh-core/src/contracts.rs:1528-1536 | the health service's full name in any case, alone or before a dot |
| `CallCases.HealthServiceMeans` | crates/mesh-core/src/contracts.rs:1538-1554 | a node of the stock health service: a service named so, or a method of one, in its package or outside proto files |
| `Graph.ContractGraph.constructor` | crates/mesh-core/src/contracts.rs:377-380 | an empty graph is coherent |
| `Graph.ContractGraph.AddNode` | crates/mesh-core/src/contracts.rs:417-460 | the node gets the next id, and each attribute index stays the one recomputed from the node table in id order, with multiplicity and no empty bucket |
| `Graph.ContractGraph.AddDependency` | crates/mesh-core/src/contracts.rs:488-494 | the fact is appended to its bucket and nothing else changes |
| `Graph.ContractGraph.AddProducer` | crates/mesh-core/src/contracts.rs:496-502 | the fact is appended under the normalised key |
| `Graph.ContractGraph.AddConsumer` | crates/mesh-core/src/contracts.rs:504-511 | the fact is appended under the normalised key |
| `Graph.ContractGraph.AddRpcCall` | crates/mesh-core/src/contracts.rs:526-529 | the call is appended to the list of calls |
| `Graph.ContractGraph.MarkHeuristicTopicNode` | crates/mesh-core/src/contracts.rs:513-516 | the node is marked and nothing else changes |
| `Graph.ContractGraph.RemoveNodes` | crates/mesh-core/src/contracts.rs:574-626 | touching only the buckets of the removed nodes leaves every index equal to the one recomputed from the smaller table |
| `Graph.ContractGraph.PatchFiles` | crates/mesh-core/src/contracts.rs:537-566 | exactly the nodes of the files go, with every fact and edge about them; indices stay coherent |
| `Graph.ContractGraph.EnsureHub` | crates/mesh-core/src/contracts.rs:1028-1066 | the key has its one hub afterwards, found or created |
| `Graph.ContractGraph.DropStaleHubs` | crates/mesh-core/src/contracts.rs:1002-1023 | exactly the hubs of keys without a fact go |
| `Graph.ContractGraph.LinkTopics` | crates/mesh-core/src/contracts.rs:1024-1158 | after the loop every live key has its hub and exactly its edges |
| `Graph.ContractGraph.RefreshHubs` | crates/mesh-core/src/contracts.rs:993-1158 | stale hubs go, every live key gets its one hub, nothing else in the table changes, no id is reused, and the hub edges are exactly the topic edges |
| `Graph.LinkRpcs` | crates/mesh-core/src/contracts.rs:1160-1485 | the two RPC stages complete the edges to exactly the derived ones |
| `Graph.ContractGraph.ReconcileEdges` | crates/mesh-core/src/contracts.rs:934-1486 | one derivation: indices stay coherent, hubs are exactly the keys with a fact, no two edges share (from, to, kind), and the edges are exactly the derived ones, imports being resolved against the table the call started from |
| `Workspace.RepresentsAdd` | crates/mesh-parsers/src/languages/mod.rs:221-241 | folding a file adds exactly its nodes and facts to the workspace the graph stands for, whatever ids it hands out |
| `Workspace.RepresentsPurge` | crates/mesh-core/src/contracts.rs:537-566 | purging files removes exactly their part of the workspace |
| `Indexer.Apply` | crates/mesh-parsers/src/languages/mod.rs:221-241 | one folded file: nodes in order under the next ids, facts recorded under those ids, hubs and coherence kept |
| `Renaming.MeaningIso` | crates/mesh-core/src/contracts.rs:724-859 | import resolution commutes with any renaming of node ids, when the imported pair is declared at most once |
| `Renaming.TopicEdgeIso` | crates/mesh-core/src/contracts.rs:1028-1158 | hub edges commute with renaming, unless the subscription is truncated |
| `Renaming.ImplementsEdgeIso` | crates/mesh-core/src/contracts.rs:1160-1267 | handler edges commute with renaming |
| `Renaming.CallEdgeIso` | crates/mesh-core/src/contracts.rs:1269-1485 | call edges commute with renaming |
| `Capture.NotCaptured` | crates/mesh-core/src/contracts.rs:943-990 | an import that no hub of the table captures resolves as if there were no hubs |
| `Capture.MeaningUntaken` | crates/mesh-core/src/contracts.rs:943-990 | leaving out hubs that do not take an import changes nothing about what it resolves to |
| `Capture.HubHit` | crates/mesh-core/src/contracts.rs:724-859 | an import resolves to a hub if and only if that hub takes it: by its qualified name, or by its bare name when no hub qualifies and the repository declares none |
| `Capture.SameImportEdges` | crates/mesh-core/src/contracts.rs:943-990 | two tables of the same sources resolve imports to the same edges if and only if no hub of the one that the other lacks takes an import |
| `Capture.HubsShowIffCaptured` | crates/mesh-core/src/contracts.rs:943-990 | hubs left from an earlier call change the import edges if and only if one captures an import: by its qualified name, by its fully-qualified key, or by its bare name when the importer's repository declares none |
| `Canonical.NodesCanon` | crates/mesh-core/src/contracts.rs:3337-3386 | renaming ids leaves the printed nodes alone, repeats included |
| `Canonical.EdgesCanon` | crates/mesh-core/src/contracts.rs:3337-3386 | renaming ids leaves the printed edges alone |
| `Canonical.BucketsCanon` | crates/mesh-core/src/contracts.rs:3337-3386 | renaming ids leaves the printed facts alone |
| `Canonical.CallsCanon` | crates/mesh-core/src/contracts.rs:3337-3386 | renaming ids leaves the printed calls alone, as a multiset |
| `PrintedFacts.LinesTellAll` | crates/mesh-core/src/contracts.rs:3328-3400 | equal lines imply as many nodes of each content, as many edges between each two contents, and every import, publish, subscription and call recorded as often by nodes of each content |
| `PrintedFacts.DifferentFactsDifferentLines` | crates/mesh-core/src/contracts.rs:3328-3400 | graphs of two workspaces that differ in a node or in a recorded fact print different lines |
| `Convergence.DerivedLive` | crates/mesh-core/src/contracts.rs:934-1486 | both ends of every edge derived without leftover hubs are live nodes |
| `Convergence.SameWorkspaceSameLines` | crates/mesh-core/src/contracts.rs:3329-3386 | two up-to-date graphs of one workspace print the same lines, whatever their histories and ids, when imported pairs are declared once and nothing is truncated |
| `Reload.Purge` | crates/mesh-server/src/indexer.rs:1005-1012 | purging keeps the graph standing for the remaining files, and keeps the hubs |
| `Reload.FoldAll` | crates/mesh-server/src/indexer.rs:1022-1024 | folding the changed files keeps the graph standing for the workspace, and keeps the hubs |
| `Reload.Derive` | crates/mesh-core/src/contracts.rs:934-1486 | a derivation leaves what a build from scratch would leave if and only if no import is captured by a hub of the table it started from; every edge end is live if and only if no hub it dropped takes an import |
| `Reload.FoldOne` | crates/mesh-server/src/indexer.rs:1460-1468 | folding one file extends the workspace the graph stands for by exactly that file, and keeps the hubs |
| `Reload.UpdateMeans` | crates/mesh-server/src/indexer.rs:1000-1030 | after a batch a changed file is as changed, a deleted one is gone and every other is as before |
| `Reload.EndsLiveIffNoneDropped` | crates/mesh-core/src/contracts.rs:934-1066 | both ends of every edge of a derivation are live if and only if no hub it dropped takes an import |
| `Reload.ReloadBatch` | crates/mesh-server/src/indexer.rs:1000-1030 | one incremental reload stands for the updated workspace; its derivation starts from hubs of exactly the old keys, or from none when the batch purges the path the hubs carry |
| `Reload.ReloadAll` | crates/mesh-server/src/indexer.rs:1000-1030 | after every sequence of batches: the last derivation started from hubs of exactly the topics named before the last batch, and the edges are those of a rebuild if and only if none of those topics captures an import of the current files |
| `Reload.Rebuild` | crates/mesh-server/src/indexer.rs:346-392 | a build from scratch, in any file order, is up to date |
| `Reload.UpToDateIffNotCaptured` | crates/mesh-core/src/contracts.rs:923-990 | derived edges equal those resolved without hubs if and only if nothing is captured |
| `Reload.CapturedLine` | crates/mesh-core/src/contracts.rs:943-1066 | a captured import prints an import edge to a hub or to a missing node |
| `Reload.CapturedDiffers` | crates/mesh-core/src/contracts.rs:943-1066 | with a captured import the lines differ from those of every up-to-date graph |
| `Reload.ReloadEqualsRebuild` | crates/mesh-core/src/contracts.rs:923-1486 | an incremental reload prints the lines of a rebuild if and only if no import is captured by a hub it started from |
| `Reload.ReloadPrintsRebuild` | crates/mesh-core/src/contracts.rs:923-1486 | the same for two graph objects standing for one workspace |
| `Reload.EditThenCompare` | crates/mesh-server/src/indexer.rs:1000-1030 | end to end, any sequence of batches from an empty graph against one build of the final files in any order: the lines differ whenever a topic named before the last batch captures an import of the final files; for files whose imported pairs are declared once and whose subscriptions are not truncated they are the same if and only if none does; so they are when no import is spelled like such a topic |
| `Reload.CompareLines` | crates/mesh-core/src/contracts.rs:923-1486 | a derived graph and an up-to-date one of the same files: a captured import makes the lines differ, and otherwise they agree for comparable files |
| `Places.TopicIffNamed` | crates/mesh-parsers/src/languages/mod.rs:221-240 | in every graph of a workspace a key has facts if and only if some file names it |
| `Places.RawTopicNamed` | crates/mesh-parsers/src/languages/mod.rs:221-240 | what a file publishes or listens to is named by its normalised key |
| `Places.CaptureReadOffFiles` | crates/mesh-core/src/contracts.rs:724-859 | whether a hub would capture an import can be read off what the files declare |
| `Places.CapturedIffByFiles` | crates/mesh-core/src/contracts.rs:923-990 | hubs of exactly the topics some files name capture an import of other files if and only if those two sets of files say so |
| `Places.ApartUncaptured` | crates/mesh-core/src/contracts.rs:724-859 | no import spelled like a topic, no capture |
| `Places.UniqueInGraph` | crates/mesh-core/src/contracts.rs:739-754 | pairs are declared at one place of the files if and only if they are declared once in every graph of them |
| `Places.UntruncatedInGraph` | crates/mesh-core/src/contracts.rs:1107-1153 | subscriptions hear at most 256 places of the files if and only if none is truncated in any graph of them |
| `Reload.Idempotent` | crates/mesh-core/src/contracts.rs:923-1486 | from any table, a second derivation leaves the nodes alone, and the edges too if and only if no hub the first one dropped or created takes an import |
| `Reload.DeriveTwice` | crates/mesh-core/src/contracts.rs:934-1486 | the same as two calls on any graph object |
| `Reload.SteadyByCapture` | crates/mesh-core/src/contracts.rs:923-990 | read by capture: starting with none captured, the edges stay if and only if none is captured afterwards; captured before and not afterwards, they change |
| `Reload.SettledAfterTwo` | crates/mesh-core/src/contracts.rs:934-1486 | from the second derivation on nothing changes, captured imports, truncated subscriptions or not |
| `SideConditions.OrderFreeIffDeclaredOnce` | crates/mesh-core/src/contracts.rs:739-754 | an import resolves independently of node ids if and only if its qualified pair is declared at most once |
| `SideConditions.SwappedHomonyms` | crates/mesh-core/src/contracts.rs:739-754 | two declarations of the pair: exchanging two ids changes the answer |
| `SideConditions.PlainCaptured` | crates/mesh-core/src/contracts.rs:943-1066 | every plain, non-builtin name is taken by the hub of that name unless the importer's repository declares it |
| `SideConditions.PlainImportTaken` | crates/mesh-core/src/contracts.rs:943-1066 | in every graph of a workspace with such an import, a hub of that name takes it |
| `Reload.HubIffNamed` | crates/mesh-core/src/contracts.rs:993-1066 | after a derivation a key has a hub if and only if some file names it |
| `Reload.HubShape` | crates/mesh-core/src/contracts.rs:993-1066 | the hub of a named topic is an event stream of the reserved package with the key as its name |
| `SideConditions.SecondDerivationDiffers` | crates/mesh-core/src/contracts.rs:934-1066 | run: a file that imports and names one topic, derived twice; both sets of edges are stated as derivations, the first from the file's nodes alone, and they differ |
| `SideConditions.OrdersDerivedTwice` | crates/mesh-core/src/contracts.rs:934-1066 | the same run on a concrete file |
| `SideConditions.StaleHubCaptures` | crates/mesh-server/src/indexer.rs:1000-1030 | run: deleting the only file that names a topic leaves its hub, which captures an import; the reload, stated as a derivation from hubs of both files' topics, prints other lines than the up-to-date build of the remaining file, and deriving again changes the edges |
| `SideConditions.BuildThree` | crates/mesh-server/src/indexer.rs:346-392 | run: of two declarations of an imported pair, the edge of the up-to-date build leads to the one folded first, and only there |
| `SideConditions.TwoOrders` | crates/mesh-server/src/indexer.rs:346-392 | two up-to-date builds of the same files, with an imported pair declared twice, print different lines |
| `Truncation.KeptByIndex` | crates/mesh-core/src/contracts.rs:1128-1153 | of one subject's producers the first 256 in bucket order are kept |
| `Truncation.TruncationDependsOnOrder` | crates/mesh-core/src/contracts.rs:1128-1153 | past the cap, moving a subject's last producer to the front changes which producers are kept |
| `Truncation.BuildCrowd` | crates/mesh-server/src/indexer.rs:346-392 | run: of the publishers of one subject, in folding order, exactly the first 256 are printed at the hub of a wildcard subscription |
| `Truncation.CrowdTwoOrders` | crates/mesh-server/src/indexer.rs:346-392 | two up-to-date builds of the same files, with more than 256 publishers heard by one subscription, print different lines |
| `Impact.WithinIsChain` | crates/mesh-core/src/contracts.rs:2361-2528 | being within n links is having a chain of at most n links from the direct answer |
| `Impact.PublishTopics` | crates/mesh-core/src/contracts.rs:2425-2454 | one pass over the publish edges finds exactly the topics a frontier node or its file feeds, new ones once each |
| `Impact.SubscribeNodes` | crates/mesh-core/src/contracts.rs:2466-2489 | one pass over the subscriptions reaches exactly the unseen live subscribers of new topics, sagas apart from the rest, each once |
| `Impact.HopLevel` | crates/mesh-core/src/contracts.rs:2404-2491 | one hop moves from one level of the breadth-first search to the next |
| `Impact.ReportedExactly` | crates/mesh-core/src/contracts.rs:2361-2528 | consumers and sagas reported at depth d are exactly those within d-1 links; links through the matched topics add nothing when the direct answer lists their subscribers |
| `Impact.DeeperExtends` | crates/mesh-core/src/contracts.rs:2361-2528 | every list at depth d is a prefix of that list at depth d+1 |
| `Impact.ExpandedOrWaiting` | crates/mesh-core/src/contracts.rs:2391-2499 | every reported node is expanded or unexpanded, never both |
| `Impact.WalkTopics` | crates/mesh-core/src/contracts.rs:2425-2454 | reported topics are the matched ones and the live ones an expanded node feeds |
| `Impact.WalkProducers` | crates/mesh-core/src/contracts.rs:2431-2444 | reported file-linked producers are exactly those beside an expanded frontier, the target's own producers apart |
| `Impact.WalkListed` | crates/mesh-core/src/contracts.rs:2478-2488 | beyond the direct answer, sagas hold only sagas, consumers none, and nothing is listed twice |
| `Impact.IdleForever` | crates/mesh-core/src/contracts.rs:2404-2407 | once nothing waits, further hops change nothing |
| `Impact.NothingWaiting` | crates/mesh-core/src/contracts.rs:2493-2499 | an empty unexpanded list means the report is the whole causal closure |
| `Impact.ByLocation` | crates/mesh-core/src/contracts.rs:2367-2377 | the list is sorted by file, line, name and id, without repeats, and holds exactly the given nodes |
| `Impact.HopOnce` | crates/mesh-core/src/contracts.rs:2413-2490 | the three loops of a hop compute the hop |
| `Impact.PublishingEnds` | crates/mesh-core/src/contracts.rs:2504-2525 | the nodes with no onward publish, own or from their file |
| `Impact.AnalyzeWithDepth` | crates/mesh-core/src/contracts.rs:2361-2528 | the operation returns the walk at the clamped depth; the chain ends are exactly the expanded nodes with no onward publish |
| `Impact.ReportedNext` | crates/mesh-core/src/contracts.rs:2404-2491 | a consumer of a topic that a reported node, or another of its file, publishes to is reported one hop later |
| `Impact.DepthLimits` | crates/mesh-core/src/contracts.rs:2361-2366 | the depth is at least 1 and at most 5 |
| `Impact.EndsMeans` | crates/mesh-core/src/contracts.rs:2504-2525 | a chain ends at a node from which, and from whose file, nothing is published |
| `Impact.LocationOrder` | crates/mesh-core/src/contracts.rs:2367-2377 | nodes of a file are ordered by line, name and id |
| `ImpactOnGraph.EdgesApart` | crates/mesh-core/src/contracts.rs:2456-2477 | in a derived graph no subscription joins two published-to nodes |
| `ImpactOnGraph.DirectIsComplete` | crates/mesh-core/src/contracts.rs:2361-2528 | in a derived graph, an answer that lists the registered consumers of its hubs lists every subscriber of a matched topic |
| `ImpactTarget.Listed` | crates/mesh-core/src/contracts.rs:2272-2294 | exactly the live nodes registered under a matching key, in key order and registration order |
| `ImpactTarget.AnalyzeImpact` | crates/mesh-core/src/contracts.rs:2233-2345 | the direct answer lists exactly the live registrations under matching keys and the matching topic, saga and processor nodes; registrations in key order, scanned nodes in id order after them |
| `ImpactTarget.ContainsMeans` | crates/mesh-core/src/contracts.rs:2240-2262 | a text contains another if and only if it is that text between two others |
| `ImpactTarget.StandsInKey` | crates/mesh-core/src/contracts.rs:2255-2324 | a target that is no key finds every live registration under a key it stands in, and that key's hub |
| `ImpactTarget.FoundStandsIn` | crates/mesh-core/src/contracts.rs:2255-2294 | and nothing registered under other keys |
| `ImpactTarget.ExactKey` | crates/mesh-core/src/contracts.rs:2255-2294 | a target that is a key finds that key's registrations only |
| `ImpactTarget.NamedInPart` | crates/mesh-core/src/contracts.rs:2296-2334 | sagas and processors are found by any part of their name, letter case apart |
| `ImpactTarget.SpellingPicked` | crates/mesh-core/src/contracts.rs:2235-2254 | the target's own spelling is used when some key contains it, else the one with underscores when one does |
| `ImpactTarget.HubMatchIsKeyMatch` | crates/mesh-core/src/contracts.rs:2255-2324 | the hub of a key matches a target as the key does if and only if the target is no key, or the hub is compared by the target just when the key is the target |
| `ImpactTarget.SpelledExactly` | crates/mesh-core/src/contracts.rs:2255-2324 | every target matches a key and its hub alike, in every registry, if and only if normalising what the hub is compared by gives the key back |
| `ImpactTarget.PrefixedKeyMismatch` | crates/mesh-core/src/contracts.rs:2306-2324 | a key spelled like a pattern node is matched through its hub although the key itself does not match |
| `ImpactTarget.UnfixedKeyMismatch` | crates/mesh-core/src/contracts.rs:2306-2324 | a key that a second normalisation changes matches itself although its hub does not match it |
| `ImpactOnGraph.AnswerListsRegistry` | crates/mesh-core/src/contracts.rs:2233-2345 | when hubs match as their keys do, the direct answer lists the registered consumers of every hub it matches |
| `ImpactOnGraph.SpelledKeysMatch` | crates/mesh-core/src/contracts.rs:2233-2324 | hubs match as their keys do when normalisation leaves the keys as they are |
| `ImpactOnGraph.ImpactOf` | crates/mesh-core/src/contracts.rs:2361-2528 | the whole query on any derived graph: reported are exactly the consumers and sagas within the depth of the nodes the target names, by links that do not pass the matched topics again, and by any links when hubs match as their keys do |
| `Calendar.YearOf` | crates/mesh-core/src/audit.rs:1255-1260 | the year-of-era formula is exact between two year starts: its corrections cancel the leap days |
| `Calendar.NextDay` | crates/mesh-core/src/audit.rs:1254-1264 | the date of day n+1 is the calendar successor of the date of day n |
| `Calendar.ArithmeticIsCalendar` | crates/mesh-core/src/audit.rs:1254-1264 | for every day the arithmetic gives the date a day-by-day count from 1970-01-01 gives (leap rule and month lengths of section 5.7 and Appendix C of RFC 3339) |
| `Calendar.DaysRoundTrip` | crates/mesh-core/src/audit.rs:1295-1301 | reading a computed date back gives the day number |
| `Calendar.DateRoundTrip` | crates/mesh-core/src/audit.rs:1254-1301 | every valid date from 1970-01-01 on is the date of its number |
| `Calendar.TomorrowNumber` | crates/mesh-core/src/audit.rs:1295-1301 | day numbers of consecutive dates are consecutive, before 1970 and in negative years too |
| `Timestamps.PadParse` | crates/mesh-core/src/audit.rs:1266-1293 | a zero-padded field reads back as its number |
| `Timestamps.InstantRoundTrip` | crates/mesh-core/src/audit.rs:1242-1303 | parsing a formatted instant returns the same millisecond |
| `Timestamps.NormalizeIdempotent` | crates/mesh-core/src/audit.rs:1235-1240 | normalising a stored timestamp twice is normalising it once |
| `Timestamps.WrittenForm` | crates/mesh-core/src/audit.rs:1266-1293 | an instant is written in 24 characters, `YYYY-MM-DDThh:mm:ss.mmmZ`, each field the number it stands for |
| `EditDistance.Row` | crates/mesh-core/src/docs.rs:603-610 | one row of the table from the row before it |
| `EditDistance.Levenshtein` | crates/mesh-core/src/docs.rs:589-615 | the two-row loop computes the recursive edit distance |
| `EditDistance.ZeroOnlyOnEqual` | crates/mesh-core/src/docs.rs:589-615 | the distance is zero exactly on equal texts |
| `EditDistance.Symmetric` | crates/mesh-core/src/docs.rs:589-615 | the distance is symmetric |
| `EditDistance.Triangle` | crates/mesh-core/src/docs.rs:589-615 | the distance obeys the triangle inequality |
| `EditDistance.NoFewerEdits` | crates/mesh-core/src/docs.rs:589-615 | no sequence of one-character edits is shorter than the distance |
| `EditDistance.EnoughEdits` | crates/mesh-core/src/docs.rs:589-615 | some sequence of one-character edits is as short as the distance |
| `EditDistance.LeastEdits` | crates/mesh-core/src/docs.rs:589-615 | the distance is at most n if and only if n edits suffice |
| `PhraseFilter.MatchIndices` | crates/mesh-core/src/docs.rs:663-683 | the scan lists occurrences in any letter case without overlaps, and every occurrence starts inside a listed one |
| `PhraseFilter.NoOverlap` | crates/mesh-core/src/docs.rs:663-683 | a phrase that cannot overlap itself is therefore never missed |
| `PhraseFilter.PhrasesPlain` | crates/mesh-core/src/docs.rs:451-468 | each listed phrase cannot overlap itself nor share a position with the replacement text |
| `PhraseFilter.FindHits` | crates/mesh-core/src/docs.rs:473-483 | the hits are exactly all occurrences of all listed phrases, sorted |
| `PhraseFilter.NothingLeft` | crates/mesh-core/src/docs.rs:485-497 | cutting at every occurrence leaves none, neither in what is kept nor across a replacement |
| `PhraseFilter.Sanitize` | crates/mesh-core/src/docs.rs:450-498 | the output is the text with non-overlapping listed phrases replaced, holds no listed phrase in any letter case, and equals a text that held none |
| `PhraseFilter.SanitizeTwice` | crates/mesh-core/src/docs.rs:450-498 | a second pass returns its input |
| `Audit.VerifyDb` | crates/mesh-core/src/audit.rs:800-929 | accepts exactly the numbered, chained and signed tables, and otherwise reports the first row that breaks the chain |
| `Audit.PrefixVerifies` | crates/mesh-core/src/audit.rs:839-926 | every prefix of an accepted table is accepted: truncation is not detected |
| `Audit.AppendVerifies` | crates/mesh-core/src/audit.rs:700-797 | appending to any accepted chain of mixed versions gives an accepted chain with the next number |
| `Audit.Database.RecordEntry` | crates/mesh-core/src/audit.rs:700-797 | the committed row chains onto the committed tail; an accepted table stays accepted |
| `Audit.RowCarriesCall` | crates/mesh-core/src/audit.rs:700-797 | the row carries the call's session, tool, status, files and digest of arguments, and the hash of all of it after the previous hash |
| `Audit.StepChained` | crates/mesh-core/src/audit.rs:716-779 | each transaction step keeps the lock holder's read tail current and the table accepted |
| `Audit.EveryRunVerifies` | crates/mesh-core/src/audit.rs:700-797 | for every interleaving of writers the table verifies, numbered from 0, and only grows, after every step |
| `Audit.OlderVerifier` | crates/mesh-core/src/audit.rs:1504-1546 | whatever the current verifier accepts the older one accepts; stripping details with their signatures is exactly what it cannot see |
| `Audit.SameTailSameChain` | crates/mesh-core/src/audit.rs:839-926 | two accepted tables of equal length with the same last hash agree at every row on previous hash, entry hash and hashed text, or exhibit a hash collision |
| `Audit.OneFieldChangesInput` | crates/mesh-core/src/audit.rs:861-884 | changing one covered field changes the hashed text, although fields are joined without separators |
| `Audit.FieldTamperingFails` | crates/mesh-core/src/audit.rs:861-892 | changing exactly one covered field of a row is rejected, or the two texts collide |
| `Audit.DetailTamperingFails` | crates/mesh-core/src/audit.rs:475-477 | changing an error detail under its signature is rejected, or the two texts collide |
| `Audit.HashTamperingFails` | crates/mesh-core/src/audit.rs:884-892 | changing an entry hash is rejected |
| `Audit.RemovalFails` | crates/mesh-core/src/audit.rs:839-848 | removing any row but the last is rejected |
| `Audit.ExcisionFails` | crates/mesh-core/src/audit.rs:839-892 | removing a row and renumbering the rest is accepted if and only if the removed row's hash is the hash it chained onto |
| `SearchCache.Cache.Get` | crates/mesh-core/src/search_cache.rs:82-92 | a page is returned only at exactly the cached generation; a newer one empties the cache |
| `SearchCache.Cache.Insert` | crates/mesh-core/src/search_cache.rs:96-111 | an older page is dropped, a newer one empties the cache first, a full cache is cleared |
| `SearchCache.InsertedIsFound` | crates/mesh-core/src/search_cache.rs:96-111 | an inserted page is found at its generation and only there |
| `SearchCache.OthersStay` | crates/mesh-core/src/search_cache.rs:96-111 | other pages of the generation stay while there is room, or the key was there |
| `SearchCache.StepSafe` | crates/mesh-core/src/state.rs:324-339 | every step of installers and readers keeps the cache to one generation's pages |
| `SearchCache.AnswersAreExact` | crates/mesh-core/src/search_cache.rs:82-111 | with installs serialised, in every interleaving each answer is the page of the content the reader pinned, and the cache holds at most 256 pages of one generation |
| `SearchCache.UnserialisedInstallsMix` | crates/mesh-core/src/state.rs:331-339 | without the reload lock two installs can share a generation and a reader gets the other content's page |
| `IndexCache.KeyTextDetermines` | crates/mesh-core/src/index_cache.rs:400-416 | the unseparated key text determines path, content hash, repository and configuration |
| `IndexCache.Handle.Get` | crates/mesh-core/src/index_cache.rs:436-463 | a hit returns the stored payload and remembers the key for the next flush |
| `IndexCache.Handle.PutBatch` | crates/mesh-core/src/index_cache.rs:476-555 | one transaction writes payloads and access rows and refreshes only access rows that still exist |
| `IndexCache.PutOk` | crates/mesh-core/src/index_cache.rs:476-555 | payload keys stay equal to access keys and row ids distinct |
| `IndexCache.BatchLeaves` | crates/mesh-core/src/index_cache.rs:476-555 | after a batch each of its keys serves its last entry, accessed now; of other keys the touched ones still stored are accessed now, and all else is as before |
| `IndexCache.KeyTextLayout` | crates/mesh-core/src/index_cache.rs:400-416 | the parts of the hashed text and where they stand |
| `IndexCache.Oldest` | crates/mesh-core/src/index_cache.rs:645-657 | the selected keys are the first ones in the order of last access and row id |
| `IndexCache.NotTooMany` | crates/mesh-core/src/index_cache.rs:606-611 | a batch never removes an entry more than the excess needs, for entries of one size |
| `IndexCache.EvictOnce` | crates/mesh-core/src/index_cache.rs:630-684 | one transaction removes a prefix of the eviction order, and nothing only when the data fits or the store is empty |
| `IndexCache.Handle.EnforceQuota` | crates/mesh-core/src/index_cache.rs:613-711 | terminates at or below the target or with an empty store, having removed only the oldest entries; with entries of one size, the least number that reaches the target |
| `IndexCache.StepKeeps` | crates/mesh-core/src/index_cache.rs:436-555 | each step of any process keeps payload keys equal to access keys and payloads genuine |
| `IndexCache.RunKeeps` | crates/mesh-core/src/index_cache.rs:436-555 | the same over every interleaving of reads, batches, failed batches and evictions |
| `IndexCache.HitIsExtraction` | crates/mesh-core/src/index_cache.rs:400-463 | over every run a hit returns what extracting the file afresh returns, or two key texts collide |
| `IndexCache.ServedOutlive` | crates/mesh-core/src/index_cache.rs:520-533 | entries served since the last flush are evicted only after every entry last used earlier |
| `Properties.PropertyRegistry.InsertSanitized` | crates/mesh-core/src/properties.rs:320-333 | the raw value is stored and the shown one masked for a sensitive key |
| `Properties.PropertyRegistry.MergeFrom` | crates/mesh-core/src/properties.rs:140-146 | later keys win in both tables and are attributed to the file |
| `Properties.PropertyRegistry.RemoveFilesOf` | crates/mesh-core/src/properties.rs:157-172 | exactly the keys attributed to the files go |
| `Properties.PlaceholderText` | crates/mesh-core/src/properties.rs:335-360 | `${key}` names the key, and `${key:default}` gives a default that may contain colons |
| `Properties.FreshAsText` | crates/mesh-core/src/properties.rs:335-360 | what a resolved value shows, spelled out: the named value, the default, the mask or its own text |
| `Properties.MergedFile` | crates/mesh-core/src/properties.rs:140-146 | merging a file gives its keys its last values and its name, and leaves every other key alone |
| `Properties.RemovedFiles` | crates/mesh-core/src/properties.rs:157-172 | removing files removes the keys they gave last and no others |
| `Properties.PropertyRegistry.ResolveAllPlaceholders` | crates/mesh-core/src/properties.rs:182-200 | every key is visited once, in some order, and resolved unless it shows the mask |
| `Properties.ApplyAlike` | crates/mesh-core/src/properties.rs:140-200 | each operation keeps two registries that differ only in sensitive raw values alike |
| `Properties.SecretsDoNotShow` | crates/mesh-core/src/properties.rs:140-200 | two histories that differ only in the values of sensitive keys show the same properties after every step, for any visiting order |
| `Properties.AlwaysConsistent` | crates/mesh-core/src/properties.rs:140-200 | after every history sensitive keys show the mask and literal values show as ingested |
| `Properties.ResolvedIsFresh` | crates/mesh-core/src/properties.rs:173-200 | for a key whose placeholder names no placeholder, resolving shows what a rebuild shows, in any order, if and only if the mask does not stick to it |
| `Properties.RebuildShowsFresh` | crates/mesh-core/src/properties.rs:140-200 | every history of ingesting, merging and removing, resolved once in any order, shows for a settled key the value read off the raw values |
| `Properties.OrderFreeIffSettled` | crates/mesh-core/src/properties.rs:182-200 | a build shows that value for a key in every visiting order if and only if what its placeholder names is absent, masked, the key itself, or does not resolve further |
| `Properties.ResolveEqualsRebuild` | crates/mesh-core/src/properties.rs:174-200 | after any history, resolving shows for a key what a rebuild of the same values shows, whatever the two orders, if and only if the mask does not stick: the key shows it, and neither the key, its literal nor what its placeholder names is masked |
| `Properties.AsRebuiltIffCurrent` | crates/mesh-core/src/properties.rs:174-200 | after any history, and for chains of any length, resolving shows for a key what a rebuild of the same values shows, in every visiting order of the two, if and only if the key is settled and current: it shows a mask only where a rebuild masks, and a placeholder it names, and the one named in turn, are shown as they are |
| `Properties.MaskSticksExactly` | crates/mesh-core/src/properties.rs:182-200 | over every history, a mask sticks exactly when the key was masked at some point since it was last set and a rebuild would not mask it |
| `Properties.ChainDependsOnOrder` | crates/mesh-core/src/properties.rs:182-200 | past one link the visiting order shows in the result |
| `Properties.StaysMasked` | crates/mesh-core/src/properties.rs:182-200 | a placeholder once resolved to a mask stays masked after the sensitive key is gone, where a rebuild shows its text |

## Left out

- `ContractGraph::add_edge`: edges added by hand are not part of the model; `reconcile_edges` clears them.
- Unicode case mapping, trimming, Pascal case, path joining, module keys and topic-key normalisation are uninterpreted functions (`GraphModel.Lib`).
- Node ids are unbounded; the 32-bit wrap-around of `next_node_id` is not modelled. Line numbers, depths and sequence numbers are unbounded too.
- Canonical lines are compared as multisets of records per kind of line; sorting and JSON encoding of the lines are not modelled.
- `fingerprint`, `find_dependents`, `analyze_grpc`, `impact_matrix` and `search_symbols`: read-only queries over the derived graph that would add no new kind of statement.
- Calendar.FromDays: dates before 1970 are not formatted, because durations since the epoch are not negative; `Calendar.ToDays` covers them.
- Timestamps.ParseMillis: floating point is replaced by integer milliseconds, the decimal-seconds format is an uninterpreted function, and a day or month field of 0 does not wrap around.
- SHA-256, JSON and the masking heuristics of error messages are not modelled; SQL tables are sequences or maps and transactions are atomic steps.
- IndexCache.Handle.EnforceQuota: page accounting is an arbitrary function of the store, each pass is a sequence of atomic transactions of one process, and freed row ids are not reused; the trigger that calls it after a batch, vacuum and checkpoints are not modelled.
- IndexCache.HitIsExtraction: extraction is a function of the key's inputs, so a file's content enters through its hash and its path through its lossy text.
- SearchCache.Cache.Get: the re-check of file stamps on a hit is not modelled, because it depends on the disk.
- Properties.SecretsDoNotShow: which keys count as sensitive is an arbitrary predicate; the name patterns are not modelled. YAML and `.properties` parsing enter as the pairs they yield.
- Properties.MaskSticksExactly: for a key whose placeholder names another placeholder, when it came to be masked depends on the visiting orders of the past (`Properties.ChainDependsOnOrder`) and is not stated; what resolving then shows is, by `Properties.AsRebuiltIffCurrent`.
- Audit.Database.RecordEntry: the clock is a parameter, and the failure paths of the engine leave the table unchanged.
- PhraseFilter.Sanitize: works on characters instead of UTF-8 bytes; the phrases are ASCII, so positions correspond.
- File crawling, ignore rules, Tree-sitter extraction, Markdown rendering, sockets, watchers, configuration and packaging.
