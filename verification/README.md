# Verified models of the Grafbase engine

This project models the parts of the Grafbase repository whose correctness is hardest to see by
reading one function at a time, and proves what they promise. `dafny verify dfyconfig.toml`
checks everything.

* **Data loading** (`DataLoader`, `DataLoaderProtocol`, `DataLoaderTheorems`, `DataLoaderSwitches`). The critical
  sections of the batching loader are methods of a class; the whole loader is a state machine
  over calls, timers, finishing loads, feeding, clearing, cache switches and evictions. Over every
  run: answers are those of direct loading, no wake-up is lost, no sender is dropped, every request
  is in exactly one place, and with no new calls the work runs out with everything answered. Which
  cache is off, which calls a cache may answer and what it holds are told by the calls alone.
* **Selection sets** (`Selections`, `SkipInclude`, `SelectionFields`). Removing `@skip` and
  `@include` preserves the meaning of an operation (sections 3.13.1, 3.13.2 and 6.3.2 of the GraphQL
  specification, October 2021) for every acyclic fragment map (section 5.5.2.2); the explicit-stack
  iterator terminates and yields the recursive flattening; look-ahead sees exactly the field tree.
* **Incremental delivery** (`Deferred`). One payload per deferred workload, breadth-first,
  `has_next` on all but the last, and every error in exactly one payload.
* **Federated graphs from SDL** (`Wrapping`, `TypeRefs`, `FederatedModel`, `FederatedRecords`,
  `FederatedJoin`, `FederatedState`, `FederatedDefinitions`, `FederatedLayout`, `FederatedFinal`,
  `FederatedSelecting`, `FederatedClosing`, `FederatedAttach`, `FederatedIngest`, `FederatedPartition`,
  `FederatedDirectives`, `FederatedReadings`, `FederatedNames`, `FederatedTheorems`). Ingestion fills flat tables of records that refer to each other by index, in
  three passes. It succeeds exactly on the documents described without the tables. Every record stands
  for its part of the document; packed type wrappers lose nothing (section 2.11); the ranges of the
  types partition the field table under an exact condition; the selections of federation directives
  resolve exactly when the document declares what they name, and can be read back. What is read from
  directives and names is also told by positions in the document alone.
* **Composition output** (`DefinitionGroups`, `EmissionModel`, `Emission`, `EmissionGroups`,
  `EmissionSelections`, `EmissionTheorems`). Definitions of all subgraphs are grouped by name;
  composed fields are laid out in name-sorted blocks; selections that refer to definitions emitted
  later are resolved against the complete tables.
* **Resolver types** (`TypedTypes`, `KeyedTables`, `InterfaceGroups`, `TypedAnalysis`, `TypedSchema`,
  `TypedTheorems`, `TypedPlain`, `TypedQueries`, `TypedReadings`). Tables filled in two passes, sorted, and queried
  by binary search; field ids are handed out before the sort. The sort is the identity under an
  exact condition, the queries give back what the document declares, and types are rendered as
  written.
* **Persisted queries** (`PersistedQueries`). Over every run of a cache that may forget or fail,
  a query served for a hash has that hash and was registered under it, and a trusted document was
  fetched; every answer has its exact condition.
* **Graph references** (`GraphRef`). Parsing and printing are inverse under an exact condition.

`Common` and `StableSorting` hold what several of these share.

## Modelling decisions

* Concurrency is a state machine: what happens under a lock is one step, and steps interleave
  freely. Timers, channels and task spawning appear only through the steps they induce.
* The batch loader, the resolvers of deferred workloads, SHA-256 and the parsers are not part of the
  model; they are parameters, constrained only by what a theorem states.
* A cache is a map that may lose entries at any time but never invents one.
* Panics (`unwrap`, `expect`, indexing a map, failed assertions) are results of their own, kept
  apart from errors.
* Names of composed fields stand for their interned ids in the emission model, and maps ordered by
  key are given in iteration order.

Where a promise turns out to be false of the code, the code is kept, a concrete input shows the
failure, and the exact condition is proved:

* The ranges written by `from_sdl` do not partition the field table when a type is given fields twice
  (`FederatedPartition.RangesPartition`, `TakeOverLosesFields`): a schema that names a missing root
  type and declares an object type `Query`, or two definitions of one type that both declare fields.
* The field sort of `analyze` is not the identity when an interface is named like a root type and an
  object, an input object or a lower-ranked such interface follows (`TypedPlain.PlainSortIsIdentity`,
  `ShiftedArguments`); a field may then be found without its arguments.
* Arguments of interface fields are not recorded. Where the sort is the identity, every field is found
  with the arguments it declares if and only if no interface field that is entered under an object
  declares one that resolves (`TypedTheorems.ArgumentsStayAligned`, `TypedPlain.DroppedArgument`).
* The comment on `union_variants` says that the table is sorted because unions are visited in order.
  The second pass also visits type extensions; the table is sorted if and only if no two definitions with
  variants come up with descending ids (`TypedQueries.UnionsSortedExactly`, `ExtensionIsLost`).

## Model

| member | source | states |
|---|---|---|
| DataLoader.Requests.Take | engine/crates/dataloader/src/lib.rs:117-119 | Hands out all waiting keys and senders and leaves both empty; cache and switch are untouched |
| DataLoader.Requests.LoadMany | engine/crates/dataloader/src/lib.rs:313-361 | The critical section of a call: the new state and the chosen action are those of the section specification (answer from cache, queue, start a timer, or load at once) |
| DataLoader.Requests.Store | engine/crates/dataloader/src/lib.rs:151-162 | The cache becomes the old cache with the loaded values on top, less any entries that are evicted; none is changed or invented |
| DataLoader.Requests.BuildReply | engine/crates/dataloader/src/lib.rs:165-171 | A reply is the cached part of the request together with the loaded values of its own keys |
| DataLoader.Requests.Finish | engine/crates/dataloader/src/lib.rs:142-180 | A finished batch stores its values unless either switch disables caching, and answers every sender once, in order, with its own reply or with the error |
| DataLoader.Requests.FeedMany | engine/crates/dataloader/src/lib.rs:408-424 | The cache becomes the old cache with the fed values on top, later pairs winning, less any entries that are evicted |
| DataLoader.Requests.Clear | engine/crates/dataloader/src/lib.rs:445-458 | Only the cache is emptied; waiting requests stay |
| DataLoader.EnableCache | engine/crates/dataloader/src/lib.rs:254-267 | Only the switch changes; without a record the lookup panics |
| DataLoaderProtocol.StepInv | engine/crates/dataloader/src/lib.rs:295-400 | Every step of the loader keeps the structural invariant: exact key sets, one place per request, a timer for every waiting queue, batch sizes |
| DataLoaderProtocol.RunInv | engine/crates/dataloader/src/lib.rs:295-400 | The invariant holds in every state of every run |
| DataLoaderTheorems.NoLostWakeUp | engine/crates/dataloader/src/lib.rs:343-397 | In every reachable state a non-empty queue has a task that will empty it |
| DataLoaderTheorems.ExactlyOnePlace | engine/crates/dataloader/src/lib.rs:337-397 | Every registered request is pending, in flight or answered, in exactly one place; none is discarded |
| DataLoaderTheorems.NeverAnsweredTwice | engine/crates/dataloader/src/lib.rs:165-178 | No request is answered twice in any run |
| DataLoaderTheorems.LoadedBatch | engine/crates/dataloader/src/lib.rs:343-361 | A loaded batch is non-empty and at most the limit minus one plus the size of the request that triggered it |
| DataLoaderTheorems.RecordPresent | engine/crates/dataloader/src/lib.rs:381-385 | A waiting request implies that the record of its key type exists, so the lookups that unwrap it succeed |
| DataLoaderTheorems.PoisonedExactly | engine/crates/dataloader/src/lib.rs:254-267 | In every run the lock is poisoned exactly after the cache of a key type was switched before its record existed; then nothing waits or runs, and nothing starts any more |
| DataLoaderTheorems.AnsweredOnTheSpot | engine/crates/dataloader/src/lib.rs:321-341 | A call is answered without queueing exactly if it asks for nothing or every key is cached and caching is on, and then nothing else changes |
| DataLoaderTheorems.ThresholdLoadsAtOnce | engine/crates/dataloader/src/lib.rs:343-361 | Reaching the limit loads everything queued at once; below it the call waits, with a timer if it is the first |
| DataLoaderTheorems.StepAgreement | engine/crates/dataloader/src/lib.rs:150-173 | Agreement with the source of truth survives every step |
| DataLoaderTheorems.RefinesDirectLoading | engine/crates/dataloader/src/lib.rs:295-400 | If the loader and all fed values agree with a partial function, every successful answer in every run is that function on the requested keys |
| DataLoaderTheorems.LoadOne | engine/crates/dataloader/src/lib.rs:275-287 | Loading one key gives the value of the source for that key, or nothing if it has none |
| DataLoaderTheorems.ErrorsComeFromTheLoader | engine/crates/dataloader/src/lib.rs:165-178 | A request is answered with an error only if a load returned that error |
| DataLoaderTheorems.StepWork | engine/crates/dataloader/src/lib.rs:373-397 | Every step other than a new call lowers or keeps a measure over outstanding tasks, and steps of tasks lower it |
| DataLoaderTheorems.BoundedWork | engine/crates/dataloader/src/lib.rs:373-397 | Without new calls the number of task steps is bounded by the measure |
| DataLoaderTheorems.QuietMeansAnswered | engine/crates/dataloader/src/lib.rs:373-399 | When no task is left every request has been answered |
| DataLoaderTheorems.CanFinish | engine/crates/dataloader/src/lib.rs:373-399 | From every reachable state a continuation exists in which every request is answered |
| DataLoaderSwitches.FirstCallDecides | engine/crates/dataloader/src/lib.rs:254-267 | In every run the record exists exactly if the first call that took the lock was not a switch of this cache, and the lock is poisoned exactly if it was one |
| DataLoaderSwitches.LoaderSwitchIsLastCall | engine/crates/dataloader/src/lib.rs:247-250 | In every state of every run caching is off for the loader exactly if the last call that switched all caches turned them off; without such a call it is on |
| DataLoaderSwitches.OwnSwitchIsLastCall | engine/crates/dataloader/src/lib.rs:252-267 | The cache of the key type is off exactly if the last switch of it turned it off after its record existed |
| DataLoaderSwitches.OffMeansLoaded | engine/crates/dataloader/src/lib.rs:321-361 | While either switch is off, a call for any key at all is not answered on the spot, and it waits for all its keys with nothing taken from the cache |
| DataLoaderSwitches.OnMeansCached | engine/crates/dataloader/src/lib.rs:321-361 | While neither is off, a call waits for exactly the keys that are not cached and takes the others from the cache; if none is missing it is answered on the spot |
| DataLoaderSwitches.SwitchIsCaptured | engine/crates/dataloader/src/lib.rs:363-397 | A running task holds the state of the loader-wide switch at the step that spawned it |
| DataLoaderSwitches.CachedIsLastStored | engine/crates/dataloader/src/lib.rs:150-163 | In every run a cached value is the last one stored for its key since the cache was cleared: fed, or loaded by a task that was spawned while caching was on and returned while the cache of the key type was on |
| DataLoaderSwitches.RetainedExactly | engine/crates/dataloader/src/cache.rs:117-142 | With a storage that forgets nothing the cache holds exactly the values stored last |
| Selections.RankDecreases | engine/crates/engine/parser/src/types/executable.rs:145-262 | In an acyclic fragment map a spread leads to a fragment of smaller rank |
| SkipInclude.ConditionMeaning | engine/crates/engine/src/schema.rs:692-714 | A condition holds exactly if it is literally true or a variable that was provided as true |
| SkipInclude.FindsFirst | engine/crates/engine/parser/src/types/mod.rs:276-283 | The lookup of an argument gives the value of the first argument of that name, and nothing exactly if there is none |
| SkipInclude.IsSkipped | engine/crates/engine/src/schema.rs:692-714 | The loop over directives skips exactly if the first `if` argument of a skip directive holds or that of an include directive does not |
| SkipInclude.IncludedIsNotSkipped | engine/crates/engine/src/schema.rs:692-714 | A selection is included exactly if no single directive removes it |
| SkipInclude.RetainOthers | engine/crates/engine/src/schema.rs:720-725 | Exactly the skip and include directives are removed, in place and in order |
| SkipInclude.OthersAreTheRest | engine/crates/engine/src/schema.rs:720-725 | The directives that stay are those with neither of the two names, in order and none left out |
| SkipInclude.RetainIncluded | engine/crates/engine/src/schema.rs:716-718 | Exactly the selections that are not skipped are retained, in order |
| SkipInclude.RemoveSkippedSelection | engine/crates/engine/src/schema.rs:691-738 | The rewrite of a selection set is the pruning of its tree |
| SkipInclude.RemoveSkipped | engine/crates/engine/src/schema.rs:346-350 | The operation and all fragments are rewritten |
| SkipInclude.PrunedAcyclic | engine/crates/engine/src/schema.rs:691-738 | Rewriting keeps a fragment map acyclic |
| SkipInclude.SkipRemovalPreservesMeaning | engine/crates/engine/src/schema.rs:346-350 | For every operation, acyclic fragment map and variables, expanding the rewritten operation without looking at directives gives the field tree of the original under skip and include |
| SkipInclude.PrunedIsUnconditional | engine/crates/engine/src/schema.rs:691-738 | No skip or include directive remains anywhere |
| SkipInclude.UnconditionalIsUntouched | engine/crates/engine/src/schema.rs:691-738 | A selection set without these directives is left alone |
| SkipInclude.RewriteIsIdempotent | engine/crates/engine/src/schema.rs:691-738 | Rewriting twice is rewriting once |
| SelectionFields.ReadKeepsRemaining | engine/crates/engine/src/context.rs:292-320 | Each turn of the iterator takes the next field off the recursive flattening and changes nothing else |
| SelectionFields.ReadTakesOneMove | engine/crates/engine/src/context.rs:292-320 | Each turn lowers a measure combining fragment rank and remaining items, so the iterator terminates on acyclic maps |
| SelectionFields.SelectionFieldsIter.Next | engine/crates/engine/src/context.rs:289-320 | The next field is the head of the remaining flattening, and the iterator ends exactly when nothing remains |
| SelectionFields.SelectionSet | engine/crates/engine/src/context.rs:257-264 | Draining the iterator yields exactly the recursive in-order flattening |
| SelectionFields.Filter | engine/crates/engine/src/look_ahead.rs:119-143 | Filtering a selection set appends the fields of that name in its flattening, in order |
| SelectionFields.Field | engine/crates/engine/src/look_ahead.rs:34-51 | Looking ahead by a name is filtering the flattening below the current fields by that name |
| SelectionFields.Path | engine/crates/engine/src/look_ahead.rs:34-51 | A chain of look-aheads is filtering once per name |
| SelectionFields.FlattenIsVisible | engine/crates/engine/src/context.rs:289-320 | The flattening is what the expanded field tree shows on top |
| SelectionFields.LookaheadSeesTheTree | engine/crates/engine/src/look_ahead.rs:34-51 | A chain of look-aheads reaches exactly the nodes at that path of the expanded field tree |
| Deferred.Env.Send | engine/crates/engine/src/deferred.rs:52-58 | A workload is appended to the queue |
| Deferred.Env.Receive | engine/crates/engine/src/deferred.rs:62-66 | The oldest workload is taken, none if the queue is empty |
| Deferred.Env.TakeErrors | engine/crates/engine/src/schema.rs:420-472 | Recorded errors are handed out once and the list is left empty |
| Deferred.Env.ExecuteOnce | engine/crates/engine/src/schema.rs:420-472 | The initial response carries the errors recorded so far and the workloads it deferred wait in the queue |
| Deferred.Env.ProcessDeferredWorkload | engine/crates/engine/src/schema.rs:661-689 | A payload carries the label and path of its workload, its data, which is null exactly after a failure or if the run gave null, and the errors recorded while it ran with the failure last |
| Deferred.ExecuteStream | engine/crates/engine/src/schema.rs:559-591 | The stream sends the initial payload and then the payloads of the queue discipline, and reports the union of their statuses |
| Deferred.FifoIsBreadthFirst | engine/crates/engine/src/schema.rs:570-590 | For every finite forest of workloads the queue works them off level by level |
| Deferred.DeliveryIsExact | engine/crates/engine/src/schema.rs:570-590 | One payload per workload, in breadth-first order, each with the label, path, data and errors of its own workload, and has_next on every payload but the last |
| Deferred.EveryErrorOnce | engine/crates/engine/src/schema.rs:661-689 | Every recorded error appears in exactly one payload |
| Deferred.StatusCountsAllErrors | engine/crates/telemetry/src/graphql.rs:126-141 | The final status counts all errors of all payloads |
| Wrapping.NewIsEmpty | engine/crates/wrapping/src/lib.rs:179-186 | A new word has no list wrappers and the given nullability |
| Wrapping.WrappedByAppends | engine/crates/wrapping/src/lib.rs:196-220 | Wrapping appends one list wrapper, keeps the rest, and fails exactly at the capacity of 21 |
| Wrapping.NextTakesFirst | engine/crates/wrapping/src/lib.rs:140-153 | Reading from the front removes the innermost wrapper and nothing else |
| Wrapping.NextBackTakesLast | engine/crates/wrapping/src/lib.rs:162-174 | Reading from the back removes the outermost wrapper and nothing else |
| TypeRefs.FieldType | engine/crates/federated-graph/src/from_sdl.rs:70-105 | The peekable loop over wrappers packs every type reference with at most 21 lists so that decoding gives the type back, and fails on all others |
| FederatedState.State.InsertString | engine/crates/federated-graph/src/from_sdl.rs:107-113 | Interning gives the id of the string, appends the string exactly if it is new and keeps all ids |
| FederatedState.State.InsertValue | engine/crates/federated-graph/src/from_sdl.rs:115-141 | The stored value stands for the source value, enum names being bound to the expected enum where possible; it panics exactly on variables |
| FederatedState.State.AttachSelectionSet | engine/crates/federated-graph/src/from_sdl.rs:1202-1231 | Resolving succeeds, fails with the first error or panics exactly as the selection demands, and on success the result stands for the source selection although strings were interned on the way |
| FederatedState.State.AttachField | engine/crates/federated-graph/src/from_sdl.rs:1233-1273 | The field is looked up on the type reached, its arguments by name, and its selection on its own type |
| FederatedState.State.AttachArgument | engine/crates/federated-graph/src/from_sdl.rs:1246-1266 | An argument is resolved to the first of that name; it panics exactly if there is none or its value holds a variable |
| FederatedModel.FateResolves | engine/crates/federated-graph/src/from_sdl.rs:1215-1294 | A selection resolves exactly when every field exists on the type reached, arguments are known, fragments name known types and there are no spreads |
| FederatedModel.KnownArgumentsNeverPanic | engine/crates/federated-graph/src/from_sdl.rs:1246-1266 | With known arguments resolving never panics |
| FederatedModel.EraseDenoted | engine/crates/federated-graph/src/from_sdl.rs:1215-1294 | Erasing the ids of a resolved selection gives the source selection back, up to block strings, which operations do not have |
| FederatedState.State.CollectComposedDirectives | engine/crates/federated-graph/src/from_sdl.rs:1459-1535 | The window covers exactly the composed directives, in order; federation directives and malformed scopes and policies are dropped; it panics exactly on variables in plain directives and on infinite numbers reached in scopes or policies |
| FederatedDirectives.RecordedByName | engine/crates/federated-graph/src/from_sdl.rs:1459-1535 | The record of each directive is the one its name calls for: inaccessible, authenticated, deprecated with its reason, scopes and policies as lists of lists of strings, and any other with its name and arguments |
| FederatedDirectives.ComposedAreWritten | engine/crates/federated-graph/src/from_sdl.rs:1459-1535 | The directives that become records are those with no other place and, for scopes and policies, with lists of lists of strings, in order and none left out |
| FederatedDirectives.StringListsRead | engine/crates/federated-graph/src/from_sdl/value.rs:24-54 | A value is read as lists of lists exactly if it is a list of lists of strings or block strings, with these texts |
| FederatedDirectives.RefusedExactly | engine/crates/federated-graph/src/from_sdl.rs:1459-1535 | A directive panics exactly for a variable among arguments that are kept, or for an infinite number that comes before anything else stops the conversion of scopes or policies |
| FederatedState.State.IngestArgument | engine/crates/federated-graph/src/from_sdl.rs:972-990 | The record of an argument stands for its node: name, type, default, directives, description |
| FederatedState.State.IngestInputField | engine/crates/federated-graph/src/from_sdl.rs:1118-1134 | The record of an input field stands for its node |
| FederatedState.State.IngestInputs | engine/crates/federated-graph/src/from_sdl.rs:970-992 | The window covers exactly the arguments of a field, in order |
| FederatedRecords.StandsConsistent | engine/crates/federated-graph/src/from_sdl.rs:1233-1273 | Tables whose records stand for a document are consistent, so lookups by type and name lead to fields of that name |
| FederatedDefinitions.IngestEnumValues | engine/crates/federated-graph/src/from_sdl.rs:889-904 | Exactly the declared values of an enum are entered under the enum and their names |
| FederatedDefinitions.IngestJoinGraphEnum | engine/crates/federated-graph/src/from_sdl.rs:1402-1445 | Every value of the enum of subgraphs becomes a subgraph with its name and address; it is an error exactly if a value lacks the directive or one of its two texts |
| FederatedDefinitions.RegisterType | engine/crates/federated-graph/src/from_sdl.rs:816-919 | A type gets its records and its name, the enum of subgraphs is read as subgraphs instead; it succeeds exactly if directives, enum values and subgraphs are well-formed |
| FederatedDefinitions.InsertBuiltinScalars | engine/crates/federated-graph/src/from_sdl.rs:927-938 | The five builtin scalars are registered, replacing types of the same name |
| FederatedDefinitions.IngestDefinitions | engine/crates/federated-graph/src/from_sdl.rs:812-925 | The first pass succeeds exactly if every definition is well-formed, and then the state holds exactly the registry of the document: types, names, subgraphs |
| FederatedDefinitions.DefinitionsWell | engine/crates/federated-graph/src/from_sdl.rs:812-938 | Every name leads to an existing record and no two names lead to the same one |
| FederatedFinal.LastDefinitionNames | engine/crates/federated-graph/src/from_sdl.rs:816-938 | A name stands for the last type defined under it, with the id counted per kind, unless it is that of a builtin scalar |
| FederatedNames.NameStandsForLast | engine/crates/federated-graph/src/from_sdl.rs:816-938 | A name stands for a definition of the kind of the last type defined under it, numbered by how many of that kind come before |
| FederatedNames.KnownNames | engine/crates/federated-graph/src/from_sdl.rs:816-938 | The known names are those of the document and of five scalars, which are scalars whatever the document says |
| FederatedNames.EnumValuesAreListed | engine/crates/federated-graph/src/from_sdl.rs:886-905 | Enum values are known exactly under the record of an enum that lists them |
| FederatedNames.SubgraphsAreWritten | engine/crates/federated-graph/src/from_sdl.rs:1402-1445 | There is one subgraph for each value of the enum of subgraphs, with the name and url that its first join__graph directive gives; a value stands for the last subgraph under its name |
| FederatedNames.QueryIsLast | engine/crates/federated-graph/src/from_sdl.rs:311-332 | The root query type is named by the last schema definition that names one |
| FederatedNames.LastInputFound | engine/crates/federated-graph/src/from_sdl.rs:1107-1140 | A field of an input object is found by name as the last one that the document lists |
| FederatedNames.NoInputFound | engine/crates/federated-graph/src/from_sdl.rs:1107-1140 | No other field of an input object is found |
| FederatedJoin.ReadResolvableIn | engine/crates/federated-graph/src/from_sdl.rs:994-1015 | The subgraphs are, in order and none left out, those of the join__field directives without an override argument whose first external argument is not true and whose first graph argument is the enum value of a subgraph; it panics exactly if such a graph is unknown |
| FederatedJoin.ArgumentFound | engine/crates/federated-graph/src/from_sdl/arguments.rs:3-11 | The lookup of an argument gives the first of its name, and nothing exactly if there is none |
| FederatedJoin.DirectiveFound | engine/crates/federated-graph/src/from_sdl.rs:505-507 | The lookup of a directive gives the first of its name |
| FederatedJoin.SubgraphDescribed | engine/crates/federated-graph/src/from_sdl.rs:1402-1445 | A value describes a subgraph exactly if its first join__graph directive has text for name and url, which are its name and url in this order |
| FederatedJoin.ResolvedWherePlaced | engine/crates/federated-graph/src/from_sdl.rs:994-1015 | The specification of where a field is resolved is this list |
| FederatedIngest.IngestField | engine/crates/federated-graph/src/from_sdl.rs:962-1090 | A field is appended with what is known of it and entered under its type and name; it is accepted exactly if its types are known and at most 21 lists deep, its values hold no variables and its subgraphs are known |
| FederatedIngest.IngestInterfaceFields | engine/crates/federated-graph/src/from_sdl.rs:940-960 | The fields of an interface are appended in order and it is given their range, exactly if every field is accepted |
| FederatedIngest.IngestObjectFields | engine/crates/federated-graph/src/from_sdl.rs:1142-1190 | The fields of an object are appended in order, on the root type followed by the two reserved fields, and it is given their range, exactly if every field is accepted and there is a root type |
| FederatedIngest.IngestInputObject | engine/crates/federated-graph/src/from_sdl.rs:1107-1140 | The window of an input object covers exactly its declared fields, and each of them is entered under the input object and its name, a later one replacing an earlier one |
| FederatedJoin.ReadInterfaces | engine/crates/federated-graph/src/from_sdl.rs:334-368 | One id for each listed name, in order, each that of the interface of this name; unknown names panic, other types are an error |
| FederatedJoin.ReadJoinInterfaces | engine/crates/federated-graph/src/from_sdl.rs:456-492 | One link for every join__implements directive, in order and none left out, with the subgraph of its first graph argument and the interface named by its first interface argument; it is an error exactly if there is no such subgraph or interface |
| FederatedJoin.ReadMembers | engine/crates/federated-graph/src/from_sdl.rs:1092-1105 | One id for each listed name, in order, each that of the object of this name; unknown names panic, other types are an error |
| FederatedJoin.ReadJoinMembers | engine/crates/federated-graph/src/from_sdl.rs:422-454 | Exactly the links of the join__unionMember directives, with errors as for join__implements |
| FederatedIngest.IngestInterfaces | engine/crates/federated-graph/src/from_sdl.rs:334-404 | The interfaces of a type are replaced and its links in subgraphs appended, exactly if all of them are well-formed |
| FederatedIngest.IngestMembers | engine/crates/federated-graph/src/from_sdl.rs:406-420 | The members of a union and its links in subgraphs are added, exactly if all of them are well-formed |
| FederatedIngest.IngestFields | engine/crates/federated-graph/src/from_sdl.rs:262-309 | The second pass yields exactly the layout, the links and the entries of input fields of the document and succeeds exactly if every definition is accepted |
| FederatedIngest.IngestSchemaDefinitions | engine/crates/federated-graph/src/from_sdl.rs:249-260 | The last schema definition names the root; a directive other than link is an error |
| FederatedIngest.EnsureRoot | engine/crates/federated-graph/src/from_sdl.rs:191-223 | A missing root query type is added under the default name with its two reserved fields |
| FederatedSelecting.PickedIsEntry | engine/crates/federated-graph/src/from_sdl.rs:1238-1244 | Looking a field up by type and name finds the last declared field of that type and name |
| FederatedSelecting.FindsFirst | engine/crates/federated-graph/src/from_sdl.rs:1250-1256 | Looking an argument up in its window is looking up the first declared one of that name |
| FederatedSelecting.ResolvesExactly | engine/crates/federated-graph/src/from_sdl.rs:1215-1294 | On the tables of a document a selection resolves if and only if the document declares every field, argument and type it names |
| FederatedAttach.AttachText | engine/crates/federated-graph/src/from_sdl.rs:1192-1213 | A selection in a directive is parsed and resolved on a type exactly if the document allows it, and the result stands for it |
| FederatedAttach.AttachInputFields | engine/crates/federated-graph/src/from_sdl.rs:1358-1400 | A selection of input fields succeeds exactly if every item names a field of the input object, with a selection exactly on input objects, and the result names the same fields at every depth |
| FederatedAttach.AttachArguments | engine/crates/federated-graph/src/from_sdl.rs:1310-1356 | A selection of arguments starts from the first argument of each name |
| FederatedAttach.JoinDirective | engine/crates/federated-graph/src/from_sdl.rs:671-737 | What one join__field directive adds: its subgraph unless it overrides, its provided selection on the type of the field and its required selection on the parent |
| FederatedAttach.JoinField | engine/crates/federated-graph/src/from_sdl.rs:666-747 | The field found by type and name gets what its directives say, or the subgraphs of its type if they name none |
| FederatedAttach.ReadDefaultGraphs | engine/crates/federated-graph/src/from_sdl.rs:650-664 | The subgraphs of a type that has no key; it panics exactly if one of them is unknown |
| FederatedAttach.ReadAuthorized | engine/crates/federated-graph/src/from_sdl.rs:762-804 | An authorization of a field is read exactly if its three selections resolve on their targets and its metadata hold no variable |
| FederatedAttach.CloseFieldsOf | engine/crates/federated-graph/src/from_sdl.rs:617-639 | The directives on the fields of a type definition, but not of an extension, are read exactly if all of them can be |
| FederatedAttach.AuthorizeType | engine/crates/federated-graph/src/from_sdl.rs:500-549 | The first authorization on a known type is read and entered for objects and interfaces |
| FederatedAttach.ReadKey | engine/crates/federated-graph/src/from_sdl.rs:562-592 | A key is read exactly if its graph is a known enum value and its selection resolves on the type; resolvable unless it says otherwise |
| FederatedAttach.IngestSelectionSets | engine/crates/federated-graph/src/from_sdl.rs:494-498 | The closing pass succeeds exactly if every directive can be read, and what it writes stands for what the document says although strings were interned in between |
| FederatedClosing.LastFieldDecides | engine/crates/federated-graph/src/from_sdl.rs:666-747 | A field ends up with what the last definition of its type and name says |
| FederatedClosing.UnwrittenFieldStays | engine/crates/federated-graph/src/from_sdl.rs:617-639 | A field that only an extension declares keeps what it began with |
| FederatedClosing.ClosingGrows | engine/crates/federated-graph/src/from_sdl.rs:494-498 | Strings that are interned later change nothing about what was written |
| FederatedReadings.ExtraIsWritten | engine/crates/federated-graph/src/from_sdl.rs:670-747 | A field is resolved where its own directives place it, or else in the defaults of its type; what it provides and requires is, in order and none left out, what the text of these arguments parses to in each directive that names a subgraph and is not external |
| FederatedReadings.DefaultsAreWritten | engine/crates/federated-graph/src/from_sdl.rs:650-668 | The defaults of a type with a key are none, those of another type all the subgraphs of its join__type directives; an unknown subgraph is accepted exactly on a type with a key |
| FederatedReadings.KeysAreWritten | engine/crates/federated-graph/src/from_sdl.rs:551-615 | The keys of an object or interface are, in order and none left out, those of the join__type directives on its definitions, with their subgraph, selection and two flags; other types have none |
| FederatedReadings.AuthorizationsAreWritten | engine/crates/federated-graph/src/from_sdl.rs:500-549 | The authorizations are those on fields, in order and each listed with its field, followed by the first one on each type, listed with its object or interface; each holds what its arguments of these names say |
| FederatedIngest.FromSdl | engine/crates/federated-graph/src/from_sdl.rs:179-247 | Ingestion succeeds if and only if the document is ingestible: all three passes accept it and there is a root query type; then tables, ranges, links, keys, authorizations and selections are those of the document |
| FederatedTheorems.FieldsAreFound | engine/crates/federated-graph/src/from_sdl.rs:666-668 | Every field that a definition lists is found again by its type and name together with its type, so these lookups of the closing pass never panic |
| FederatedTheorems.ExtrasReadBack | engine/crates/federated-graph/src/from_sdl.rs:702-746 | In an ingested document what a field provides and requires erases to the source after all later interning, and every field in it lies in the range of the type it is selected on |
| FederatedTheorems.KeysReadBack | engine/crates/federated-graph/src/from_sdl.rs:562-610 | The same for the keys of types |
| FederatedTheorems.LastInterfaces | engine/crates/federated-graph/src/from_sdl.rs:334-368 | The interfaces of a type are those that its last definition lists |
| FederatedTheorems.MembersAccumulate | engine/crates/federated-graph/src/from_sdl.rs:1092-1105 | The members of a union accumulate over its definition and extensions, in order |
| FederatedTheorems.ResolvedAsWritten | engine/crates/federated-graph/src/from_sdl.rs:641-750 | In an ingested document a field is resolved where the directives of its last definition place it, or else where the directives of that type say |
| FederatedTheorems.EnumDefaults | engine/crates/federated-graph/src/from_sdl.rs:115-141 | A default that names a value of the enum of its type is bound to that value; any other enum value stays a name |
| FederatedPartition.RangesAreSound | engine/crates/federated-graph/src/from_sdl.rs:262-309 | No range ever contains a field of another type |
| FederatedPartition.RangesPartition | engine/crates/federated-graph/src/from_sdl.rs:179-247 | The ranges partition the field table if and only if no type is given fields twice and none takes over an added root type |
| FederatedPartition.LostHasNoOwner | engine/crates/federated-graph/src/from_sdl.rs:1142-1190 | A field whose range was replaced belongs to no type |
| FederatedPartition.RangeListsFields | engine/crates/federated-graph/src/from_sdl.rs:262-309 | A range lists the declared fields of its type in order, the root's ending in the two reserved ones |
| FederatedPartition.InputObjectListsInputs | engine/crates/federated-graph/src/from_sdl.rs:1107-1140 | In the end an input object's window lists what its last definition declares |
| FederatedPartition.EntriesLeadToOwners | engine/crates/federated-graph/src/from_sdl.rs:1087 | Looking a field up by type and name leads into the range of that type, and every declared field can be looked up |
| FederatedPartition.ResolvedFieldsBelong | engine/crates/federated-graph/src/from_sdl.rs:1215-1294 | Every field of a resolved selection, at any depth, lies in the range of the type it is selected on |
| FederatedPartition.TakeOverLosesFields | engine/crates/federated-graph/src/from_sdl.rs:191-223 | A concrete schema is ingested although the first two of its four fields belong to no type |
| DefinitionGroups.AllHandedOut | engine/crates/composition/src/subgraphs.rs:100-122 | The groups together are all definitions that are not root types, each once; there is one group per name holding all its definitions in subgraph order |
| DefinitionGroups.GroupIsWritten | engine/crates/composition/src/subgraphs.rs:100-122 | A group holds the definitions of its name that are no root type of their subgraph, in order and none left out |
| DefinitionGroups.NamesAreWritten | engine/crates/composition/src/subgraphs.rs:100-122 | There is a group for exactly the names of the entries |
| DefinitionGroups.IterDefinitionGroups | engine/crates/composition/src/subgraphs.rs:100-122 | The pass with a current key and a buffer hands out exactly these groups, after one empty call |
| EmissionModel.SortByNameSorts | engine/crates/composition/src/emit_federated_graph.rs:258-264 | The fields of a group are reordered by name and nothing is added or dropped |
| EmissionModel.SortByNameIsStable | engine/crates/composition/src/emit_federated_graph.rs:258-264 | Fields of one name keep their order |
| EmissionGroups.GroupEnd | engine/crates/composition/src/emit_federated_graph/emit_fields.rs:12-14 | Binary search finds the end of a group of consecutive fields |
| EmissionGroups.CollectGroup | engine/crates/composition/src/emit_federated_graph.rs:249-256 | A group is the definition's own fields followed by those inherited from entity interfaces |
| EmissionGroups.GroupIsWritten | engine/crates/composition/src/emit_federated_graph.rs:245-256 | A group is made of the fields that name the definition as their parent and, for an object, of the entity fields listed under the name of that object, in order and none left out |
| Emission.Emitter.EmitField | engine/crates/composition/src/emit_federated_graph.rs:280-341 | A record with the name, type and arguments of the field is appended and entered, and its provided and required selections are set aside under its id |
| Emission.Emitter.EmitGroup | engine/crates/composition/src/emit_federated_graph.rs:245-386 | The block of a definition is appended and becomes its range; the root query type gets two more fields |
| EmissionGroups.EmitGroups | engine/crates/composition/src/emit_federated_graph/emit_fields.rs:5-22 | Every definition with fields ends up with exactly one block of its own, and the blocks partition the table |
| EmissionTheorems.BlockIsSorted | engine/crates/composition/src/emit_federated_graph.rs:258-377 | A block holds the fields of its group by name, a permutation of them, then the reserved ones |
| EmissionSelections.AttachExactly | engine/crates/composition/src/emit_federated_graph.rs:496-551 | Resolving succeeds exactly if the selection refers to fields, arguments and types that were emitted, in whatever order |
| EmissionSelections.AttachedMeans | engine/crates/composition/src/emit_federated_graph.rs:496-551 | Every resolved field has the name that was written and lies in the block of the definition it is selected on, and its arguments are its own, found by name |
| EmissionSelections.AttachIsStable | engine/crates/composition/src/emit_federated_graph.rs:388-400 | Attaching selections to fields does not change how later selections resolve |
| EmissionTheorems.AttachProvisions | engine/crates/composition/src/emit_federated_graph.rs:388-393 | Provided selections are attached in order to their own fields; nothing else changes |
| EmissionTheorems.AttachRequirements | engine/crates/composition/src/emit_federated_graph.rs:395-400 | Required selections are attached in order to their own fields; nothing else changes |
| EmissionTheorems.EmitFields | engine/crates/composition/src/emit_federated_graph.rs:215-400 | Emission succeeds exactly if all output types are known and every selection resolves against the complete tables; then the range of every definition holds one record for each field of its group by name, with its name, type and arguments, what it provides resolved on its type and what it requires on the definition it is emitted for |
| TypedTypes.FlatteningIsLossless | cli/crates/typed-resolvers/src/analyze.rs:240-260 | The nested type can be rebuilt from its flat form |
| TypedTypes.FlatteningIsOnto | cli/crates/typed-resolvers/src/analyze.rs:240-260 | Every flat form is the flattening of its nested type |
| TypedTypes.RenderGraphqlType | cli/crates/typed-resolvers/src/codegen.rs:94-135 | The loop wraps the name once for every list, from the inside out |
| TypedTypes.RenderingIsDirect | cli/crates/typed-resolvers/src/codegen.rs:94-135 | Resolving succeeds exactly for builtin and defined names, and rendering the flat form is rendering the nested type directly |
| TypedTypes.ResolvesExactly | cli/crates/typed-resolvers/src/analyze.rs:173-182 | A type resolves exactly to the flat type that nests to it and whose name stands for a builtin scalar or else for a definition |
| TypedTypes.DirectIsTypeScript | cli/crates/typed-resolvers/src/codegen.rs:94-135 | The text of every type as written: scalars as number, string, boolean or any, other types by way of the schema, lists as arrays, nullable types as unions with null |
| KeyedTables.PartitionPoint | cli/crates/typed-resolvers/src/analyze.rs:384 | Binary search ends at a boundary of the key in every table, and splits a sorted table at the key |
| KeyedTables.IterForKey | cli/crates/typed-resolvers/src/analyze.rs:383-389 | Searching and reading while the id matches gives the run at a boundary; in a sorted table this is filtering the whole table |
| KeyedTables.JoinedSorted | cli/crates/typed-resolvers/src/analyze.rs:86-151 | A table joined from segments of one id each is sorted if and only if no non-empty segment is followed by one of a smaller id |
| KeyedTables.JoinedFiltered | cli/crates/typed-resolvers/src/analyze.rs:86-151 | Filtering such a table by an id gives the values of the segments of that id, in order |
| KeyedTables.SortByKeyIsStable | cli/crates/typed-resolvers/src/analyze.rs:157-158 | Sorting keeps the entries of each id in their order |
| KeyedTables.SortedIsUntouched | cli/crates/typed-resolvers/src/analyze.rs:157-158 | Sorting is the identity exactly on sorted tables |
| TypedSchema.AnalyzedSchema.AnalyzeTopLevel | cli/crates/typed-resolvers/src/analyze.rs:16-82 | The first pass registers the declared definitions and the missing root types, and sorts the interface implementations |
| TypedSchema.AnalyzedSchema.AnalyzeArguments | cli/crates/typed-resolvers/src/analyze.rs:112-122 | The arguments whose types resolve are recorded under the position of their field |
| TypedSchema.AnalyzedSchema.AnalyzeFields | cli/crates/typed-resolvers/src/analyze.rs:86-159 | The second pass finds exactly the resolvable fields, arguments and variants of the document and then sorts |
| TypedSchema.Analyze | cli/crates/typed-resolvers/src/analyze.rs:6-13 | The tables of an analyzed document, with the tables that are searched by id sorted |
| TypedSchema.AnalyzedSchema.IterFieldArguments | cli/crates/typed-resolvers/src/analyze.rs:383-389 | The query is filtering the argument table by position |
| TypedSchema.AnalyzedSchema.IterObjectFields | cli/crates/typed-resolvers/src/analyze.rs:416-422 | The query is filtering the field table by object |
| TypedSchema.AnalyzedSchema.IterEnumVariants | cli/crates/typed-resolvers/src/analyze.rs:424-430 | The query is filtering the table of enum values by enum |
| TypedSchema.AnalyzedSchema.IterUnionVariants | cli/crates/typed-resolvers/src/analyze.rs:432-438 | The query gives the records of the run at a boundary; if the table is sorted, those of all objects filtered by union |
| TypedSchema.AnalyzedSchema.PushCustomResolver | cli/crates/typed-resolvers/src/analyze.rs:487-508 | The assertion holds exactly if no matching field has a resolver; then exactly the matching fields of the parent get it and the table stays sorted |
| TypedTheorems.ArgumentsOfPosition | cli/crates/typed-resolvers/src/analyze.rs:109-124 | Sorting the arguments changes nothing, and a position's arguments are those of the field found there |
| TypedTheorems.EntriesAreWritten | cli/crates/typed-resolvers/src/analyze.rs:86-154 | Every entry of the second pass is the analysis of the field or input field it was found as |
| TypedTheorems.ArgumentsStayAligned | cli/crates/typed-resolvers/src/analyze.rs:383-396 | Where the field sort changes nothing, every field is found at its position with exactly the resolvable arguments its node declares, if and only if no interface field entered under an object declares an argument that resolves |
| TypedTheorems.SortIsIdentity | cli/crates/typed-resolvers/src/analyze.rs:157 | For every document the field sort changes nothing if and only if no two contributing definitions are misplaced |
| TypedPlain.MisplacedExactly | cli/crates/typed-resolvers/src/analyze.rs:71-79 | Without extensions and repeated names, definitions are misplaced exactly if the first is an interface named like a root type and the second an object, an input object or such an interface of lower rank |
| TypedPlain.PlainSortIsIdentity | cli/crates/typed-resolvers/src/analyze.rs:157 | For such documents the sort is the identity if and only if nothing is out of order in that sense |
| TypedPlain.ShiftedArguments | cli/crates/typed-resolvers/src/analyze.rs:126-136 | A concrete plain document after whose sort a field is found without its argument |
| TypedPlain.DroppedArgument | cli/crates/typed-resolvers/src/analyze.rs:126-136 | A concrete plain document that the sort leaves alone, whose one field has an argument that resolves and is found without it |
| TypedQueries.FirstPassWellNamed | cli/crates/typed-resolvers/src/analyze.rs:440-485 | Every definition is recorded under the name it is found by |
| TypedQueries.RendersAsWritten | cli/crates/typed-resolvers/src/codegen.rs:94-135 | Every type that resolves against a schema is rendered as it was written |
| TypedQueries.ResolverNamedExactly | cli/crates/typed-resolvers/src/analyze.rs:214-228 | A field has a resolver exactly if the first name argument of its first resolver directive is a string |
| TypedQueries.EnumVariantsAreDeclared | cli/crates/typed-resolvers/src/analyze.rs:424-430 | For every document the table of enum values is sorted and an enum's values are those it declares |
| TypedQueries.ObjectFieldsAreDeclared | cli/crates/typed-resolvers/src/analyze.rs:416-422 | For every document the field table is sorted and an object has the fields entered for its definition and its extensions, in order, whether or not the sort moved them |
| TypedReadings.ObjectFieldsAreRead | cli/crates/typed-resolvers/src/analyze.rs:416-422 | For every document the fields found for an object are, in order and none left out, one for each node of its definition and extensions whose type resolves, with the name of the node, its resolved type, whether it has arguments, and its resolver |
| TypedReadings.EntriesAreRead | cli/crates/typed-resolvers/src/analyze.rs:86-159 | The entries of the second pass are, in order and none left out, one for each node whose type resolves, under its object; fields of objects have all arguments whose types resolve, those of interfaces none |
| TypedReadings.DefinitionIsRead | cli/crates/typed-resolvers/src/analyze.rs:104-150 | The same for one definition |
| TypedReadings.MembersAreRead | cli/crates/typed-resolvers/src/analyze.rs:92-103 | The members of a union definition are the objects among the names it lists, in order and none left out |
| TypedReadings.NameStandsForLast | cli/crates/typed-resolvers/src/analyze.rs:16-68 | A name stands for the last definition entered under it, of its own kind and with its own record |
| TypedQueries.PlainObjectFields | cli/crates/typed-resolvers/src/analyze.rs:416-422 | Without extensions and repeated names these are the fields of its one definition |
| TypedQueries.UnionsSortedExactly | cli/crates/typed-resolvers/src/analyze.rs:92-103 | For every document the union table is sorted if and only if no two union definitions or extensions with variants come up with descending ids |
| TypedQueries.UnionVariantsAreDeclared | cli/crates/typed-resolvers/src/analyze.rs:432-438 | For every document the entries of a union are the objects that its definition and its extensions list, in order, and searching finds exactly them where nothing descends |
| TypedQueries.PlainUnionsAscend | cli/crates/typed-resolvers/src/analyze.rs:92-103 | Without extensions and repeated names nothing descends |
| TypedQueries.ExtensionIsLost | cli/crates/typed-resolvers/src/analyze.rs:432-438 | A concrete document whose union table is not sorted and whose query loses the member that an extension adds, wherever the search ends |
| TypedQueries.ImplementationsAreDeclared | cli/crates/typed-resolvers/src/analyze.rs:39-44 | The table of implementations is sorted and holds exactly the pairs that object definitions declare |
| InterfaceGroups.IterInterfaces | cli/crates/typed-resolvers/src/analyze.rs:398-414 | Every interface comes up once, with all its implementers, and the groups make up the table |
| PersistedQueries.HexId | engine/crates/gateway-core/src/trusted_documents.rs:62-70 | The loop writes two lower-case digits for every byte |
| PersistedQueries.HexDigits | engine/crates/gateway-core/src/trusted_documents.rs:62-70 | Each byte is written as its two digits out of 0123456789abcdef, at its own place |
| PersistedQueries.HexIsInjective | engine/crates/gateway-core/src/trusted_documents.rs:62-70 | Different hashes have different ids |
| PersistedQueries.KeysDiffer | engine/crates/runtime/src/cache/mod.rs:194-196 | Different hashes have different cache keys |
| PersistedQueries.KindsDiffer | engine/crates/gateway-core/src/trusted_documents.rs:78-150 | A trusted document never shares a key with a persisted query |
| PersistedQueries.ApqKeyIsWritten | engine/crates/gateway-core/src/trusted_documents.rs:138-150 | The key of a persisted query as it is written |
| PersistedQueries.TrustedKeyIsWritten | engine/crates/gateway-core/src/trusted_documents.rs:79-91 | The key of a trusted document as it is written |
| PersistedQueries.ApqAnswers | engine/crates/gateway-core/src/trusted_documents.rs:138-192 | Exactly when a persisted query is served, and with which text, and exactly when each error is given; the cache changes only by a text that was sent and served |
| PersistedQueries.TrustedAnswers | engine/crates/gateway-core/src/trusted_documents.rs:79-136 | The same for trusted documents; the cache changes only by a text that was fetched and served |
| PersistedQueries.Gateway.HandleApq | engine/crates/gateway-core/src/trusted_documents.rs:138-192 | Answer and new cache for every request and cache failure; a sound cache stays sound and a served query has the requested hash |
| PersistedQueries.Gateway.HandleTrusted | engine/crates/gateway-core/src/trusted_documents.rs:79-136 | Answer and new cache; persisted queries are not touched |
| PersistedQueries.Gateway.HandlePersistedQuery | engine/crates/gateway-core/src/trusted_documents.rs:18-52 | The dispatch on enabled trusted documents, extension and document id; soundness is kept |
| PersistedQueries.KeptAlways | engine/crates/gateway-core/src/trusted_documents.rs:138-192 | In every run, whatever is kept under a hash has that hash and was registered by an earlier request |
| PersistedQueries.ServedQueriesMatch | engine/crates/gateway-core/src/trusted_documents.rs:138-192 | In every run, a query served for a hash has that hash and was registered under it |
| PersistedQueries.RegisteredQueriesAreFound | engine/crates/gateway-core/src/trusted_documents.rs:176-192 | A registered query is found by its hash as long as the cache remembers it and can be read |
| PersistedQueries.RegisteredIsServed | engine/crates/gateway-core/src/trusted_documents.rs:138-176 | A text that is sent with version 1 and its own hash while the cache can be written is served |
| PersistedQueries.ServedDocumentsWereFetched | engine/crates/gateway-core/src/trusted_documents.rs:79-136 | In every run the text served for a trusted document was given by the store for it, now or earlier, for a client and id that are written alike |
| PersistedQueries.AlikeIsSame | engine/crates/gateway-core/src/trusted_documents.rs:87-91 | Client names without a slash and ids that are written alike are the same |
| GraphRef.ParseThenPrint | graph-ref/src/lib.rs:72-135 | Every accepted string prints back to itself |
| GraphRef.PrintThenParse | graph-ref/src/lib.rs:72-135 | A printed reference parses back to itself if and only if its slug is non-empty and free of @ and / and its branch, if any, is free of # |
| GraphRef.AcceptedExactly | graph-ref/src/lib.rs:72-116 | The accepted strings are exactly the printed forms of such references |
| GraphRef.PrintingIsInjective | graph-ref/src/lib.rs:119-135 | Distinct such references print differently |
| GraphRef.SuggestionDropsAccount | graph-ref/src/lib.rs:95-113 | The suggestion for a reference with an account name is what was written without the account |
| GraphRef.SuggestionIsAccepted | graph-ref/src/lib.rs:95-113 | A suggestion is accepted if and only if the slug it gives holds no further account name |

## Left out

- Implemented interfaces, entity keys, union members, subgraphs, overrides and `@authorized` directives in emission: further columns of the same tables.
- FederatedIngest.IngestField: overrides of a field are not kept; reading them never fails.
- FederatedDefinitions.RegisterType: descriptions and directives of type definitions and enum values are read, but their records are not kept; only the names of types are.
- FederatedIngest.FromSdl: does not say which error or panic is reported when several apply, only when ingestion succeeds; the mutation and subscription root types, which never fail, are not kept.
- EmissionSelections.AttachExactly: argument values are carried along as they are; their conversion is modelled for `from_sdl`.
- EmissionGroups.EmitGroups: requires that the fields of a definition are consecutive, because the binary search for the end of a group is meaningless otherwise.
- DataLoaderTheorems.PoisonedExactly: one key type; a panic under the lock for another key type of the same loader is not modelled.
- Subscriptions, and requests that fail before they are executed.
- Documentation comments and the layout of generated TypeScript modules.
- Expiry times and tags of cache entries; a failed write is modelled as leaving the cache as it was.
- The `lru` crate, SHA-256, JSON encoding and all GraphQL text parsing.
- Composition rules, SDL rendering, command line, networking, authentication and telemetry.
