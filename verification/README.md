# Verified model of the MLflow Kubernetes plugins

A Dafny model of how the plugins decide who may do what, and of the caches and rewrites those decisions rest on.
`dafny verify dfyconfig.toml` checks all of it.

The modules follow the program:

- **Caches and their lock.** `TimedEntries` is the insertion-ordered table of entries with expiry. `LookupCache` is the
  TTL and LRU name cache, compared with a reference that remembers when each key was last touched. `GenerationCache` is the
  name-to-id cache whose generation counter keeps a lookup that raced a rename from being stored. `ExpiringCache` is the
  access-review cache with its two locked phases, and `ReadWriteLock` the writer-preferring lock below it. Each has the
  class the program has, and a step machine over any number of threads. `ForwardCache` is the id-to-name cache, which has no
  generation, racing with renames; `ExperimentCaches` holds the callers.
- **List/watch replicas.** `ClusterHistory` is the API server as a sequence of versions; `Replication` the watch thread as a
  step machine over it; `NamespaceCache`, `ConfigCache` and `SecretCache` the objects; `LiveLookups` the request threads that
  look names up beside it; `ReloadRace` adds the reloads that they make.
- **GraphQL.** `GraphQLDocument` gives field collection by chains of fields, inline fragments and spreads (section 6.3.2 of
  the GraphQL specification, October 2021); `GraphQLTraversal` the worklist; `GraphQLRules` the rules derived from its report.
- **Deciding and narrowing.** `Requests`, `ResourceNames`, `Narrowing`, `IdFilters`, `GetBody` and `QueryParams` read and
  rewrite requests; `ReadIds` is what a handler then reads; `AccessReview` and `CollectionScopes` ask the cluster;
  `Authority`, `Gateway` and `Decision` are the rule loop. `RuleAcceptance` and `UseChecks` say exactly when it accepts, from
  the rule, the request and the reviews; `GatewayDependencies` is what gateway requests really depend on; `DecisionSoundness`
  says what acceptance means for the handler; `DecisionMonotonicity` and `SelectedIds` compare two runs under different grants.
- **Routes and paths.** `Templates` are the two template-to-pattern compilers with a backtracking matcher, `TemplateTokens` what
  the tokens of a template are; `RouteTable` is the three-pass table and its lookups, and `RouteSources` where every rule in it
  comes from; `ArtifactPath` the path validator; `ArtifactRoot` where artifacts go.

The cluster is an arbitrary oracle from questions to answers, the tracking store an arbitrary partial map, rule tables are
arbitrary. Clocks are parameters and assumed monotone. `max_entries` is at least one.

Some statements the code or its comments suggest do not hold, and are given with their exact condition or a concrete case:

- The comment at `mlflow_kubernetes_plugins/auth/compiler.py:142` says explicit entries always win. Literal ones do
  (`LiteralEntryAlwaysWins`); templated ones win exactly when nothing shadows them (`TemplatedEntryWinsIff`), and can be
  shadowed (`TemplatedEntryCanBeShadowed`).
- A fragment shared by two places is expanded where it is first met. A root field can be missed for that
  (`SharedFragmentCanHideRootField`), and so can the root field that a registry access belongs to, and with it the registry
  rule (`SharedFragmentCanDropRegistryRule`); exactly when, is `MissedRootFieldIff`, `MissedRegistryIff` and
  `RegistryRuleIff`. Valid typed documents exclude the first (section 5.5.2.3 of the same GraphQL specification).
- What passes the filter of an id policy is, as its handler reads it, some ids and only ids that may be read, exactly unless
  the filter leaks (`FilteredRuleIsScopedIff`): the query satisfies the filter, and in the body the handler finds none
  (`QueryAloneIsNotRead`), or, the body being unread (`UnreadBodyIsNotFiltered`), a JSON string (`StringBodyIsNotFiltered`)
  or spelled the other way (`AliasBodyIsNotFiltered`), one that may not be read; or, of a GET with a query, it is the body
  that satisfies the filter, or a later one of several values of a single id. Later rules keep this if they do not filter,
  or filter the ids of another field (`DecisionIsSound`); other filters need not (`LaterFilterCanUnscope`).
- The check for `use` covers the dependencies of a gateway mutation, whatever the grants, exactly unless it misses one
  (`CoversIff`). `DefinitionsCoveredIff` and `SecretsCoveredIff` say when, of the request and the store: it goes by the names
  of the ids it looks at, but by none if one of them does not resolve (`UnresolvedIdHidesTheOthers`); and it does not look at
  an id that is spelled the other way, itself or its configuration (`AliasSecretIsNotChecked`,
  `AliasDefinitionIsNotChecked`), in a JSON string, or in a body that the query of a DELETE leaves unread
  (`UnreadDependencyIsNotChecked`). Without names it refuses a creation, and an update falls back on what is stored, if
  anything.
- A config lookup can be answered with nothing on the strength of a refusal older than the call (`StaleRefusalCanAnswer`);
  all other negative answers are fresh (`NegativeAnswersAreFresh`).
- An exception in a waiting writer can leave readers asleep on a free lock (`InterruptedWriterCanStrandReader`).
- Two overlapping reloads can leave a config cache that shows no version of the history (`OverlappingReloadsCanDiverge`).
- The forward name cache may serve a renamed experiment's old name for one TTL (`OldNameCanBeServed`), exactly when the name
  it holds was read or written before the latest write (`HitIsStaleIff`).
- Gaining broad permission can cost an acceptance: for gateway mutations (`BroadGrantCanRefuse`, `BroadGrantCanRefuseDelete`)
  and scorer listings (`BroadGrantCanRefuseScorers`), exactly when `AcceptedStaysAcceptedIff`, `BroadGrantKeepsMutationIff` and
  `ScorersStayAcceptedIff` say.

## Model

| member | source | states |
|---|---|---|
| LookupCache.RunRefines | mlflow_kubernetes_plugins/auth/resource_names.py:84-126 | every sequence of get, set, invalidate and clear gets the answers of a TTL cache that evicts the least recently touched live key; storage order is last-touch order and the size stays within the bound |
| LookupCache.RunIsDistinct | mlflow_kubernetes_plugins/auth/resource_names.py:84-126 | no run stores a key twice |
| LookupCache.LifetimeFixedBySet | mlflow_kubernetes_plugins/auth/resource_names.py:98-118 | hits never extend a lifetime: a stored entry expires one TTL after the set that made it |
| LookupCache.HitIsLatestSet | mlflow_kubernetes_plugins/auth/resource_names.py:98-109 | a hit is the value of the latest set of its key, not invalidated or cleared since, made less than one TTL ago |
| LookupCache.NameLookupCache.Get | mlflow_kubernetes_plugins/auth/resource_names.py:98-109 | answer and whole new state of a lookup: a hit moves to the end with its expiry unchanged, an expired entry of the key is dropped |
| LookupCache.NameLookupCache.Set | mlflow_kubernetes_plugins/auth/resource_names.py:111-118 | whole new state of a set, evictions from the front included |
| LookupCache.NameLookupCache.Invalidate | mlflow_kubernetes_plugins/auth/resource_names.py:120-122 | exactly the key goes |
| LookupCache.NameLookupCache.Clear | mlflow_kubernetes_plugins/auth/resource_names.py:124-126 | nothing is left |
| TimedEntries.ReapExpired | mlflow_kubernetes_plugins/auth/resource_names.py:91-96 | the loop removes exactly the expired entries and keeps the order of the others |
| TimedEntries.InsertInPlace | mlflow_kubernetes_plugins/auth/authorizer.py:176-191 | the two eviction loops of a set leave the new entry last and at most the bound |
| GenerationCache.RunKeepsInvariant | mlflow_kubernetes_plugins/auth/resource_names.py:135-159 | in every interleaving of resolvers and mutators, each cached mapping and each in-flight answer of the current generation is the store's, unless its key was changed by a mutator whose clear has not run |
| GenerationCache.QuietCacheIsSubmapOfStore | mlflow_kubernetes_plugins/auth/resource_names.py:135-159 | with no mutation awaiting its clear the cache is a sub-map of the store |
| GenerationCache.UndisturbedResolveCaches | mlflow_kubernetes_plugins/auth/resource_names.py:140-154 | a resolver that nothing comes between stores what the store has, for one lifetime, unless a usable id was cached; of a missing name it stores nothing |
| GenerationCache.SomeRunCaches | mlflow_kubernetes_plugins/auth/resource_names.py:140-154 | there is a run that caches what the store has |
| GenerationCache.OvertakenAnswersAreDropped | mlflow_kubernetes_plugins/auth/resource_names.py:149-154 | an answer that a clear has overtaken changes nothing in the cache |
| GenerationCache.MutationsClear | mlflow_kubernetes_plugins/auth/resource_names.py:156-159 | a mutation owes a clear for the keys it changes; a clear empties the cache and overtakes every answer on its way |
| GenerationCache.ExperimentIdLookupCache.Resolve | mlflow_kubernetes_plugins/auth/resource_names.py:140-154 | the sequential resolve: a hit needs no query; a found id is stored; a missing name is not |
| GenerationCache.ExperimentIdLookupCache.BeginResolve | mlflow_kubernetes_plugins/auth/resource_names.py:140-148 | the first locked phase: the hit, or the generation to remember |
| GenerationCache.ExperimentIdLookupCache.EndResolve | mlflow_kubernetes_plugins/auth/resource_names.py:149-154 | the second locked phase stores only under the remembered generation |
| GenerationCache.ExperimentIdLookupCache.Clear | mlflow_kubernetes_plugins/auth/resource_names.py:156-159 | clears and starts a new generation |
| ExperimentCaches.ResolveExperimentIds | mlflow_kubernetes_plugins/auth/resource_names.py:374-386 | each distinct name, in order, is answered by a live cached id or by storage, and every id found is given once; it fails only if a lookup does; a cache that agrees with storage does not show in the result |
| ExperimentCaches.ResolveOne | mlflow_kubernetes_plugins/auth/resource_names.py:140-154 | a live usable cached id, otherwise what the store answers; a cache that agrees with the store stays so |
| ExperimentCaches.UpdateExperimentNameCache | mlflow_kubernetes_plugins/auth/resource_names.py:1143-1149 | the id cache is cleared whatever happens; the name is set, stripped, exactly if it and the id are usable |
| ExperimentCaches.ApplyResponseCacheUpdates | mlflow_kubernetes_plugins/auth/resource_names.py:1152-1185 | after a successful rename or delete both caches are as the response requires; a failed write changes neither |
| ForwardCache.HitIsStaleIff | mlflow_kubernetes_plugins/auth/resource_names.py:340-356 | in every run of racing lookups, renames and deletes a hit serves a name the store had where its lookup was answered or its rename written, set less than one TTL ago; it is stale if and only if the experiment was written after that, unless an old name came back |
| ForwardCache.OldNameCanBeServed | mlflow_kubernetes_plugins/auth/resource_names.py:340-356 | a run in which a lookup overtaken by a rename stores the old name, which is then served for one TTL and no longer |
| ForwardCache.UndisturbedLookup | mlflow_kubernetes_plugins/auth/resource_names.py:340-356 | a lookup that nothing comes between leaves the name of the store in the cache for one TTL |
| ForwardCache.UndisturbedWrite | mlflow_kubernetes_plugins/auth/resource_names.py:1143-1185 | a rename whose cache update nothing comes between leaves the new name there for one TTL, a delete none |
| ResourceNames.ResolveResourceNames | mlflow_kubernetes_plugins/auth/resource_names.py:1122-1140 | the parser loop computes the specified resolution, first failure first |
| ResourceNames.ResolutionIsExact | mlflow_kubernetes_plugins/auth/resource_names.py:1122-1140 | names come back exactly when every parser finds values and one is usable; they are then all the usable values, each once |
| ResourceNames.MissingIff | mlflow_kubernetes_plugins/auth/resource_names.py:1122-1140 | a missing reference comes back exactly when it is what the first parser without values reports |
| ExpiringCache.RunKeepsInvariant | mlflow_kubernetes_plugins/auth/authorizer.py:143-191 | under any interleaving of two-phase gets and sets the size is bounded, expirations are non-decreasing in insertion order, and every entry carries the latest set of its key |
| ExpiringCache.GetReturnsLatestSet | mlflow_kubernetes_plugins/auth/authorizer.py:150-162 | a get that returns a value returns the latest set of that key, made less than one TTL before |
| ExpiringCache.CleanupRemovesOnlyExpired | mlflow_kubernetes_plugins/auth/authorizer.py:163-174 | the cleanup phase removes no live entry, and leaves a newer one of its key in place |
| ExpiringCache.UndisturbedGet | mlflow_kubernetes_plugins/auth/authorizer.py:150-174 | a get whose phases nothing comes between drops an expired entry of its key, and changes nothing else |
| ExpiringCache.SetIsRead | mlflow_kubernetes_plugins/auth/authorizer.py:176-191 | what is set is read for one TTL when nothing else is set |
| ExpiringCache.ExpiringCache.Get | mlflow_kubernetes_plugins/auth/authorizer.py:150-174 | the two phases run together |
| ExpiringCache.ExpiringCache.Set | mlflow_kubernetes_plugins/auth/authorizer.py:176-191 | whole new state of a set |
| ExpiringCache.ExpiringCache.ReadPhase | mlflow_kubernetes_plugins/auth/authorizer.py:150-162 | the shared phase changes nothing; fresh exactly if the key has a live entry, stale exactly if it has an expired one |
| ExpiringCache.ExpiringCache.CleanupPhase | mlflow_kubernetes_plugins/auth/authorizer.py:163-174 | the exclusive phase removes the observed entry only if it has not been replaced |
| ReadWriteLock.RunKeepsExclusive | mlflow_kubernetes_plugins/auth/authorizer.py:75-107 | in every run the counters equal the threads in each phase and a writer is alone |
| ReadWriteLock.WriterExcludesEveryone | mlflow_kubernetes_plugins/auth/authorizer.py:94-107 | nobody else holds the lock while one thread writes |
| ReadWriteLock.RunKeepsWakeups | mlflow_kubernetes_plugins/auth/authorizer.py:75-107 | no wake-up is lost: a sleeping writer implies a holder, a sleeping reader a writer or a waiting writer, as long as no writer's wait is interrupted |
| ReadWriteLock.InterruptedWriterStrandsReaders | mlflow_kubernetes_plugins/auth/authorizer.py:94-103 | an interrupted writer keeps the wake-ups owed exactly if no sleeping reader was counting on it |
| ReadWriteLock.InterruptedWriterCanStrandReader | mlflow_kubernetes_plugins/auth/authorizer.py:94-103 | a run with an interrupted writer after which a reader sleeps on a lock nobody holds or waits to hold |
| ReadWriteLock.UnheldLockMakesProgress | mlflow_kubernetes_plugins/auth/authorizer.py:75-107 | an unheld lock with waiters has a waiter that is awake and can take it |
| ReadWriteLock.ReadersOnlyLeaveWhileWriterWaits | mlflow_kubernetes_plugins/auth/authorizer.py:82-92 | while a writer waits the reader count only falls |
| ReadWriteLock.ReadWriteLock.TryAcquireRead | mlflow_kubernetes_plugins/auth/authorizer.py:82-86 | one test of the reader's condition: the lock is taken or the state is unchanged |
| ReadWriteLock.ReadWriteLock.ReleaseRead | mlflow_kubernetes_plugins/auth/authorizer.py:88-92 | one reader fewer; waiters are notified when it was the last |
| ReadWriteLock.ReadWriteLock.TryAcquireWrite | mlflow_kubernetes_plugins/auth/authorizer.py:94-102 | one test of the writer's condition |
| ReadWriteLock.ReadWriteLock.ReleaseWrite | mlflow_kubernetes_plugins/auth/authorizer.py:104-107 | the writer leaves and everyone is notified |
| Replication.RunIsExact | mlflow_kubernetes_plugins/workspace_plugin/caches.py:162-280 | for every run of lists, events, bookmarks, errors, stream ends and lookups, the snapshot is the exclusion-filtered cluster state at one history version, the cursor's if there is one |
| Replication.ShownVersionNeverDecreases | mlflow_kubernetes_plugins/workspace_plugin/caches.py:162-280 | the version shown never decreases |
| Replication.HitsComeFromHistory | mlflow_kubernetes_plugins/workspace_plugin/caches.py:108-118 | a hit is what the history holds at the version shown |
| Replication.UndisturbedListShowsNow | mlflow_kubernetes_plugins/workspace_plugin/caches.py:162-189 | a list that nothing comes between shows the state of now, and the stream after it starts there |
| Replication.SomeRunShows | mlflow_kubernetes_plugins/workspace_plugin/caches.py:162-189 | there is a run that shows an object, read as it is |
| Replication.StreamCatchesUp | mlflow_kubernetes_plugins/workspace_plugin/caches.py:206-280 | an open stream that delivers every event brings the snapshot to the state of now |
| LiveLookups.AnswersAreExplained | mlflow_kubernetes_plugins/workspace_plugin/caches.py:108-148 | over every run of request threads, commits, changes of access and other writers, every negative answer given was for an excluded name, or came from a lookup evaluated during the call at a version where nothing was there, or from a refused list; and every answer looked up was there at a version during the call |
| LiveLookups.UndisturbedCall | mlflow_kubernetes_plugins/workspace_plugin/caches.py:332-418 | a call that nothing comes between is answered from the snapshot, by exclusion, or by the state of now; an optional resource that is not available is listed first, and a refusal is then the answer |
| LiveLookups.NegativeAnswersAreFresh | mlflow_kubernetes_plugins/workspace_plugin/caches.py:332-401 | so at some version during the call the name was absent, excluded, or an optional resource could not be listed; the exception is an answer that goes by a refusal older than the call |
| LiveLookups.StaleRefusalCanAnswer | mlflow_kubernetes_plugins/workspace_plugin/caches.py:411-418 | a run with that exception: the availability flag is read back after another thread has installed its older refusal |
| ClusterHistory.NothingAppliesAfterError | mlflow_kubernetes_plugins/workspace_plugin/caches.py:235-240 | events of a stream after an ERROR are not applied |
| ClusterHistory.HandleAdvances | mlflow_kubernetes_plugins/workspace_plugin/caches.py:235-280 | handling the next change of the history moves the view from its version to the change's |
| ClusterHistory.HandleIsExact | mlflow_kubernetes_plugins/workspace_plugin/caches.py:235-280 | what an event does, name by name: one written has what the object reads as, one removed is gone, every other is as before; and where the cursor is afterwards |
| ClusterHistory.LastIsListed | mlflow_kubernetes_plugins/workspace_plugin/caches.py:174-189 | of several objects of one name in a list, the last counts |
| ClusterHistory.ListingIsView | mlflow_kubernetes_plugins/workspace_plugin/caches.py:174-189 | a listing that shows each object of a state once reads as the view of that state, for every one of the three caches |
| NamespaceCache.NamespaceCache.RefreshFull | mlflow_kubernetes_plugins/workspace_plugin/caches.py:162-189 | a list response replaces snapshot and cursor; each named namespace that is not excluded has the description of its last object |
| NamespaceCache.NamespaceCache.HandleEvent | mlflow_kubernetes_plugins/workspace_plugin/caches.py:235-280 | an event changes the object as the handler does; one that writes leaves the description of its object |
| NamespaceCache.NamespaceCache.ConsumeStream | mlflow_kubernetes_plugins/workspace_plugin/caches.py:206-233 | the stream loop stops at the first lost cursor and leaves none behind |
| NamespaceCache.NamespaceCache.GetNamespace | mlflow_kubernetes_plugins/workspace_plugin/caches.py:108-148 | hits from the snapshot, excluded names refused, misses answered by the live object only; nothing is changed |
| ConfigCache.MlflowConfigCache.RefreshFull | mlflow_kubernetes_plugins/workspace_plugin/caches.py:420-483 | outcome, snapshot, cursor and availability for every kind of list response; after a listing each named namespace has the artifact root path and the secret of the last object listed for it, field by field |
| ConfigCache.MlflowConfigCache.HandleEvent | mlflow_kubernetes_plugins/workspace_plugin/caches.py:554-600 | an event changes the object as the handler does; one that writes leaves the path and the secret of its object, each in its own field |
| ConfigCache.MlflowConfigCache.GetConfig | mlflow_kubernetes_plugins/workspace_plugin/caches.py:332-401 | nothing is answered only if the resource is missing or may not be listed or the live state has no config; otherwise the answer has the namespace, path and secret of the last object listed for it, or is the stored one; an available cache is left as it was |
| SecretCache.SecretCache.RefreshFull | mlflow_kubernetes_plugins/workspace_plugin/caches.py:705-743 | only a refusal makes the cache unavailable; other failures change nothing |
| SecretCache.SecretCache.HandleEvent | mlflow_kubernetes_plugins/workspace_plugin/caches.py:806-853 | an event changes the object as the specified handler says |
| SecretCache.SecretCache.GetSecret | mlflow_kubernetes_plugins/workspace_plugin/caches.py:665-694 | nothing is answered exactly when unavailable or the live lookup finds no Secret; nothing is changed |
| ReloadRace.ReloadsBetweenStreamsAreExact | mlflow_kubernetes_plugins/workspace_plugin/caches.py:411-418 | reloads by request threads keep the cache exact as long as none lands under an open stream |
| ReloadRace.ReloadUnderStreamIsExactIff | mlflow_kubernetes_plugins/workspace_plugin/caches.py:411-418 | when one does, the next event leaves an exact snapshot exactly if old and new view agree off that event's name |
| ReloadRace.RefusalUnderStreamIsExactIff | mlflow_kubernetes_plugins/workspace_plugin/caches.py:411-455 | when one is refused and clears the cache, exactly if nothing but the object of that event was there |
| ReloadRace.OverlappingReloadsCanDiverge | mlflow_kubernetes_plugins/workspace_plugin/caches.py:411-418 | two overlapping reloads after which the cache shows no version of the history |
| GraphQLTraversal.ExtractQueryInfo | mlflow_kubernetes_plugins/auth/graphql.py:233-331 | terminates on every document, a spread leading to the last fragment defined under its name, and to nothing if there is none; registry access is reported if and only if some operation reaches a registry field by any chain; a root field, or a root field with registry access, if and only if a chain reaches it that expands each fragment where it is first met |
| GraphQLTraversal.TraverseOperation | mlflow_kubernetes_plugins/auth/graphql.py:262-331 | the worklist of one operation computes the specified walk |
| GraphQLTraversal.TurnLowersMeasure | mlflow_kubernetes_plugins/auth/graphql.py:262-331 | each turn visits a fragment more or leaves a lighter stack, cyclic fragments included |
| GraphQLTraversal.OperationReport | mlflow_kubernetes_plugins/auth/graphql.py:262-331 | what one operation adds to the report, exactly |
| GraphQLTraversal.DisjointReportsRootFields | mlflow_kubernetes_plugins/auth/graphql.py:262-331 | where no fragment is spread both at root and below a field, every root field reached is reported |
| GraphQLTraversal.OnePlaceReportsRegistry | mlflow_kubernetes_plugins/auth/graphql.py:278-295 | where each fragment is spread in one place, every root field with registry access is reported |
| GraphQLTraversal.MissedRootFieldIff | mlflow_kubernetes_plugins/auth/graphql.py:290-331 | a root field is missed if and only if every chain to it expands a fragment elsewhere than where it is first met |
| GraphQLTraversal.MissedRegistryIff | mlflow_kubernetes_plugins/auth/graphql.py:278-331 | the same for the registry access of a root field |
| GraphQLTraversal.SharedFragmentCanHideRootField | mlflow_kubernetes_plugins/auth/graphql.py:290-331 | a document whose root field is missed |
| GraphQLTraversal.SharedFragmentCanHideRegistryOwner | mlflow_kubernetes_plugins/auth/graphql.py:278-331 | a document whose registry access is put down to another root field |
| GraphQLRules.DetermineRules | mlflow_kubernetes_plugins/auth/graphql.py:334-416 | no rules if a field is unmapped; otherwise one rule per verb and resource with all parsers of its fields, filterable only if every occurrence under its key is |
| GraphQLRules.FillDraft | mlflow_kubernetes_plugins/auth/graphql.py:352-405 | the three tables the loop fills, as functions of the fields seen |
| GraphQLRules.RulesForDocument | mlflow_kubernetes_plugins/auth/compiler.py:234-256 | if rules are returned, every root field of every operation is covered where root and nested fragments are disjoint, and every root field that does not scope itself and has registry access forces the registry rule where each fragment is spread in one place, fragments being those the document defines last under their names; none are returned exactly if a field of the report is unmapped, or there is nothing to ask for |
| GraphQLRules.RegistryRuleIff | mlflow_kubernetes_plugins/auth/graphql.py:352-364 | on any document, exactly when the registry rule is there |
| GraphQLRules.NamesExperimentsIff | mlflow_kubernetes_plugins/auth/graphql.py:212-218 | an occurrence is narrowed by its arguments exactly if its input has a non-empty list under the first spelling, or, that being empty, under the second |
| GraphQLRules.SharedFragmentCanDropRegistryRule | mlflow_kubernetes_plugins/auth/graphql.py:352-364 | a document with shared fragments for which it is not |
| AccessReview.ParseGroups | mlflow_kubernetes_plugins/auth/core.py:340-347 | exactly the parts of the header that are not empty once stripped, stripped, in order; usable groups if the header has no NUL |
| AccessReview.SplittingIsExact | mlflow_kubernetes_plugins/auth/core.py:346 | for any separator each part ends at the first one after it and the last holds none, and joined by it they give the header back |
| AccessReview.SerializeIsInjectiveUpToOrder | mlflow_kubernetes_plugins/auth/core.py:100-123 | the NUL-joined identity string determines the user and the groups up to order, for NUL-free users and non-empty NUL-free groups |
| AccessReview.SerializeCollidesOtherwise | mlflow_kubernetes_plugins/auth/core.py:100-123 | both conditions are needed: two colliding pairs |
| AccessReview.SubjectHashIsExact | mlflow_kubernetes_plugins/auth/core.py:100-123 | equal hashes if and only if the same subject |
| AccessReview.KeysIdentifyQueries | mlflow_kubernetes_plugins/auth/authorizer.py:531-545 | two requests share a cache key if and only if they put the same question to the cluster, effective name included |
| AccessReview.QuestionIsTheCallers | mlflow_kubernetes_plugins/auth/authorizer.py:131-140 | the cluster is asked what the caller asks: the resource without its underscores, verb, workspace and subresource as they are, and the name as it is, but none for a watch, or for a creation without a subresource |
| AccessReview.NamesAreToldApart | mlflow_kubernetes_plugins/auth/authorizer.py:531-545 | two requests of one subject that differ in a name that counts have different keys |
| AccessReview.KubernetesAuthorizer.IsAllowed | mlflow_kubernetes_plugins/auth/authorizer.py:522-610 | every answer is one the oracle gave to exactly the question the caller puts, name included where it counts, now or less than one TTL before |
| AccessReview.ConcurrentHitsAreGenuine | mlflow_kubernetes_plugins/auth/authorizer.py:522-610 | however many calls interleave, a cached answer is what the cluster said to exactly this question, stored less than one TTL ago |
| AccessReview.UndisturbedCallIsCached | mlflow_kubernetes_plugins/auth/authorizer.py:522-610 | a miss that nothing comes between is answered by the cluster, and its answer is then in the cache for one TTL |
| AccessReview.FirstCallIsCached | mlflow_kubernetes_plugins/auth/authorizer.py:522-610 | there is a run that asks the cluster once and has the answer in the cache for one TTL |
| CollectionScopes.DiscoverScope | mlflow_kubernetes_plugins/auth/authorizer.py:379-477 | broad access needs no names; otherwise the scope is, in order, exactly the candidates of the cached or reviewed rules that an access review allows; it fails exactly if neither gives rules |
| CollectionScopes.CollectCandidates | mlflow_kubernetes_plugins/auth/authorizer.py:448-463 | the candidate set is exactly the names, not empty, of rules about the group and the resource, or about all, that let them be read |
| Narrowing.NarrowingIsExact | mlflow_kubernetes_plugins/auth/collection_filters.py:413-483 | the source the handler reads carries, sorted and non-empty, exactly the allowed ids every asking source asked for; every source that named ids carries the same list; the rest is unchanged |
| Narrowing.NarrowingAppliesIff | mlflow_kubernetes_plugins/auth/collection_filters.py:413-483 | exactly when the narrowing applies; when it does not the request is unchanged |
| Narrowing.NarrowingIsIdempotent | mlflow_kubernetes_plugins/auth/collection_filters.py:413-483 | applying it again changes nothing |
| IdFilters.FilterReadable | mlflow_kubernetes_plugins/auth/collection_filters.py:161-190 | the loop keeps exactly the readable ids, in order |
| IdFilters.FilterIsExact | mlflow_kubernetes_plugins/auth/collection_filters.py:233-288 | applies if and only if some named id is readable; every source then names exactly its readable ids; a query left with none loses the field |
| IdFilters.FilterAppliesIff | mlflow_kubernetes_plugins/auth/collection_filters.py:233-288 | the list filters apply exactly when the body or the query has a readable id under the key, alone or in a list, white space aside |
| IdFilters.FilterKeepsTheRest | mlflow_kubernetes_plugins/auth/collection_filters.py:233-288 | nothing but the field is changed |
| IdFilters.SingleFilterIsExact | mlflow_kubernetes_plugins/auth/collection_filters.py:291-326 | the single-id filter changes nothing, and applies exactly if some source gives the key and every one that does has one id, which is readable |
| IdFilters.FilterIsIdempotent | mlflow_kubernetes_plugins/auth/collection_filters.py:329-375 | filtering a filtered request changes nothing |
| IdFilters.FilterIsMonotone | mlflow_kubernetes_plugins/auth/collection_filters.py:233-288 | more readable ids keep the filter applying and every selected id selected |
| IdFilters.NarrowingIsMonotone | mlflow_kubernetes_plugins/auth/collection_filters.py:413-483 | a larger scope keeps the narrowing applying and selects at least the same ids |
| GetBody.Normalize | mlflow_kubernetes_plugins/auth/collection_filters.py:784-828 | the two field loops compute the specified rewrite |
| GetBody.NormalizingKeepsTheMessage | mlflow_kubernetes_plugins/auth/collection_filters.py:784-828 | every field of the message reads the same before and after, whichever spelling the body used |
| GetBody.RefusedIff | mlflow_kubernetes_plugins/auth/collection_filters.py:784-828 | refused exactly for a string body that is no object, a field in both spellings, or a value the message does not take |
| GetBody.DecodedIsExact | mlflow_kubernetes_plugins/auth/collection_filters.py:788-799 | which string bodies are decoded once more, and to what |
| GetBody.SpellingDoesNotMatter | mlflow_kubernetes_plugins/auth/collection_filters.py:808-828 | bodies that read the same give the same query |
| GetBody.NormalizingIsIdempotent | mlflow_kubernetes_plugins/auth/collection_filters.py:784-828 | normalising again changes nothing |
| QueryParams.Collect | mlflow_kubernetes_plugins/auth/request_context.py:37-48 | the dictionary the loop builds |
| QueryParams.CollectKeepsValues | mlflow_kubernetes_plugins/auth/request_context.py:37-48 | collapsing keeps each key's ordered values |
| QueryParams.Encode | mlflow_kubernetes_plugins/auth/middleware.py:99-109 | the item list the loop builds |
| QueryParams.EncodeKeepsValues | mlflow_kubernetes_plugins/auth/middleware.py:99-109 | encoding keeps each key's ordered values |
| QueryParams.QueryRoundTrip | mlflow_kubernetes_plugins/auth/middleware.py:99-109 | collapsing and encoding again preserves each key's ordered value list |
| QueryParams.EmptyListDisappears | mlflow_kubernetes_plugins/auth/middleware.py:99-109 | a key is still in the encoded query if and only if its list is not empty |
| Authority.ApplyGrows | mlflow_kubernetes_plugins/auth/collection_filters.py:831-900 | an id, scope or scorer filter that applies under some grants applies under larger ones |
| Authority.ReadersAreExact | mlflow_kubernetes_plugins/auth/collection_filters.py:123-158 | an id is readable if the store knows its experiment, or its run's, and an access review for that name passes |
| Authority.IdsAreReadInEitherSpelling | mlflow_kubernetes_plugins/auth/collection_filters.py:808-828 | a handler takes the ids a policy filters from the body in either spelling, and from the query as a list, but a single id as it is |
| Authority.FilterAppliesByPolicy | mlflow_kubernetes_plugins/auth/collection_filters.py:831-900 | for each policy, when its filter applies, in terms of the ids the request has, the store and the reviews |
| Authority.ReadableNarrowingAppliesIff | mlflow_kubernetes_plugins/auth/collection_filters.py:413-483 | narrowing to the readable experiments applies exactly with broad access, or if every suggested readable name can be looked up, every source can be read, and an id of a suggested readable experiment is listed wherever the request lists ids |
| Authority.ScorersApplyIff | mlflow_kubernetes_plugins/auth/collection_filters.py:486-513 | a scorer listing is a GET by one kind of selector: one readable experiment, or what narrows |
| Gateway.EnforceUse | mlflow_kubernetes_plugins/auth/core.py:380-505 | the check, step by step, computes the specified outcome |
| UseChecks.UsePassesIff | mlflow_kubernetes_plugins/auth/core.py:380-505 | the check passes a request on, as it is or loaded, exactly if use of the type is allowed, or use of each of at least one name found, or an endpoint update finds none; the names found are those of the ids plainly given, if all resolve, otherwise, for an update, what is stored for the entity it refers to |
| GatewayDependencies.CoversIff | mlflow_kubernetes_plugins/auth/core.py:380-505 | passing the check means, whatever the grants, that every dependency the handler takes, in either spelling and nested configurations included, may be used, if and only if the check finds the name of each, or finds none and refuses |
| GatewayDependencies.TakenIsRead | mlflow_kubernetes_plugins/auth/core.py:380-505 | the ids taken to be dependencies are those the handler reads |
| GatewayDependencies.DefinitionsCoveredIff | mlflow_kubernetes_plugins/auth/resource_names.py:930-951 | for any store, method and request: the check covers an endpoint mutation if and only if it finds the name of every definition the request carries, and that there is, or finds none and refuses a creation; it finds the names of the ids plainly given in what it reads, if all of these resolve, otherwise those stored with the endpoint of a full update |
| GatewayDependencies.SecretsCoveredIff | mlflow_kubernetes_plugins/auth/resource_names.py:954-961 | the same for the secret of a model definition; where the check finds no name it refuses |
| GatewayDependencies.PassingIsEnough | mlflow_kubernetes_plugins/auth/core.py:380-505 | a request that passes has usable dependencies, unless the check misses one |
| GatewayDependencies.AliasSecretIsNotChecked | mlflow_kubernetes_plugins/auth/core.py:551-572 | an update that moves a definition to a secret given as `secretId` passes on the stored secret |
| GatewayDependencies.AliasDefinitionIsNotChecked | mlflow_kubernetes_plugins/auth/core.py:521-548 | an endpoint update whose configurations are given as `modelConfigs` passes on the stored definitions |
| GatewayDependencies.UnreadDependencyIsNotChecked | mlflow_kubernetes_plugins/auth/core.py:416-433 | a DELETE whose query names a usable definition and whose unread body names another passes |
| GatewayDependencies.UnresolvedIdHidesTheOthers | mlflow_kubernetes_plugins/auth/core.py:414-441 | an attachment that gives an id without a definition beside one whose definition may not be used passes, though the check looks at both |
| Gateway.UseBeforeLoading | mlflow_kubernetes_plugins/auth/core.py:380-505 | what passes with the body loaded passes without, when every id resolves; a DELETE can be refused without (`BroadGrantCanRefuseDelete`) |
| Gateway.UseGrows | mlflow_kubernetes_plugins/auth/core.py:380-505 | larger grants keep the check passing |
| Decision.Authorize | mlflow_kubernetes_plugins/auth/core.py:641-945 | the rule loop computes the specified decision, stopping at the first refusal |
| Decision.AuthorizeRbac | mlflow_kubernetes_plugins/auth/core.py:773-914 | the body of the loop for an RBAC rule, with its reassigned request and flags |
| RuleAcceptance.DecisionIff | mlflow_kubernetes_plugins/auth/core.py:641-945 | for every request: it is accepted with these rules, and goes on as this request, if and only if a run starts with them, every rule accepts in turn what the one before it passed on, and the end is so |
| RuleAcceptance.RuleAcceptsIff | mlflow_kubernetes_plugins/auth/core.py:747-935 | for every rule and request: the rule accepts it, and passes this one on, if and only if it does not deny, the workspace is there, and it is met: broadly; by names, one at least, every one of which an access review allows; by its filter, at once or with the body loaded; by a fallback or exemption; with what the dependency check makes of the request; or, without a verb, by access to some kind of resource of the workspace |
| RuleAcceptance.RefusalIsExact | mlflow_kubernetes_plugins/auth/core.py:747-935 | which refusal a rule gives, first reason first |
| RuleAcceptance.BudgetIff | mlflow_kubernetes_plugins/auth/core.py:575-603 | a budget check passes exactly if neither spelling of the scope says one, true or the word, in any case, white space and leading zeros aside; and its errors |
| RuleAcceptance.StartIff | mlflow_kubernetes_plugins/auth/core.py:687-745 | what a run starts from: the rules looked up with a GraphQL operation in sight, or those of a skill artifact, the workspace given, in the path or in a created name, and the request; and when it does not start |
| DecisionSoundness.DecisionIsSound | mlflow_kubernetes_plugins/auth/core.py:747-945 | an accepted request has rules, none denies, the workspace is present wherever needed, and each RBAC rule was met broadly, by names of which every one is allowed, by a filter, or by its declared fallback; by a filter means that what goes on is, as its handler reads it, within what the caller may read, or else that the filter leaks, and so is the request finally accepted if the rules after it do not filter or filter the ids of another field; every gateway dependency may be used, unless the rule was exempt or the check misses one |
| DecisionSoundness.RuleIsMet | mlflow_kubernetes_plugins/auth/core.py:747-930 | the same for one rule |
| DecisionSoundness.FilteredRuleIsScopedIff | mlflow_kubernetes_plugins/auth/core.py:870-895 | for a rule met by its filter, the request that goes on is, as its handler reads it in either spelling, decoded and query first for a GET, within what the caller may read, if and only if the filter of an id policy does not leak, that is: the query sufficed, and the handler finds no id in the body, or in one that is unread, a string or spelled the other way an id that may not be read; or a GET keeps a query without the field |
| DecisionSoundness.AttemptIsScopedIff | mlflow_kubernetes_plugins/auth/core.py:870-895 | the same for the filter and its second try |
| DecisionSoundness.UnreadBodyIsNotFiltered | mlflow_kubernetes_plugins/auth/core.py:80-91 | a POST whose query names a readable experiment goes on with an unread body, in which its handler reads another |
| DecisionSoundness.AliasBodyIsNotFiltered | mlflow_kubernetes_plugins/auth/collection_filters.py:437-441 | the same with the body read, which names the other as `experimentIds` |
| DecisionSoundness.StringBodyIsNotFiltered | mlflow_kubernetes_plugins/auth/collection_filters.py:788-799 | the same with a body that is a string and decodes to an object that names the other |
| DecisionSoundness.QueryAloneIsNotRead | mlflow_kubernetes_plugins/auth/collection_filters.py:233-288 | a POST whose query names a readable experiment and whose body names none is accepted, and its handler reads no id |
| DecisionSoundness.LaterFilterCanUnscope | mlflow_kubernetes_plugins/auth/collection_filters.py:808-828 | a GET filtered by run ids that a later filter, in moving its body to the query, leaves without them |
| ReadIds.FilteredListIsCoveredIff | mlflow_kubernetes_plugins/auth/collection_filters.py:233-288 | what its handler reads after an id-list filter names some id, and neither it nor the query of another method than GET names one that may not be read, or the handler refuses; if and only if not: of a GET with a query, the body was enough and the query keeps other fields only; of another request, the handler reads no id, or finds in the body, where the filter saw no such field, one that may not be read |
| ReadIds.FilteredSingleIsCoveredIff | mlflow_kubernetes_plugins/auth/collection_filters.py:291-326 | the same for the single-id filter |
| DecisionSoundness.BodyIsLoadedAtMostOnce | mlflow_kubernetes_plugins/auth/core.py:606-638 | over a whole accepted run the body loader is called at most once |
| DecisionMonotonicity.AcceptedStaysAcceptedIff | mlflow_kubernetes_plugins/auth/core.py:747-935 | under larger grants an accepted request stays accepted if and only if every gateway mutation among its rules passes its dependency check where the larger run comes to it |
| DecisionMonotonicity.AcceptedStaysAccepted | mlflow_kubernetes_plugins/auth/core.py:747-935 | so it does whenever no gateway mutation is reference-optional, on a DELETE request, or under a filter |
| DecisionMonotonicity.ScorersStayAcceptedIff | mlflow_kubernetes_plugins/auth/core.py:790-815 | a lone scorer listing stays accepted if and only if broad permission is not gained or its selector is usable |
| DecisionMonotonicity.BroadGrantCanRefuseScorers | mlflow_kubernetes_plugins/auth/core.py:803-815 | a listing with an empty id list, accepted with a broad scope and refused with broad permission |
| SelectedIds.SelectedIdsNeverShrink | mlflow_kubernetes_plugins/auth/collection_filters.py:233-483 | larger grants never shrink the ids a lone id rule leaves selected: source by source for the id lists, and as the handler reads them, no list meaning all, for the authorized ids |
| DecisionMonotonicity.BroadGrantKeepsMutationIff | mlflow_kubernetes_plugins/auth/core.py:829-914 | a caller who gains broad permission on a gateway mutation, create or update, reference-optional or not, keeps an acceptance if and only if use is granted for the dependencies of the request as the check reads it |
| DecisionMonotonicity.BroadGrantCanRefuse | mlflow_kubernetes_plugins/auth/core.py:834-837 | a concrete creation accepted without permission for a missing reference, and refused with broad permission |
| DecisionMonotonicity.BroadGrantCanRefuseDelete | mlflow_kubernetes_plugins/auth/core.py:822-853 | a DELETE request, for a rule of update or creation, accepted by name and refused with broad permission |
| Templates.Tokenise | mlflow_kubernetes_plugins/auth/compiler.py:193-207 | the cursor loop reads the tokens of a template |
| Templates.RenderingRebuilds | mlflow_kubernetes_plugins/auth/compiler.py:193-207 | writing the tokens out gives the template back |
| TemplateTokens.TokensAreExact | mlflow_kubernetes_plugins/auth/compiler.py:193-207 | the tokens of a template are the only literals and parameters in turn that write out as it and miss no parameter that could be read earlier |
| Templates.MatchIffGreediest | mlflow_kubernetes_plugins/auth/compiler.py:210-218 | a full match is the greediest reading, and the only one; there is one whenever some reading exists |
| Templates.FitsIffSubstitutes | mlflow_kubernetes_plugins/auth/compiler.py:193-207 | the readings of the named pattern are exactly the captures that rebuild the path: slash-free for plain tokens, newline-free for paths, never empty |
| Templates.RuleFitsIff | mlflow_kubernetes_plugins/auth/core.py:238-245 | the readings of the rule pattern are the captures, valid as before, between text that reads like the literals, a dot standing for any character of a line |
| Templates.ExtractionRoundTrip | mlflow_kubernetes_plugins/auth/compiler.py:193-218 | substituting the extracted captures rebuilds the path, and every path built from the template is extracted |
| Templates.PatternsAgreeIff | mlflow_kubernetes_plugins/auth/core.py:238-245 | the rule pattern accepts every path the named pattern accepts; they accept the same exactly when no literal has a dot |
| RouteTable.Compile | mlflow_kubernetes_plugins/auth/compiler.py:54-162 | the three passes build the specified tables or the specified failure |
| RouteTable.FindRules | mlflow_kubernetes_plugins/auth/compiler.py:221-263 | exact lookup first, then the first matching pattern |
| RouteTable.GapReportedIff | mlflow_kubernetes_plugins/auth/compiler.py:87-153 | start-up reports a gap exactly when a protected endpoint or custom view has neither a handler rule nor explicit entries |
| RouteTable.TablesAreComplete | mlflow_kubernetes_plugins/auth/compiler.py:87-162 | every explicit entry, every handler-ruled endpoint and every registered parameter template has a rule in the tables |
| RouteSources.TablesFollowSources | mlflow_kubernetes_plugins/auth/compiler.py:54-162 | every exact rule, pattern and parameter template in the tables comes from an endpoint with handler rules, a view or an explicit entry with that key, and has the rules of that handler or entry; the exact rules from the last such source of the key, the patterns in the order of their sources |
| RouteSources.LookupGoesBySources | mlflow_kubernetes_plugins/auth/compiler.py:221-263 | a request gets the rules of the document for a GraphQL path, otherwise those of the last literal source of its path and method, otherwise those of the first templated source that takes the path |
| RouteSources.EndpointHasItsHandlersRules | mlflow_kubernetes_plugins/auth/compiler.py:95-114 | an endpoint ruled by its handler gives its requests the rules of that handler, unless a later literal source or an earlier template takes them |
| RouteSources.ParamsGoBySources | mlflow_kubernetes_plugins/auth/compiler.py:210-218 | parameters are read by the first source, among those that register templates, that takes the path |
| RouteSources.GapsAreReported | mlflow_kubernetes_plugins/auth/compiler.py:87-153 | which keys are reported as uncovered, in terms of the site |
| RouteSources.FailuresAreExact | mlflow_kubernetes_plugins/auth/compiler.py:54-162 | start-up fails exactly for a template whose parameters are no distinct group names, or else for a gap |
| RouteTable.StartupCoverageHoldsAtRunTime | mlflow_kubernetes_plugins/auth/compiler.py:54-263 | if start-up succeeds every concrete path of every protected route and method is given a rule list |
| RouteTable.LiteralEntryAlwaysWins | mlflow_kubernetes_plugins/auth/compiler.py:142-149 | an explicit entry for a literal path always wins |
| RouteTable.TemplatedEntryWinsIff | mlflow_kubernetes_plugins/auth/compiler.py:142-149 | an explicit templated entry is reached exactly when no exact rule, no handler-derived template and no earlier entry takes the path |
| RouteTable.TemplatedEntryCanBeShadowed | mlflow_kubernetes_plugins/auth/compiler.py:142-149 | a concrete site where it never is |
| RouteTable.ExtractPathParams | mlflow_kubernetes_plugins/auth/compiler.py:210-218 | the first registered template that matches gives the parameters |
| RouteTable.ExtractedParamsComeWithRules | mlflow_kubernetes_plugins/auth/compiler.py:210-263 | extracted parameters rebuild the path, and the request is then given a rule list |
| ArtifactPath.NormPath | mlflow_kubernetes_plugins/workspace_plugin/provider.py:301 | the normal form as a stack algorithm |
| ArtifactPath.LeadingIsExact | mlflow_kubernetes_plugins/workspace_plugin/provider.py:301 | two slashes at the start are kept, more or one are one |
| ArtifactPath.ValidateArtifactPath | mlflow_kubernetes_plugins/workspace_plugin/provider.py:279-323 | an error exactly for a backslash, an absolute path, or one that climbs above its start; otherwise the names that lead where the path does, nothing exactly at the start |
| ArtifactPath.ValidatorIsExact | mlflow_kubernetes_plugins/workspace_plugin/provider.py:279-323 | a relative path is refused if and only if its running depth goes below zero; otherwise the result has only names, denotes the same location, and is nothing exactly when that is the start |
| ArtifactPath.ValidationIsIdempotent | mlflow_kubernetes_plugins/workspace_plugin/provider.py:279-323 | validating a valid path changes nothing |
| ArtifactRoot.RootStaysInBucket | mlflow_kubernetes_plugins/workspace_plugin/provider.py:235-277 | an overriding root is the bucket or the bucket extended by where the configured path leads; it is an error exactly for backslashes, absolute paths and paths that climb above the bucket |
| ArtifactRoot.OverrideIsExact | mlflow_kubernetes_plugins/workspace_plugin/provider.py:235-263 | the fallback without an override; an error for another Secret than the one supported, and for one without a bucket |
| Strings.StripTrims | mlflow_kubernetes_plugins/workspace_plugin/provider.py:266 | stripping gives the text between the white space at the ends |
| Strings.SpacesAre | mlflow_kubernetes_plugins/workspace_plugin/provider.py:266 | which characters are white space, by code |
| ArtifactRoot.UndisturbedEnsure | mlflow_kubernetes_plugins/workspace_plugin/provider.py:325-337 | a thread that nothing comes between gets the cache there is, or creates it; a failed construction leaves things as they were |
| ArtifactRoot.OneCacheIsShared | mlflow_kubernetes_plugins/workspace_plugin/provider.py:325-337 | from the start, however threads interleave, at most one Secret cache is created and every caller gets it |

## Left out

- Access-review and rules-review submission, impersonation, error-to-status mapping, JWT decoding and logging: I/O, replaced by an oracle; failures of a review are modelled only in `AccessReview`.
- The rule tables and the individual `_parse_*` resource-name parsers: constant data and one-branch wrappers; any table and any parsers are allowed.
- The filter-string rewrites of the search policies (experiments, registered models, model versions, datasets, MCP servers) and the trace-location filter: they rest on MLflow's filter parsers, which are not part of this model; they enter `Authority` as an arbitrary `search`.
- `_canonicalize_path` and prefix stripping: paths are taken to be canonical.
- Flask, FastAPI and Starlette dispatch, response filtering, `_validate_fastapi_route_authorization`, `_merge_globs`, bulk `get_configs`, base64 decoding of Secrets.
- Thread start-up, sleeps, timeouts and fairness: the machines allow a step at any time and promise nothing about when.
- White space outside Latin-1, and other Unicode effects on `strip`, `upper` and `isdigit`; group names outside ASCII.
- Resource-version strings are modelled as version numbers of one history; a real server promises only that they are opaque.
- The order of the rule list returned for a GraphQL document: the rules are a map by verb and resource.
- Templates.RulePattern: regular-expression metacharacters other than '.' in a template's literals read nothing; the theorems about rule patterns require that there are none.
- RouteTable.StartupCoverageHoldsAtRunTime: does not cover GraphQL paths, whose rules come from the document, nor views that have a handler-derived rule, which the code skips.
- DecisionMonotonicity.AcceptedStaysAcceptedIff: speaks of rules without filters, or of one filter rule alone; several filter rules together are not compared.
- SelectedIds.SelectedIdsNeverShrink: for the authorized ids, the request must be one its handler takes; a body that gives the ids in both spellings is narrowed into one the handler takes, and left alone is refused by it.
- DecisionSoundness.AttemptIsScopedIff: for the search policies it says only that the search accepted the request.
- DecisionSoundness.DecisionIsSound: where a later rule narrows to a scope, lists scorers or searches, scope is said of the request right after the earlier rule only.
- Gateway.UseBeforeLoading: does not cover DELETE requests, for which it is false (`BroadGrantCanRefuseDelete`).
- Authority.ApplyGrows: for the search policies, that larger grants keep a search applying is a hypothesis.
- GetBody.NormalizingKeepsTheMessage: compares field values before the query is encoded as text; an empty list disappears in the encoding (`QueryParams.EmptyListDisappears`).
- Handlers are taken to build their message as MLflow does: from the query of a GET that has one, by field name, otherwise from the body, decoded once more if it is a string, in either spelling, but not in both. Views that read raw keys of the body instead read no more of it than such a handler.
- GatewayDependencies.DefinitionsCoveredIff: the fields of all gateway messages are taken together; a handler ignores those its own message lacks.
- A list response without a resource version, which the API server does not send, and the unversioned stream the watch thread would then open: `NamespaceCache` and its siblings take the response, `Replication` has no such step.
- ReadWriteLock.RunKeepsWakeups: requires that no writer's wait is interrupted, since the wake-ups are lost otherwise.
- Replication.RunIsExact: the config cache satisfies it only without reloads, refused ones included, under an open stream; see `ReloadRace`.
- LiveLookups.NegativeAnswersAreFresh: the bulk `get_configs` and the Secret cache are not in this machine.
