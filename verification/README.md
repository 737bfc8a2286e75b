# WunderGraph: verified models of the stateful core

A Dafny model of the parts of WunderGraph whose correctness cannot be read off a single function.
`dafny verify dfyconfig.toml` checks all of it.

**Variable interpolation** (`JsonTree`, `Schemas`, `Interpolation`, `FastPath`, `Recursion`,
`StringInterpolators`). A JSON schema with possibly cyclic `$defs` drives edits of a JSON document that
are addressed by path and made in the order a Go map happens to yield. JSON is a tree with reading and
writing by path; the get/put and disjoint-path laws are proved once in `JsonTree`. `Interpolation` says
what the result is, as one recursion over the value. The class `StringInterpolator` follows the code, and
its methods are proved to reach that result.

**Post-resolve transformation** (`PathExpansion`, `PostResolve`). `[]` wildcards are expanded pass by
pass; the specification is a depth-first walk of the document, which in turn is characterised by a
matching relation and an order. A sequence of get/set edits is then shown to be an element-wise map.

**Idle timeout** (`IdleTimeout`). Any number of requests, a one-slot event channel, a timer goroutine and
a one-slot notification channel, as interleaved steps. Changing the counter and sending the event are two
steps, so a Start can be overtaken.

**Gateway caches and streams** (`PlanCache`, `ResponseCache`, `ResponseHistory`, `Hooks`, `HookRuns`,
`HookHandlers`, `LiveQuery`, `EventStream`, `RequiredFields`, `Decimal`). The plan cache with its single
flight; the stale-while-revalidate response cache, as steps and over whole runs by the clock; the two
handlers that run the hooks, each modelled from its own lines, described by the calls it leaves behind,
and compared; the change filter of live queries with its framing.

**Coalescing and deduplication** (`Watcher`, `Lists`, `Deduplication`, `Manifests`, `Integrations`).

## Where the code does not do what one would expect

The code is followed, and the exact condition is proved.

1. `configure` follows references transitively; `traverse` follows a reference once and then uses the
   definition's own type. A definition that itself carries a `$ref` can hide an editable leaf from
   `configure`, and `Interpolate` then skips an edit. `FastPathExact` gives the condition,
   `HidingSchemaSkipsAnEdit` a schema. JSON-only mode does not keep the definitions, so references are
   inert there.
2. `traverse` does not return on some document exactly when a definition that can be visited requires
   itself through required properties (`TerminatesExactly`). GraphQL (October 2021, section 3.10)
   forbids the same of non-null input fields. `Interpolate` is proved for every document on which the
   code returns.
3. A late Start, one that an overtaking Reset has left behind, arms the idle timer during a request, and
   the middleware notifies while busy (`OvertakenStartNotifiesWhileBusy`). `DrainedExactly` says when
   the timer is right and when it is not. The claim about quiescence needs no hypothesis.
4. The deferred revalidation stores the resolver output without the post-resolve transformations and
   hooks (`HitsProcessedExactly`).
5. With both `wg_sse` and `wg_subscribe_once` the frame has no blank line, and an event-stream client
   discards it. Frames are read back exactly when no body has a line break (`StreamExact`) or, without
   `wg_sse`, when none has a blank line or ends with a line break (`PlainStreamExact`).
6. In `mutatingPreResolve` a live query takes over the returned input and passes over a nil response;
   the one-shot handler does neither. The two are the same exactly without that hook
   (`HandlersAgreeExactly`).
7. Adding and then removing names restores the manifest exactly when none of them was there before.
8. The plan cache trusts its hash; requests get their own plans exactly when documents with different
   planning outcomes never share a hash, and entries never change exactly when no two valid documents
   with different plans do.

## Assumptions

Resolving, planning, hooks, transformations inside the response cache, hash functions and `json.Marshal` of
a raw value are arbitrary functions, quantified over. Clocks and evictions are arbitrary steps of a run.
`maxAge` plus `staleWhileRevalidate` is positive wherever `Expires` is required: a zero TTL means no expiry
to the in-memory cache. Fewer than 2^64 requests are in flight at a time.

## Model

| member | source | states |
|---|---|---|
| `StringInterpolators.StringInterpolator.Interpolate` | pkg/interpolate/strings.go:166-172 | The document becomes its one-pass structural interpolation when the search found something to do and stays as it is otherwise; where the schema hides no edit the two cases are the same claim. Holds of every document on which the code returns, for a root schema that is not itself an editable leaf |
| `StringInterpolators.StringInterpolator.Traverse` | pkg/interpolate/strings.go:89-164 | Path-addressed edits in any order of the property map: whenever the nesting of calls is bounded, the value at the path becomes its structural interpolation, every disjoint position keeps its value, and a missing path leaves the whole document as it was |
| `StringInterpolators.StringInterpolator.TraverseProperties` | pkg/interpolate/strings.go:113-131 | The property loop, whatever order the map yields: all properties interpolated, all other members kept |
| `StringInterpolators.StringInterpolator.TraverseProperty` | pkg/interpolate/strings.go:117-130 | One turn of that loop adds exactly one property to the finished ones; a missing optional property is not entered, a missing required one is entered and changes nothing |
| `StringInterpolators.StringInterpolator.TraverseItems` | pkg/interpolate/strings.go:132-140 | The element loop rewrites each element under its own index and nothing else |
| `StringInterpolators.StringInterpolator.Configure` | pkg/interpolate/strings.go:49-87 | The visited-set search terminates and either finds a stopping type that is really reachable, or leaves a visited set under which the schema and every newly opened definition are clean |
| `StringInterpolators.StringInterpolator.ConfigureReference` | pkg/interpolate/strings.go:53-65 | A reference is opened once; a reference met again is trusted to its first visit |
| `StringInterpolators.StringInterpolator.ConfigureProperties` | pkg/interpolate/strings.go:72-78 | The search result does not depend on the order of the property map |
| `StringInterpolators.StringInterpolator.NewStringInterpolator` | pkg/interpolate/strings.go:19-32 | hasInterpolations is set if and only if a stopping type is reachable through references, properties and items, however cyclic the definitions |
| `StringInterpolators.StringInterpolator.NewStringInterpolatorJSONOnly` | pkg/interpolate/strings.go:34-47 | The same equivalence in JSON-only mode, where the definitions are not kept and no reference resolves |
| `StringInterpolators.StringInterpolator.ConfiguredExactly` | pkg/interpolate/strings.go:49-87 | The state the search ends in decides reachability exactly |
| `StringInterpolators.PropertyStep` | pkg/interpolate/strings.go:117-130 | An edit below one property commutes with the properties already done: the partly interpolated object plus one traversed child is the partly interpolated object with that child done |
| `StringInterpolators.ElementStep` | pkg/interpolate/strings.go:136-140 | The same for one array element |
| `StringInterpolators.RewrittenBelow` | pkg/interpolate/strings.go:89-164 | A rewrite confined to one component below a path is a rewrite confined to the path |
| `Interpolation.Idempotent` | pkg/interpolate/strings.go:89-172 | Interpolating twice is interpolating once, in both modes, for every schema with definitions |
| `Interpolation.InterpolatedAt` | pkg/interpolate/strings.go:89-164 | Every position not below an edit holds the interpolation by the schema that governs it, and an ungoverned position keeps its value |
| `Interpolation.InterpolatedBelow` | pkg/interpolate/strings.go:98-112 | Every position at or below an edit is read through the edited leaf, so the two lemmas account for every position |
| `Interpolation.EditableExactly` | pkg/interpolate/strings.go:99-163 | At every editable position of every document. String mode: a number becomes the string of its text, true and false become "true" and "false", and anything else is unchanged. JSON-only mode: a string is unchanged and anything else becomes its marshalled form |
| `Interpolation.OthersKeepTheirShape` | pkg/interpolate/strings.go:113-140 | At every other governed position objects keep their keys and arrays their length, and any other value is unchanged |
| `Interpolation.SchemaAtExactly` | pkg/interpolate/strings.go:89-140 | The schema that governs a position, component by component: properties of objects, items of arrays, definitions behind references, and nothing else |
| `Interpolation.NoScalarAtString` | pkg/interpolate/strings.go:99-112 | In string mode no number and no boolean is left at any string-typed position |
| `FastPath.SettledMissesNothing` | pkg/interpolate/strings.go:49-87 | A finished search that set no flag has missed nothing at any depth, with cyclic definitions |
| `FastPath.ReachesExactlyChanges` | pkg/interpolate/strings.go:89-164 | traverse can arrive at an editable position if and only if interpolation changes some document |
| `FastPath.ChangedWitness` | pkg/interpolate/strings.go:89-164 | Builds a changed document from any reachable editable position |
| `FastPath.FindsExactly` | pkg/interpolate/strings.go:49-87 | Where no definition is itself a reference, the search finds something if and only if some position has no type or, in string mode, is a string |
| `FastPath.VisibleIsFound` | pkg/interpolate/strings.go:49-164 | An editable position that traverse reaches without a hiding definition is found by configure |
| `FastPath.FastPathExact` | pkg/interpolate/strings.go:166-172 | When configure finds nothing, skipping traverse is right for all documents if and only if no definition that is itself a reference leads traverse to an editable position |
| `FastPath.PlainDefinitionsHideNothing` | pkg/interpolate/strings.go:53-65 | When no definition is itself a reference, nothing is hidden |
| `FastPath.HidingSchemaSkipsAnEdit` | pkg/interpolate/strings.go:53-97 | A concrete schema on which the fast path skips an edit that traverse would make |
| `Recursion.TerminatesExactly` | pkg/interpolate/strings.go:113-131 | traverse returns on every document if and only if no definition that can be visited from the schema requires itself through a chain of required properties |
| `Recursion.DocumentTerminates` | pkg/interpolate/strings.go:89-164 | Without such a definition traverse returns on each document: a property that is there leads to a smaller value, and one that is not leads to the missing value |
| `Recursion.MissingTerminates` | pkg/interpolate/strings.go:117-130 | On a missing value each definition is met at most once along required properties, so traverse returns |
| `Recursion.DivergingDocument` | pkg/interpolate/strings.go:113-131 | Builds a document on which traverse does not return, for every schema from which a required cycle can be visited |
| `Recursion.CycleNeverReturns` | pkg/interpolate/strings.go:117-130 | On a missing value of a definition on a required cycle of any length, no number of calls is enough |
| `Recursion.EndlessListNeverReturns` | pkg/interpolate/strings.go:113-131 | A concrete schema and document on which traverse does not return, and a document of the same schema on which it does |
| `Schemas.FindType` | pkg/interpolate/strings.go:183-205 | The first listed type that is a string other than null; a plain type as it stands; otherwise the empty type |
| `Schemas.TypeStringExactly` | pkg/interpolate/strings.go:183-205 | A type list counts as its first entry that is a string other than "null", and as untyped when there is none |
| `Schemas.DefNameExactly` | pkg/interpolate/strings.go:90-97 | A reference names what follows its prefix, or itself without one |
| `Schemas.IsRequired` | pkg/interpolate/strings.go:207-214 | True exactly for the listed names |
| `JsonTree.GetPutBelow` | pkg/interpolate/strings.go:99-162 | Reading at or below a written path reads the written value |
| `JsonTree.GetPutDisjoint` | pkg/interpolate/strings.go:99-162 | A write is invisible at every disjoint path |
| `JsonTree.PutCommute` | pkg/interpolate/strings.go:113-140 | Writes at disjoint paths commute and do not disable each other |
| `JsonTree.PutInside` | pkg/interpolate/strings.go:99-140 | A write by whole-document path is a write inside the value at any prefix |
| `JsonTree.PutPut` | pkg/interpolate/strings.go:99-162 | The last write at a path wins |
| `JsonTree.PutGet` | pkg/interpolate/strings.go:99-162 | Writing back what is there changes nothing |
| `PathExpansion.ResolvePaths` | pkg/postresolvetransform/postresolvetransform.go:47-75 | Expanding one wildcard per path per pass terminates and returns the depth-first document-order enumeration, path list by path list |
| `PathExpansion.ExpandPass` | pkg/postresolvetransform/postresolvetransform.go:51-70 | One pass keeps that enumeration and lowers the wildcards of every path it touches |
| `PathExpansion.ExpandOne` | pkg/postresolvetransform/postresolvetransform.go:52-70 | One path of a pass: its enumeration is appended, and what replaces it has fewer wildcards or none |
| `PathExpansion.ExpandPath` | pkg/postresolvetransform/postresolvetransform.go:57-69 | One path per element of the array under the prefix, in order; none when there is no array |
| `PathExpansion.PathContainsArray` | pkg/postresolvetransform/postresolvetransform.go:77-84 | True with the index of the first wildcard, false exactly when there is none |
| `PathExpansion.PathsContainArray` | pkg/postresolvetransform/postresolvetransform.go:86-93 | True exactly when some path has a wildcard |
| `PathExpansion.WalkIsAllMatches` | pkg/postresolvetransform/postresolvetransform.go:47-75 | A path is enumerated if and only if it matches the pattern component by component and every wildcard names an existing array element |
| `PathExpansion.WalkOrdered` | pkg/postresolvetransform/postresolvetransform.go:47-75 | The enumeration is strictly ascending in document order, wildcard-free and of the pattern length |
| `PathExpansion.BeforeIsStrict` | pkg/postresolvetransform/postresolvetransform.go:47-75 | Document order is strict, so an ascending enumeration holds no path twice |
| `PathExpansion.BeforeExactly` | pkg/postresolvetransform/postresolvetransform.go:60-69 | Paths that part at an array are in the order of its elements |
| `PathExpansion.WalkAllAppend` | pkg/postresolvetransform/postresolvetransform.go:47-75 | Enumeration distributes over concatenation of path lists |
| `PathExpansion.ExpandFirst` | pkg/postresolvetransform/postresolvetransform.go:52-70 | Expanding the first wildcard leaves the enumeration as it was |
| `PathExpansion.FewerAfterPass` | pkg/postresolvetransform/postresolvetransform.go:71-73 | While a wildcard is left, a pass lowers the greatest wildcard count |
| `PostResolve.ApplyGet` | pkg/postresolvetransform/postresolvetransform.go:21-45 | Both paths are expanded against the old document; a difference in number is an error, otherwise the edits of the two enumerations are made in order |
| `PostResolve.ApplyEdits` | pkg/postresolvetransform/postresolvetransform.go:26-43 | Each edit reads the document the previous one left and writes null for an absent source; an empty target path is an error |
| `PostResolve.Transform` | pkg/postresolvetransform/postresolvetransform.go:95-114 | The get transformations take effect one after the other, each on what the earlier ones left; the rows below say what that comes to |
| `PostResolve.TransformedInParts` | pkg/postresolvetransform/postresolvetransform.go:103-111 | Transforming by a list in two parts is transforming by the first and, if that succeeds, by the second; a failure of the first is the result |
| `PostResolve.TransformedOne` | pkg/postresolvetransform/postresolvetransform.go:103-110 | No transformation and one of another kind change nothing; a single get transformation is applyGet |
| `PostResolve.TransformedFailsExactly` | pkg/postresolvetransform/postresolvetransform.go:106-109 | The list fails if and only if some transformation fails on what the earlier ones left |
| `PostResolve.SharedTransformationsMoveElementwise` | pkg/postresolvetransform/postresolvetransform.go:95-114 | A list of transformations whose paths share their wildcards never fails and is that many element-wise maps, one after the other |
| `PostResolve.ApplyGetFailsExactly` | pkg/postresolvetransform/postresolvetransform.go:22-26 | applyGet fails if and only if its paths stand for different numbers of positions or the target is the whole document |
| `PostResolve.EditAllSnoc` | pkg/postresolvetransform/postresolvetransform.go:27-43 | The last edit reads the document that the others left, and writes null for an absent source |
| `PostResolve.SharedWildcardsMoveElementwise` | pkg/postresolvetransform/postresolvetransform.go:21-45 | When both paths share a prefix with all the wildcards there is no length mismatch, and the sequential edits equal an element-wise map at that prefix, also when one path is a prefix of the other |
| `PostResolve.SharedWildcardsPointwise` | pkg/postresolvetransform/postresolvetransform.go:21-45 | Read position by position: each target holds the old value of its own source or null, and every disjoint position is unchanged |
| `PostResolve.EditAllAt` | pkg/postresolvetransform/postresolvetransform.go:26-43 | For any two path lists: a target apart from all other sources and targets ends with the old value of its source |
| `PostResolve.EditAllElsewhere` | pkg/postresolvetransform/postresolvetransform.go:26-43 | For any two path lists: a position disjoint from all targets is unchanged |
| `PostResolve.CutBackPrefix` | pkg/postresolvetransform/postresolvetransform.go:21-45 | Any shared prefix that holds all wildcards can be cut back to the form the two lemmas use |
| `IdleTimeout.CounterExact` | pkg/httpidletimeout/httpidletimeout.go:53-63 | In every reachable state the uint64 counter is the number of requests between increment and decrement, the wrapping decrement never underflows, and Resets issued less Starts issued is 1 or 0 with it |
| `IdleTimeout.TimerAtHead` | pkg/httpidletimeout/httpidletimeout.go:97-130 | At the loop head the timer is active or has exactly one undrained tick, so draining after a failed Stop never blocks; at most one notification is buffered, with Cancel too |
| `IdleTimeout.FreesTheSlot` | pkg/httpidletimeout/httpidletimeout.go:101-127 | From every reachable state the goroutine alone can free the event slot in at most four steps until it has consumed Stop |
| `IdleTimeout.QuiescentIsArmed` | pkg/httpidletimeout/httpidletimeout.go:53-130 | Over all interleavings without Cancel, overtaken Starts included: once everything is finished and consumed the last event is a Start or there was none, and the timer is armed with the timeout |
| `IdleTimeout.QuiescentNotifies` | pkg/httpidletimeout/httpidletimeout.go:97-130 | From such a state the goroutine can go on to notify without any further request |
| `IdleTimeout.EachWaitTakesOne` | pkg/httpidletimeout/httpidletimeout.go:82-110 | Over every run from every state each notification produced is taken by one Wait or is still buffered |
| `IdleTimeout.NothingAfterStop` | pkg/httpidletimeout/httpidletimeout.go:124-136 | Once the goroutine has taken Stop it receives nothing more and produces no notification, in any run |
| `IdleTimeout.StopEnds` | pkg/httpidletimeout/httpidletimeout.go:114-126 | With Stop in the slot the goroutine can end in at most four steps, the drain of an expired timer included |
| `IdleTimeout.AlternatesExactly` | pkg/httpidletimeout/httpidletimeout.go:53-63 | Without Cancel the events sent alternate Reset and Start if and only if no Reset is sent while a Start waits |
| `IdleTimeout.UncrowdedNeverOvertakes` | pkg/httpidletimeout/httpidletimeout.go:53-63 | No Reset overtakes in a run where no request makes the step from 0 to 1 while a Start is waiting |
| `IdleTimeout.DrainedExactly` | pkg/httpidletimeout/httpidletimeout.go:53-130 | Over all interleavings without Cancel, in a drained state: the timer is finite exactly when nothing is in flight, if and only if no late Start was sent in the current busy period; if one was, requests are in flight and the timer is armed |
| `IdleTimeout.DrainedIsExact` | pkg/httpidletimeout/httpidletimeout.go:53-130 | In particular when no Reset overtook a Start; and while busy the timer then cannot expire or notify |
| `IdleTimeout.UncrowdedIsExact` | pkg/httpidletimeout/httpidletimeout.go:53-130 | In particular when no request makes the step from 0 to 1 while a Start is waiting |
| `IdleTimeout.OvertakenStartNotifiesWhileBusy` | pkg/httpidletimeout/httpidletimeout.go:53-130 | A concrete run without the hypothesis: a Start is overtaken, the timer is armed during a request, and it notifies while that request is in flight |
| `IdleTimeout.InvRun` | pkg/httpidletimeout/httpidletimeout.go:53-130 | The joint invariant of counter, slot, timer and loop survives every run, with Cancel too |
| `ResponseHistory.RequestsOfARun` | pkg/apihandler/apihandler.go:1103-1143 | Every request of every run: if an earlier step stored what the cache holds for its URI it is a HIT with that body, its age is the time passed by the clock since that step, and a refresh is owed exactly when this is more than maxAge; otherwise it waits for the resolver |
| `ResponseHistory.ResolvedOfARun` | pkg/apihandler/apihandler.go:1184-1245 | When the resolver answers a MISS, a post-processed body is sent with age 0 and stored; a failure sends and stores nothing |
| `ResponseHistory.EntriesOfARun` | pkg/apicache/apicache.go:50-63 | Everything in the cache, or on its way there, was stored for its URI by an identified earlier step and carries the time of that step |
| `ResponseHistory.ResponsesOfARun` | pkg/apihandler/apihandler.go:1103-1143 | Every response of every run and the step that sends it. A HIT serves what an earlier step stored for its URI, and its age is the time passed since by the clock, within maxAge plus staleWhileRevalidate; a MISS serves the post-processed body of a request that had found nothing, with age 0; the ETag is that of the body, and 304 answers exactly the tag the request showed |
| `ResponseCache.NotModifiedMeansSameBody` | pkg/apihandler/apihandler.go:1132-1143 | A 304 for the tag of an earlier response, from a HIT or a MISS, stands for the very body the client got then, given that the hash does not confuse these two bodies |
| `ResponseCache.ETagInjective` | pkg/apihandler/apihandler.go:1112-1117 | Equal tags mean equal hashes |
| `ResponseCache.CacheKeyInjective` | pkg/apihandler/apihandler.go:1104-1105 | Keys of equal-length config hashes separate config hash and URI |
| `ResponseCache.AgeBound` | pkg/apicache/apicache.go:23-30 | Whole-second ages of an entry still within its nanosecond TTL lie within the TTL in seconds |
| `ResponseHistory.RevalidatesExactlyWhenStale` | pkg/apihandler/apihandler.go:1024-1036 | Over every run and for every URI, the refreshes carried out and those still owed are as many as the requests served something stored more than maxAge seconds before, by the clock; as this holds of every prefix, no refresh comes before its request; with staleWhileRevalidate at most zero there are none |
| `ResponseHistory.StaleByTheClock` | pkg/apihandler/apihandler.go:1125-1130 | The HITs whose reported age is more than maxAge are those served something that old by the clock |
| `ResponseCache.RefreshesFrom` | pkg/apihandler/apihandler.go:1024-1036 | Between any two states of a run, refreshes carried out and owed balance the HITs reported as stale |
| `ResponseCache.RefreshServesRaw` | pkg/apihandler/apihandler.go:1024-1036 | A concrete run in which a HIT serves the unprocessed resolver output, for every post-processing of the first body |
| `ResponseCache.HarmlessIsProcessed` | pkg/apihandler/apihandler.go:1024-1036 | In every run of a harmless configuration every HIT serves a post-processed body |
| `ResponseCache.HitsProcessedExactly` | pkg/apihandler/apihandler.go:1024-1036 | Every HIT of every run serves a post-processed body if and only if staleWhileRevalidate is at most zero, or post-processing changes nothing, or it never succeeds |
| `ResponseCache.InvRun` | pkg/apihandler/apihandler.go:1103-1143 | The invariant on entries, buffered writes and responses survives every run |
| `PlanCache.EntriesArePlans` | pkg/apihandler/apihandler.go:744-755 | In every interleaving the entry under a document hash is the plan of that document, given distinct documents with distinct plans do not collide |
| `PlanCache.EntriesAreStable` | pkg/apihandler/apihandler.go:825-827 | No run ever changes an entry once it is written, if and only if no two valid documents with different plans share a hash |
| `PlanCache.EntryIsOverwritten` | pkg/apihandler/apihandler.go:744-835 | A concrete run in which an entry is overwritten by the plan of another document with the same hash, although planning goes through the flight group |
| `PlanCache.OnePlannerPerHash` | pkg/apihandler/apihandler.go:802-835 | At most one request plans a hash at a time, whatever the hash function |
| `PlanCache.LaterRequestsHit` | pkg/apihandler/apihandler.go:744-755 | Once a hash has an entry, no later request for it plans, waits or fails, in any continuation of the run |
| `PlanCache.PlansAreStored` | pkg/apihandler/apihandler.go:825-829 | A request that ends with a plan, also one that waited for another, leaves an entry for its hash |
| `PlanCache.FlightKeyInjective` | pkg/apihandler/apihandler.go:803-803 | The key of the flight (uint64 to two-complement int to decimal) tells all hashes apart |
| `PlanCache.OwnPlansExactly` | pkg/apihandler/apihandler.go:744-835 | All requests of all runs end with the outcome uncached planning gives them if and only if documents with different outcomes do not share a hash |
| `PlanCache.CollisionServesTheOther` | pkg/apihandler/apihandler.go:744-755 | A concrete run in which a request is served the plan of another document with the same hash |
| `PlanCache.InvRun` | pkg/apihandler/apihandler.go:744-835 | The invariant on entries, flights and requests survives every run |
| `Decimal.ParsedDigits` | pkg/apihandler/apihandler.go:803-803 | Reading back a decimal numeral gives the number |
| `Decimal.ItoaInjective` | pkg/apihandler/apihandler.go:803-803 | Signed decimal numerals are injective |
| `LiveQuery.HandleLiveQuery` | pkg/apihandler/apihandler.go:1327-1406 | The bytes written are the frames of the bodies that the change filter lets through, up to the end of the stream; the rows below say which these are and how a client reads them |
| `LiveQuery.FramesExact` | pkg/apihandler/apihandler.go:1367-1390 | The bodies sent are the destuttered responses if and only if the hash tells each changed response from the one before and the first from zero |
| `LiveQuery.InjectiveDistinguishes` | pkg/apihandler/apihandler.go:1367-1373 | An injective hash that is never zero does |
| `LiveQuery.DestutteredProperties` | pkg/apihandler/apihandler.go:1371-1390 | No two neighbours equal, the last one is the latest response, nothing invented |
| `LiveQuery.DestutteredSnoc` | pkg/apihandler/apihandler.go:1371-1390 | One more response adds a frame if and only if it differs from the response before it |
| `LiveQuery.SubscribeOnceSendsOne` | pkg/apihandler/apihandler.go:1380-1383 | Subscribing once sends the first response and no other |
| `LiveQuery.SubscribeOnceBytes` | pkg/apihandler/apihandler.go:1375-1383 | The bytes of a subscribe-once stream: the first response whose hash is not zero, bare or behind "data: ", and nothing else |
| `LiveQuery.LostCutsStream` | pkg/apihandler/apihandler.go:1385-1388 | A failed write only cuts the stream off |
| `LiveQuery.EndsAtLoss` | pkg/apihandler/apihandler.go:1385-1388 | A turn whose write fails is the last that has any effect |
| `LiveQuery.EndsAtError` | pkg/apihandler/apihandler.go:1392-1397 | Nothing after the first hook error or cancellation has any influence |
| `LiveQuery.ClientSeesChanges` | pkg/apihandler/apihandler.go:1327-1406 | An event-stream client that parses the bytes recovers exactly the changes of the polled response, if and only if no response breaks a line |
| `LiveQuery.PlainClientSeesChanges` | pkg/apihandler/apihandler.go:1327-1406 | Without wg_sse a client that splits at blank lines recovers exactly the changes, if and only if no response has a blank line or ends with a line break |
| `EventStream.RoundTrip` | pkg/apihandler/apihandler.go:1376-1385 | Parsing any number of frames by section 9.2 of the WHATWG HTML Living Standard gives the bodies back when they have no line breaks |
| `EventStream.StreamExact` | pkg/apihandler/apihandler.go:1376-1385 | Any list of frames parses back to its bodies if and only if none of them has a line break |
| `EventStream.PlainStreamExact` | pkg/apihandler/apihandler.go:1375-1385 | Any list of frames without wg_sse splits at blank lines into its bodies if and only if none of them has a blank line or ends with a line break |
| `EventStream.BrokenFrame` | pkg/apihandler/apihandler.go:1376-1385 | The first event read from the frame of a body with a line break is shorter than the body, whatever follows it |
| `EventStream.SubscribeOnceIsDiscarded` | pkg/apihandler/apihandler.go:1380-1383 | No body at all is read back from a subscribe-once frame, which has no blank line; one without line breaks yields no event |
| `EventStream.EventBound` | pkg/apihandler/apihandler.go:1376-1385 | Every event dispatched is shorter than buffer and stream together by at least two characters |
| `HookHandlers.HandleLiveQueryEvent` | pkg/apihandler/apihandler.go:1248-1325 | A poll makes the enabled calls in source order, each with the variables, headers and output of the moment; it returns the answer of customResolve, else that of mutatingPostResolve, else the transformed output; a failure returns its stage and cause and stops the calls there |
| `HookRuns.LiveRuns` | pkg/apihandler/apihandler.go:1248-1325 | The same as a law of the live specification, whatever the last poll left in the buffer |
| `HookHandlers.ServeOneShot` | pkg/apihandler/apihandler.go:1145-1211 | The one-shot query makes the enabled calls in source order, each with its own variables and the headers and output of the moment; it writes the answer of customResolve, else that of mutatingPostResolve, else the transformed output, with status 200; a failure stops the calls at its stage with the status of lines 2239-2264 |
| `HookRuns.OneShotRuns` | pkg/apihandler/apihandler.go:1145-1211 | The same as a law of the one-shot specification |
| `Hooks.StageAgrees` | pkg/apihandler/apihandler.go:1145-1325 | The two separately specified handlers make the same call at every stage but mutatingPreResolve and stop with matching status and error, or go on alike |
| `Hooks.OneShotKeepsVariables` | pkg/apihandler/apihandler.go:1156-1165 | The one-shot handler resolves with the variables it was given, whatever input mutatingPreResolve returns |
| `Hooks.LiveTakesInput` | pkg/apihandler/apihandler.go:1262-1274 | A poll resolves with the input that mutatingPreResolve returns |
| `Hooks.HandlersAgreeExactly` | pkg/apihandler/apihandler.go:1145-1325 | For every environment and request both make the same ordered calls and either produce the same body or fail at the same stage with matching status, if and only if mutatingPreResolve is off; also when the hooks client never returns a nil answer |
| `RequiredFields.MergeRequiredFields` | pkg/apihandler/apihandler.go:330-350 | The nested loops compute the merge the next four rows are about |
| `RequiredFields.MergeField` | pkg/apihandler/apihandler.go:332-348 | One requirement is merged into the first entry of its field or appended |
| `RequiredFields.MergeNames` | pkg/apihandler/apihandler.go:335-343 | Appends the names not there yet, duplicates in the addition dropped too |
| `RequiredFields.MergeExtends` | pkg/apihandler/apihandler.go:330-350 | The old entries are a prefix in their order, with the same keys and their names extended at the end |
| `RequiredFields.MergeIsUnion` | pkg/apihandler/apihandler.go:330-350 | Per key and name, and per key, exactly the union of both inputs |
| `RequiredFields.MergeAppends` | pkg/apihandler/apihandler.go:347-347 | Every new entry is a requirement as it was, with more required names at most |
| `RequiredFields.MergedNamesInOrder` | pkg/apihandler/apihandler.go:336-342 | New names are appended once each and in their order |
| `RequiredFields.MergeKeepsDistinct` | pkg/apihandler/apihandler.go:330-350 | No key and no name is duplicated by the merge |
| `RequiredFields.MergeIdempotent` | pkg/apihandler/apihandler.go:330-350 | Merging the same requirements again changes nothing |
| `Watcher.PathSet.Add` | pkg/watcher/watcher.go:48-53 | The set grows by the path |
| `Watcher.PathSet.Flush` | pkg/watcher/watcher.go:55-65 | Returns the set strictly sorted and leaves it empty |
| `Watcher.SortedUnique` | pkg/watcher/watcher.go:59-64 | There is only one strictly sorted list of a set, so Flush is determined whatever the map order |
| `Watcher.LessExactly` | pkg/watcher/watcher.go:62-62 | The order of the list: a proper prefix first, otherwise the first difference decides |
| `Watcher.FlushesAreExact` | pkg/watcher/watcher.go:96-108 | In every interleaving each flush returns exactly the paths added since the flush before |
| `Watcher.NothingIsLost` | pkg/watcher/watcher.go:96-108 | Every added path is in a flush that covers its addition, or in the set with a callback still to come |
| `Watcher.QuiescentIsFlushed` | pkg/watcher/watcher.go:96-108 | With nothing pending the set is empty and every added path has been flushed |
| `Watcher.FlushedWasAdded` | pkg/watcher/watcher.go:96-108 | Nothing is flushed that was not added |
| `Watcher.InvRun` | pkg/watcher/watcher.go:96-108 | The invariant on additions, flushes, timer and callbacks survives every run |
| `Deduplication.UniqueStrings` | pkg/node/node.go:661-671 | The single pass with a map keeps the first occurrences in order |
| `Deduplication.FilterHosts` | pkg/node/node.go:570-591 | The two loops give the distinct hosts other than the empty one, the primary host first |
| `Deduplication.FirstOccurrencesProperties` | pkg/node/node.go:661-671 | No duplicates, the same elements, and nothing removed exactly when there were no duplicates |
| `Deduplication.UniqueSnoc` | pkg/node/node.go:664-669 | An entry is kept exactly when no equal one stands before it |
| `Deduplication.NonEmptyFirstOccurrences` | pkg/node/node.go:570-591 | Dropping empty hosts after deduplication is deduplication with the empty host already seen |
| `Deduplication.DropLater` | pkg/manifest/manifest.go:65-71 | Deleting a later duplicate does not change the first occurrences |
| `Manifests.Manifest.RemoveDuplicates` | pkg/manifest/manifest.go:59-76 | Restart-and-shift terminates with the same list as the single pass of the node, and sets hasChanges exactly when something was removed |
| `Manifests.Manifest.Load` | pkg/manifest/manifest.go:41-57 | A missing or unreadable file leaves the manifest alone; a list in the file replaces the one in memory and is deduplicated; a file without a list keeps and deduplicates it |
| `Manifests.Manifest.PersistChanges` | pkg/manifest/manifest.go:78-83 | Writes the list exactly when there are changes |
| `Manifests.Manifest.AddDependencies` | pkg/manifest/manifest.go:100-115 | First occurrences of the loaded list followed by the added names; nothing happens on a load error |
| `Manifests.Manifest.RemoveDependencies` | pkg/manifest/manifest.go:117-137 | The first occurrence of each name goes; hasChanges tells exactly whether anything was removed, on loading or afterwards |
| `Manifests.RemovedAllIsWithout` | pkg/manifest/manifest.go:121-132 | On a duplicate-free list removing first occurrences is filtering |
| `Manifests.Manifest.AddAndRemove` | pkg/manifest/manifest.go:78-137 | Add, save, remove: restores the list if and only if the names are disjoint from the ones there before |
| `Manifests.AddThenRemoveExact` | pkg/manifest/manifest.go:100-137 | The same as a law of the two operations, for all lists |
| `Manifests.UniqueTwice` | pkg/manifest/manifest.go:100-115 | Deduplicating on load and again after adding is deduplicating once |
| `Integrations.Group` | pkg/manifest/manifest.go:192-238 | The grouping loops compute, organization by organization in first-seen order, the APIs of that organization in input order |
| `Integrations.AddApi` | pkg/manifest/manifest.go:212-237 | One dependency joins the group of its organization or opens a new one at the end |
| `Integrations.VariablesAreOptional` | pkg/manifest/manifest.go:198-204 | True exactly when every placeholder is optional |
| `Integrations.GroupedDistinct` | pkg/manifest/manifest.go:192-238 | Organizations are distinct and none is empty |
| `Integrations.GroupedLossFree` | pkg/manifest/manifest.go:192-238 | As many APIs come out as dependencies could be marshalled |
| `Integrations.GroupedDescribes` | pkg/manifest/manifest.go:205-236 | Each API is described by its own dependency: organization, name, marshalled form, whether it has variables and whether all of them are optional |
| `Integrations.ApisAreStable` | pkg/manifest/manifest.go:212-237 | The APIs of an organization are exactly its marshalled dependencies, each once and in their order |

## Left out

- StringInterpolators.StringInterpolator.Interpolate: requires that the root schema is no editable leaf, because the write would have an empty path, on which `jsonparser.Set` and its error lie outside the tree model; and, where it traverses, that the code returns on the document at all, which `TerminatesExactly` makes a condition on the schema.
- PostResolve.ApplyGet: requires that the parents of each concrete target exist, because creating parents under a missing or null value is byte-level behaviour of `jsonparser.Set`.
- PostResolve.Transform: requires the same of each transformation when its turn comes.
- ResponseCache.NotModifiedMeansSameBody: assumes that the hash tells these two bodies apart; a 64-bit hash cannot promise it.
- ResponseHistory.RequestsOfARun: lookup and age are taken at one instant; the second may in fact change in between.
- PlanCache.EntriesArePlans: assumes that documents with different planning outcomes do not share a hash; the converse is `OwnPlansExactly`.
- Byte-level JSON: white space, member order, duplicate members, number formats, keys that look like `[n]`, and whether a write reuses the old buffer.
- Parsing schemas: decoding errors of the constructors, and null entries in `properties` and `$defs`.
- Idle timeout, plan cache, response cache and the watcher's debounce are step systems on values rather than classes, because their steps interleave; the mutexes and atomics are taken at their word.
- The idle timeout's `skip` function, the handler wrapper and waiting on a context.
- Ristretto and Redis internals: the cache is a map with expiry times that may drop a write or lose an entry at any time.
- The Cache-Control header, customResolve, preResolve and mockResolve on the cached path.
- Log output, the error texts of a live query, and the ETag and 304 of the one-shot handler inside `Hooks`.
- The shared variables that mutatingPreResolve leaves behind for later polls; each poll starts from the context it is given.
- Subscriptions: only their frame, which is the same as that of live queries.
- GraphQL parsing, normalization, planning and resolving.
- File events, ignore patterns, the stamp filter and callback errors of the watcher.
- Rendering the integrations template, fetching dependencies, failed writes of the manifest and a file whose decoding stops half-way.
- Aliasing of Go slices: `mergeRequiredFields`, `removeDuplicates` and the organizations behind pointers are values here.
- Command line, bundling, authentication, cookies, webhooks, storage and generated code.
