# A verified model of the admin server's hard parts

This Dafny project models the parts of the repository where correctness depends on more
than one function: a canonical form that hashes rest on, protocols between concurrent
parties, resources that must be closed once, registries that run foreign callbacks, and
validators that must agree. Each part follows the source's own branches and constants;
what the source updates in place is a class here, and what several parties do at once is
a state machine over atomic steps whose theorems hold for every interleaving.

`dafny verify dfyconfig.toml` checks everything.

| files | what they model |
|---|---|
| `Text.dfy`, `Canonical.dfy`, `JsonParser.dfy`, `RoundTrip.dfy`, `Shortest.dfy` | the canonical JSON writer, an independent reader of RFC 8259 text, the round trip between them, and that the canonical text is the shortest |
| `Walker.dfy`, `Documents.dfy` | the token walk that rejects duplicate keys and deep nesting, and what decoding an accepted document preserves |
| `LanguageCache.dfy`, `LanguageHandlers.dfy` | the generation-stamped profile cache as a state machine, and the code around it running among other parties |
| `DatabaseLeases.dfy` | leasing, swapping and retiring the database handle under any interleaving |
| `ConfigLifecycle.dfy` | initialization with rollback, reload and ordered shutdown of everything `Config` owns |
| `PresentationRegistry.dfy`, `ModuleRegistry.dfy` | the registry of definitions and the transactional registry of modules above it |
| `MenuTree.dfy` | building the menu forest from a flat list of shared nodes |
| `PatternScanner.dfy`, `Patterns.dfy` | the portable-pattern scanner against its grammar, and the identifier patterns |
| `Findings.dfy`, `Issues.dfy` | every issue the validators can report, the log they are added to, and the order of the report |
| `Conditions.dfy`, `PresentationModel.dfy` | visibility conditions, and the entities and checks that the validators share |
| `ProfileShape.dfy`, `CapabilityIdentity.dfy`, `DefaultPresentation.dfy`, `ProfileCheck.dfy` | ParseDocument's report, and the validators of capabilities and of profiles, each with the exact issues of every check |
| `SoundCapability.dfy` | what a capability is in which those of `CapabilityIdentity.dfy` find nothing, and what the lookups then find |
| `Agreement.dfy`, `Sample.dfy` | what the one validator demands implies what the other does, and pages to which this applies |
| `PlainTerms.dfy`, `ProfileReport.dfy`, `Diagnoses.dfy` | what the validators accept in terms of capability and profile alone, and which issue is reported where |
| `ConfigRevisions.dfy`, `ConfigWrites.dfy` | revisioned configuration writes: interleaved transactions, and the statements of one |
| `TokenRotation.dfy` | rotation, revocation and check of a personal access token |
| `LogScan.dfy` | the bounded scan of runtime logs and its pages |
| `Coverage.dfy` | merging coverprofiles and summing them by package subtree |

## How to read it

- A protocol is a total function `Apply(state, action)`; an action that is not enabled
  changes nothing, so `Run` over all action lists is exactly the set of interleavings.
  `Inv` is kept by every step (`...Keeps`), and the named theorems are about every run.
- A method that works in place is proved equal to a function of the old state; the
  lemmas are about that function. Between two of its accesses other parties may act: the
  language handlers and the token rotation are proved under arbitrary interference.
- A validator's check adds to the log exactly the multiset of issues that a function of its
  input gives, maps being iterated in any order; a `...Clean` lemma says when that multiset
  is empty, in terms of the input alone; sorting then makes the report one list.
- Where a method and the function that specifies it share a definition, an `...Exactly` lemma
  says what that definition means in terms of the input alone.
- What comes from outside (database and cache failures, close results, callbacks, the
  iteration order of a map) is a parameter or a nondeterministic choice and may be anything.

## What is assumed

- One primary database; the cache generation key is never evicted; a language write
  commits first and then increments the generation.
- The encoder of the version 1 form is not modelled character by character: any encoder
  that the reader inverts will do (`JsonParser.Inverts`). The version 2 encoder is modelled
  exactly and proved to be such an encoder.
- A digest is an injective function with well-formed results; new secrets and ids are fresh.
- Database rows are read and written atomically, and `SELECT ... FOR UPDATE` blocks. How
  the database compares a stored group and name with a requested one is arbitrary but
  reflexive and confined to one owner.
- An encoded string is not empty, and `strconv.ParseFloat` rejects the empty string.
- Reading a file yields bytes or an error, not both at once, and the file does not change
  while it is read.
- `regexp.Compile`, finite `strconv.ParseFloat`, strings of white space and the definition
  hash are functions of their arguments, otherwise arbitrary.
- `BuildTree` is given distinct ids, a root id that is none of them, and freshly loaded
  rows, whose child lists are empty.

## Where the code does something a reader might not expect

- `ReplaceChallengeRuntime` puts the previous owner back after any close error, while
  shutdown keeps it only after a timeout; its capability stays withdrawn in both cases.
- An initialization that fails late may already have retired the old managed queue: only
  the handle, the default handle and the runtime owner are guaranteed to stay.
- A plain queue that is replaced is never shut down (`PlainQueueLeftRunning`).
- In `buildOptionalQueue` the branch for a failed close without a candidate cannot be
  reached, since only a candidate is ever closed; the model has one branch less.
- The default presentation of a limited table, spelled out as a profile, is rejected by the
  profile validator, because it sets at least the data source. The agreement theorem is
  therefore an equivalence.
- The reference check of conditions passes over every variant beside `all`, and over the
  field beside any group. `Conditions.MissesExactly` says when that loses a field, and the
  shape check excludes it.
- `validateConditionValue` ignores the error of `canonicalJSON`, so two different numbers out
  of range count as a repetition (`Conditions.DifferentYetRepeated`); a single one passes the
  shape check, and ParseDocument then fails to write the canonical form.
- The log scan means never to return a fragment of a line, but does in two cases: when the
  line it skips fills the scanner's buffer, the next call returns that buffer; and when a
  read fails inside a line, the scanner returns what it has of it. `LogScan.ScannedWhole` is
  the exact condition, `LogScan.LongLineIsCut` and `LogScan.ErrorCuts` are instances.
- A log scan that finds exactly 10,000 matches, or whose files use up a budget exactly
  while another file is left, reports truncation although nothing may be missing.
  `LogScan.Complete` is the exact condition.

## Model

| member | source | states |
|---|---|---|
| `Text.Utf8Order` | admin/presentation/canonical.go:92-96 | Go's byte order of two strings is the order of their code points, so `sort.Strings` sorts keys by code point |
| `Text.Utf8Injective` | admin/presentation/canonical.go:142-142 | different strings have different bytes, so equal canonical bytes mean equal canonical text |
| `SortedKeys.EnumerationUnique` | admin/presentation/canonical.go:92-96 | a set of keys has only one increasing key list, whatever the iteration order of the map |
| `SortedKeys.Collect` | admin/presentation/canonical.go:92-96 | collecting the keys of a map in any order and sorting them gives that one list |
| `Canonical.WriteEscaped` | admin/presentation/canonical.go:123-145 | one character of the version 2 string writer; `Shortest.QuoteV2Determined` says that no other choice of escapes is possible |
| `Canonical.WriteString` | admin/presentation/canonical.go:120-148 | appends exactly the quoted and escaped string |
| `Canonical.WriteValue` | admin/presentation/canonical.go:62-118 | without an unacceptable number, appends exactly the canonical text of the tree; otherwise its error names the first one in printing order |
| `Canonical.WriteArray` | admin/presentation/canonical.go:80-90 | the array loop: commas between the items, each printed in order |
| `Canonical.WriteMembers` | admin/presentation/canonical.go:98-112 | the member loop over the sorted keys |
| `Canonical.WriteObject` | admin/presentation/canonical.go:91-113 | an object is printed with every member once, in key order |
| `Canonical.NothingBad` | admin/presentation/canonical.go:76-79 | the writer stops at no number exactly in trees all of whose numbers are acceptable |
| `Canonical.BadOccurs` | admin/presentation/canonical.go:76-79 | the number named by the error is a number of the tree that is not acceptable |
| `JsonParser.RuneReadsBack` | admin/presentation/canonical.go:123-145 | every escape the version 2 writer produces is read by section 7 of RFC 8259 as the one character it stands for, whatever follows |
| `JsonParser.QuoteV2Inverts` | admin/presentation/canonical.go:120-148 | the version 2 string writer satisfies what the round trip needs of a string encoder |
| `RoundTrip.NumberReadsBack` | admin/presentation/canonical.go:72-79 | a number literal is read back as that literal in front of anything that cannot continue it |
| `RoundTrip.ValueReadsBack` | admin/presentation/canonical.go:62-118 | the canonical text of any decoded tree, followed by anything that ends a value, reads back as that tree and leaves the rest |
| `RoundTrip.PrintThenParse` | admin/presentation/canonical.go:23-39 | parsing canonical text gives back the tree |
| `RoundTrip.CanonicalBytesInjective` | admin/presentation/canonical.go:41-118 | two trees have the same canonical bytes if and only if they are equal: what a definition hash or document digest rests on |
| `RoundTrip.Canonicalize` | admin/presentation/canonical.go:41-56 | decoding and printing: fails exactly on text that is not one JSON value with acceptable numbers, otherwise returns the canonical form |
| `RoundTrip.CanonIdempotent` | admin/presentation/canonical.go:41-56 | canonicalising canonical text changes nothing |
| `RoundTrip.CanonDecides` | admin/presentation/canonical.go:41-56 | two texts have the same canonical form exactly when they decode to the same tree |
| `Shortest.QuoteV2Determined` | admin/presentation/canonical.go:120-148 | the version 2 string writer is determined by the reader: of all texts that read as a string its output is the shortest, and of the shortest the last in the order of characters, which means lower-case hexadecimal digits |
| `Shortest.RawOutsideEscapes` | admin/presentation/canonical.go:123-145 | a string without quotation marks, backslashes and controls is written as itself between quotation marks |
| `Shortest.MembersInOrder` | admin/presentation/canonical.go:80-113 | an object is its members, each once, in the byte order of the keys, an array its items in order, with single commas and nothing else between |
| `Shortest.CanonicalIsShortest` | admin/presentation/canonical.go:62-148 | no text that parses as a tree is shorter than its canonical text: no white space outside strings, no escape that is not needed |
| `Walker.ReadSound` | admin/presentation/canonical.go:176-234 | a token stream that reads as a document is that document's tokens and then the rest |
| `Walker.ReadComplete` | admin/presentation/canonical.go:176-234 | the tokens of every document read back as that document, whatever follows |
| `Walker.Walk` | admin/presentation/canonical.go:176-234 | the recursive walk succeeds exactly when the stream starts with a well-formed value without duplicate keys and not too deep, and consumes exactly that value |
| `Walker.WalkObject` | admin/presentation/canonical.go:188-216 | the object loop with its growing `seen` map |
| `Walker.WalkArray` | admin/presentation/canonical.go:217-229 | the array loop |
| `Walker.RejectDuplicateKeys` | admin/presentation/canonical.go:167-174 | accepts exactly the streams that are one document whose objects all have distinct keys and whose nesting stays within 32 |
| `Documents.MapOfMembers` | admin/presentation/canonical.go:41-56 | decoding an object with distinct keys into a map keeps every member |
| `Documents.DecodingForgetsOnlyOrder` | admin/presentation/canonical.go:41-56 | two accepted documents decode to the same tree exactly when they differ at most in member order |
| `Documents.CanonicalBytesIdentifyDocuments` | admin/presentation/canonical.go:41-56 | two accepted documents have the same canonical bytes exactly when they differ at most in member order |
| `Documents.DocOfDecodes` | admin/presentation/canonical.go:41-56 | every tree is what some document without repeated keys decodes to |
| `Documents.SharedTreeDistinct` | admin/presentation/canonical.go:167-174 | a document that repeats a key is never equal, even up to member order, to a checked one with its tree |
| `Documents.DuplicatesWouldBeLost` | admin/presentation/canonical.go:167-174 | without the check content would be lost: every document that repeats a key, at any level, decodes to the tree of another one that repeats none |
| `LanguageCache.ReadKeeps` | admin/pkg/language_cache.go:47-115 | each step of a reader, failing or not, keeps every snapshot and every reader in flight fresh for its generation |
| `LanguageCache.ApplyKeeps` | admin/apis/language.go:135-201 | every step of any party keeps the invariant, and recorded history only grows |
| `LanguageCache.RunKeeps` | admin/apis/language.go:135-201 | the invariant holds after every interleaving |
| `LanguageCache.HitsAreFresh` | admin/pkg/language_cache.go:47-84 | a request answered from the cache gets a profile at least as new as every write whose invalidation completed before its final generation check, even if a stale reader stored after an invalidation |
| `LanguageCache.InvalidationRecorded` | admin/pkg/language_cache.go:117-125 | a completed invalidation stays recorded whatever happens later, so the freshness of later hits includes it |
| `LanguageCache.MissStores` | admin/apis/language.go:141-201 | an undisturbed miss stores the current profile under the current generation |
| `LanguageCache.StoredIsHit` | admin/pkg/language_cache.go:47-84 | and the next undisturbed request is answered from that snapshot |
| `LanguageHandlers.FillProfile` | admin/apis/language.go:168-182 | the nested loops answer every lookup by the last definition of that name and list no language without definitions |
| `LanguageHandlers.FoundUnderName` | admin/apis/language.go:168-182 | a definition is found under its group, a dot and its key, with the value of the last definition of that name; every entry is such a definition |
| `LanguageHandlers.LoadProfileCache` | admin/pkg/language_cache.go:47-84 | between other parties' steps a hit is up to date when it is returned; undisturbed, the exact answer and state, a garbled snapshot deleted |
| `LanguageHandlers.StoreProfileCache` | admin/pkg/language_cache.go:86-115 | between other parties' steps storing a profile fresh for its generation keeps the cache sound; undisturbed, it is stored exactly when the generation is still the same |
| `LanguageHandlers.ServeProfile` | admin/apis/language.go:135-201 | whatever others do in between, the served profile includes every write whose invalidation had completed when the request began; undisturbed, a miss leaves the current profile stored |
| `LanguageHandlers.WriteProfile` | admin/apis/language.go:346-367 | commit, then invalidate: when the invalidation succeeds the write is among those every later hit reflects; undisturbed, exactly these two steps |
| `DatabaseLeases.ApplyKeeps` | admin/config/config.go:397-419 | begin, end, open, abandon, swap, withdraw, close and forget each keep the invariant on handles, lease groups and close counts |
| `DatabaseLeases.RunKeeps` | admin/config/config.go:397-514 | the invariant holds after every interleaving of operations and administration |
| `DatabaseLeases.NoUseAfterClose` | admin/config/config.go:397-419 | no handle is closed twice, no running operation uses a closed handle, and the published handle is open |
| `DatabaseLeases.ClosedWithoutLeases` | admin/config/config.go:500-514 | a handle is closed only at a moment when no operation leases it |
| `DatabaseLeases.OldLeasesNeverRise` | admin/config/config.go:484-498 | over every run: a handle that was published and then is not, is never published again, and from then on its set of leases only shrinks, also after its lease entry is gone |
| `DatabaseLeases.RetirementWaitsForLeases` | admin/config/config.go:500-514 | retirement can go on exactly when the last operation on the old handle has returned |
| `DatabaseLeases.NothingLeaks` | admin/config/config.go:575-601 | with the reload mutex free, every handle ever opened is published or was closed exactly once and its lease entry dropped |
| `DatabaseLeases.CounterCovers` | admin/config/config.go:415-418 | the deferred `Done` never drives a group's counter below zero |
| `DatabaseLeases.Config.LeaseGroup` | admin/config/config.go:407-414 | the lease group of a handle, made on first use |
| `DatabaseLeases.Config.BeginWithDatabase` | admin/config/config.go:397-416 | refuses exactly when no operation is given, no handle is published or the published one has no DB; otherwise leases the published one |
| `DatabaseLeases.Config.EndWithDatabase` | admin/config/config.go:417-418 | the end of an operation |
| `DatabaseLeases.Config.SwapDatabaseHandle` | admin/config/config.go:484-498 | publishes the next handle with a lease group and returns the previous one with its own |
| `DatabaseLeases.Config.Publish` | admin/config/config.go:484-498 | the published handle is the one given, and nothing else is published or closed |
| `DatabaseLeases.Config.WithdrawHandle` | admin/config/config.go:484-498 | no handle is published, and the one before is returned with its lease group |
| `DatabaseLeases.Config.CloseRetired` | admin/config/config.go:500-514 | after the wait: one close, and the lease entry is dropped unless the handle is published again |
| `ConfigLifecycle.Config.PrepareChallengeRuntime` | admin/config/runtime_challenge.go:34-96 | an error exactly when a required runtime cannot be built; a started graph that is not ready has been closed |
| `ConfigLifecycle.Config.BuildOptionalQueue` | admin/config/config.go:239-298 | initialization goes on exactly when no queue is configured, the queue was built, or the broker is explicitly unavailable before an adapter exists and nothing was cancelled or misconfigured; a failed candidate is closed once |
| `ConfigLifecycle.Config.RetireManagedQueueForReplacement` | admin/config/config.go:344-373 | withdraws and closes the old managed queue, keeps it as retiring when its close times out, and never reports a different queue already retiring |
| `ConfigLifecycle.Config.ReplaceChallengeRuntime` | admin/config/runtime_challenge.go:98-133 | withdraws the capability before closing the old graph; on any close error the old owner is restored without its capability |
| `ConfigLifecycle.Config.RollBack` | admin/config/config.go:139-147 | the deferred functions, last first, each closing a resource nobody can find any more |
| `ConfigLifecycle.Config.PublishCandidates` | admin/config/config.go:207-236 | the last steps: retire, replace, publish, or stop with the previous snapshot installed |
| `ConfigLifecycle.Config.InitContext` | admin/config/config.go:101-237 | the new state of all fields for every combination of failures, and an error exactly when it does not commit or retiring the old queue or closing the old handle fails |
| `ConfigLifecycle.Config.ReloadDatabase` | admin/config/config.go:575-601 | publishes a fresh handle and closes the old one, or closes the fresh one when the policy watcher cannot be bound |
| `ConfigLifecycle.Config.CloseChallengeRuntime` | admin/config/runtime_challenge.go:135-157 | withdraws the capability first and keeps the owner exactly when the close timed out |
| `ConfigLifecycle.Config.CloseManagedQueue` | admin/config/config.go:459-482 | withdraws and closes the owned queue and keeps it exactly when closing it failed at the deadline and the adapter does not report completion |
| `ConfigLifecycle.Config.CloseContext` | admin/config/config.go:433-457 | challenge runtime, queue, database, stopping where something cannot close in time; the exact new state and condition for an error, which the `...Exactly` lemmas say field by field |
| `ConfigLifecycle.InitHandleSettled` | admin/config/config.go:133-147 | a commit publishes the fresh open handle and closes the one before; a failure keeps the published handle and closes the fresh one exactly once |
| `ConfigLifecycle.InitGraphSettled` | admin/config/config.go:166-183 | a fresh graph is owned and never closed, or closed exactly once; on failure the owner stays, and old graphs are untouched while their capability is published |
| `ConfigLifecycle.InitQueueSettled` | admin/config/config.go:184-223 | a fresh queue is published and never closed, or closed exactly once; a queue retired for it is never taken up again |
| `ConfigLifecycle.InitAllOrNothing` | admin/config/config.go:101-237 | either everything new is published together, or handle, default handle and owner are what they were |
| `ConfigLifecycle.PlainQueueLeftRunning` | admin/config/config.go:207-223 | a plain queue replaced by a commit is no longer published but is never shut down |
| `ConfigLifecycle.InitKeeps` | admin/config/config.go:101-237 | InitContext keeps the invariant on owned, published and closed resources |
| `ConfigLifecycle.ReloadKeeps` | admin/config/config.go:575-601 | so does a reload |
| `ConfigLifecycle.CloseKeeps` | admin/config/config.go:433-457 | and a shutdown attempt |
| `ConfigLifecycle.CloseOrder` | admin/config/config.go:433-457 | no queue is closed and no handle withdrawn while a graph is owned, no handle while a queue is; an attempt ends fully closed exactly when it gets past both |
| `ConfigLifecycle.RetriesClose` | admin/config/config.go:429-457 | a series of attempts reaches the fully closed state if and only if some attempt gets past the runtime and the same or a later one past the queue, said of the flags of the close results |
| `ConfigLifecycle.CloseExactly` | admin/config/config.go:433-482 | one shutdown attempt field by field, over the raw results of the closes: a graph that closes late, or a queue whose close fails at the deadline without a completion report, stays owned and keeps the database published and open; otherwise nothing stays owned and the handle is closed once |
| `ConfigLifecycle.CloseErrsExactly` | admin/config/config.go:433-457 | and it reports an error exactly when a close it came to failed |
| `ConfigLifecycle.SlowQueueKeepsHandle` | admin/config/config.go:445-447 | an owned queue whose close is cut off stays retiring and the handle is not touched; in every other case no queue stays owned and everything is closed |
| `ConfigLifecycle.RetireExactly` | admin/config/config.go:344-373 | the retirement before a replacement: the owned queue is closed once and withdrawn, and stays as retiring exactly when its close was cut off |
| `ConfigLifecycle.CommitsExactly` | admin/config/config.go:101-237 | an initialization commits exactly when the database opens, a required runtime is ready, a configured queue was built or may be missing, the old queue does not hang and the old runtime closes |
| `ConfigLifecycle.InitCommitExactly` | admin/config/config.go:207-236 | after a commit handle, default handle, owner and capability are the fresh ones; each old handle and graph was closed once and no other |
| `ConfigLifecycle.InitCommitQueueExactly` | admin/config/config.go:184-223 | and the queue is the fresh one, owned exactly when it is managed; the queue owned before was closed once and no other |
| `ConfigLifecycle.SlowQueueStopsInit` | admin/config/config.go:207-211 | an old queue that hangs stops the initialization: it is retiring and withdrawn, the snapshot stays, and the fresh handle is closed |
| `ConfigLifecycle.EarlyFailureChangesNothing` | admin/config/config.go:101-206 | a failure before anything is retired changes nothing that is published or owned |
| `ConfigLifecycle.StuckRuntimeStopsInit` | admin/config/runtime_challenge.go:98-133 | an old graph that fails to close stops it after the queue was retired: the old owner is back without its capability, the snapshot stays, and the fresh handle is closed |
| `ConfigLifecycle.ReloadExactly` | admin/config/config.go:575-601 | a reload changes only the handles: nothing if none opens, a closed fresh handle if the watcher cannot be bound, and otherwise the fresh one published and the one before closed once |
| `ConfigLifecycle.RunKeeps` | admin/config/config.go:101-237 | the invariant holds after every run of initializations, reloads and shutdowns |
| `ConfigLifecycle.OneManagedQueue` | admin/config/config.go:349-357 | active and retiring queue are never both set, so the branch "a different managed queue is already retiring" cannot be reached |
| `ConfigLifecycle.PublishedIsUsable` | admin/config/runtime_challenge.go:110-131 | after every run the published capability is that of the owned graph, which was never told to close; default handle and published queue are open |
| `ConfigLifecycle.ShutdownIsComplete` | admin/config/config.go:433-457 | in a fully closed state every handle ever opened was closed exactly once, every graph and every managed queue at least once |
| `PresentationRegistry.ListedHolds` | admin/presentation/registry.go:131-150 | the list holds exactly the registered definitions, each page key once, in the byte order of the page keys |
| `PresentationRegistry.RegisteredDefaultPasses` | admin/presentation/registry.go:152-161 | whatever page a registry holds, its spelled-out default passes the registry's validation if and only if the page is not a limited table |
| `PresentationRegistry.Registry.Validate` | admin/presentation/registry.go:152-161 | the report on a profile against the definition of its page, or the one issue of an unknown page or a missing profile |
| `PresentationRegistry.Registry.Register` | admin/presentation/registry.go:65-112 | refuses a frozen registry, a known page key and exactly the definitions that ValidateCapability reports issues of; otherwise adds exactly that one |
| `PresentationRegistry.Registry.Freeze` | admin/presentation/registry.go:80-88 | sets the flag, on which Register refuses everything and which no other method may change |
| `PresentationRegistry.Registry.List` | admin/presentation/registry.go:131-150 | returns the sorted list |
| `PresentationRegistry.NewRegistry` | admin/presentation/registry.go:25-33 | succeeds exactly when ValidateCapability reports nothing of any definition and page keys are distinct |
| `ModuleRegistry.Transaction.EnterRegister` | admin/business/registry.go:165-184 | a nested or repeated registration, or one after the close, poisons the transaction |
| `ModuleRegistry.Transaction.FinishRegister` | admin/business/registry.go:186-214 | a registration stages its entry once, or records its error for good |
| `ModuleRegistry.Transaction.Close` | admin/business/registry.go:216-235 | yields the staged entry exactly when the callback succeeded, no registration is still running and no error was recorded, even one that was ignored |
| `ModuleRegistry.LateIsHarmless` | admin/business/registry.go:165-214 | what a leaked view does after the close cannot change what was staged |
| `ModuleRegistry.PhaseOf` | admin/business/registry.go:142-214 | every script leaves the transaction untouched, in one registration, with one staged entry, or poisoned, and which of these is read off the script |
| `ModuleRegistry.StagesIff` | admin/business/registry.go:142-235 | a module stages an entry if and only if its callback returns without an error or a panic and its script registers once, admissibly and to the end, and tries nothing else |
| `ModuleRegistry.Registry.Add` | admin/business/registry.go:348-424 | for every callback script and ending, a panic included: succeeds exactly on an unfrozen registry, for a new name, when the script makes an admissible offer that does not collide; the registry then gains exactly the offered entry, migration ids and aliases and definitions, and otherwise nothing; each refusal has its own condition; gate and active slot are released; a reentrant call changes nothing |
| `ModuleRegistry.Registry.Publish` | admin/business/registry.go:397-423 | migrations and definitions are combined before anything is assigned |
| `ModuleRegistry.Registry.RunScript` | admin/business/registry.go:429-513 | calls through the view touch only the transaction, calls of the parent find its gate taken |
| `ModuleRegistry.Registry.Freeze` | admin/business/registry.go:516-554 | on an idle registry freezing cannot fail; the combined runner has the ids and aliases of core and business, the inventory the published definitions, and neither ever changes again |
| `ModuleRegistry.Registry.Mount` | admin/business/registry.go:639-688 | no route is registered unless the registry is frozen and every readiness check passed; then exactly the entries up to the first failure, in order |
| `ModuleRegistry.ExtendedConsistent` | admin/business/registry.go:397-423 | publishing a module keeps names distinct and equal to the module set, page keys distinct and migrations combinable |
| `ModuleRegistry.Reachable` | admin/business/registry.go:348-554 | every registry reached by adding modules and freezing is consistent |
| `ModuleRegistry.ExtendsExactly` | admin/business/registry.go:397-423 | a module is published unless its migrations or page keys collide, and the registry then gains its entry, the ids and aliases of its migrations and its definitions |
| `ModuleRegistry.AddsExactly` | admin/business/registry.go:348-424 | the same of a whole call, with the conditions on name, registry and script |
| `ModuleRegistry.RunAddsUp` | admin/business/registry.go:348-554 | over every run the business migrations are those from the start and the union of the ids and aliases of the published modules, and core never changes |
| `MenuTree.DepthUnique` | admin/pkg/tree.go:18-31 | with distinct ids a node has one depth below the root |
| `MenuTree.DepthBound` | admin/pkg/tree.go:18-31 | a parent chain that reaches the root is shorter than the list, so the recursion ends even on lists with parent cycles |
| `MenuTree.SubtreesDisjoint` | admin/pkg/tree.go:18-31 | siblings share no descendant, so the shared nodes are filled only once |
| `MenuTree.SortMenus` | admin/models/menu.go:82-84 | sorting yields the same nodes in non-increasing `Sort` order |
| `MenuTree.AddChildren` | admin/models/menu.go:164-171 | appends the children in order |
| `MenuTree.SortChildren` | admin/models/menu.go:154-162 | orders every child list of a subtree and touches nothing else |
| `MenuTree.FillChildren` | admin/pkg/tree.go:22-28 | one round of the loop: the subtree of the node is complete and ordered, all other nodes are untouched |
| `MenuTree.BuildTree` | admin/pkg/tree.go:18-31 | on lists with distinct ids and a root id not among them, parent cycles included, it terminates (`MenuTree.EndsExactly` says when it does on other lists), returns the children of the given id in list order, and fills and orders exactly the nodes below it |
| `MenuTree.EndsExactly` | admin/pkg/tree.go:18-31 | on any list the recursion ends if and only if no call is nested in a call for the same id |
| `MenuTree.WellKeyedEnds` | admin/pkg/tree.go:18-31 | which is so from a root id that no row has, if ids are distinct |
| `MenuTree.SelfParentNeverEnds` | admin/pkg/tree.go:18-31 | and is not from the id of a row that is its own parent |
| `MenuTree.FlattenCounts` | admin/pkg/tree.go:18-31 | the forest holds each node below its roots exactly once |
| `MenuTree.BuildForest` | admin/pkg/tree.go:18-31 | the forest of freshly loaded rows holds each node whose parent chain reaches the root exactly once and no other node, every child list non-increasing in `Sort` |
| `PatternScanner.ScansItems` | admin/presentation/validation.go:1048-1132 | the scanner accepts every sequence of plain characters, allowed escapes and closed, non-empty, possibly negated classes |
| `PatternScanner.Parses` | admin/presentation/validation.go:1048-1132 | whatever the scanner accepts is such a sequence, which the lemma produces |
| `PatternScanner.BytesAsCharacters` | admin/presentation/validation.go:1060-1132 | scanning the bytes of a string decides like scanning its characters |
| `PatternScanner.ScanBytes` | admin/presentation/validation.go:1057-1132 | the loop with its index skips and three flags computes that scan without ever indexing out of range |
| `PatternScanner.IsPortableCapabilityPattern` | admin/presentation/validation.go:1048-1132 | accepts a string if and only if it passes the prefilter and its characters form such a sequence |
| `PlainTerms.IdentifiersExactly` | admin/presentation/validation.go:1140-1150 | an identifier is 2 to 120 characters of words joined by single dots or dashes that start with a letter, a reference that or a name in camel case |
| `Issues.BeforeTotal` | admin/presentation/validation.go:1429-1439 | the sort key is the whole triple: neither before the other means equal |
| `Issues.ArrangementUnique` | admin/presentation/validation.go:1429-1439 | two sorted lists of the same issues are identical |
| `Issues.DecimalExactly` | admin/presentation/validation.go:206-209 | the index in a path is its decimal numeral without leading zeros |
| `Diagnoses.ReportOrder` | admin/presentation/validation.go:1429-1439 | a report is in the byte order of paths, then of codes, then of messages |
| `Issues.IssueLog.Sort` | admin/presentation/validation.go:1429-1439 | sorting keeps the issues and orders them |
| `Issues.AnyFirst` | admin/presentation/validation.go:1314-1323 | whichever key of a map comes first, the issues over all keys are the same multiset |
| `Issues.AnyKeyFirst` | admin/presentation/validation.go:82-85 | the same for the members of a decoded object |
| `Issues.InspectUnexpectedNulls` | admin/presentation/validation.go:72-87 | adds exactly the unexpected nulls of the tree, whatever the iteration order |
| `Issues.NoNullIssues` | admin/presentation/validation.go:72-87 | there are none if and only if every null stands under the member name `value`, possibly inside arrays there |
| `Conditions.ValidateConditionArray` | admin/presentation/validation.go:367-383 | adds exactly the issues of an array of values; a value repeats an earlier one if `canonicalJSON` returns the same bytes, which are none for a number out of range |
| `Conditions.ArrayClean` | admin/presentation/validation.go:367-383 | none exactly for 1 to 50 scalars with different canonical texts, at most one of them a number out of range |
| `Conditions.RepeatsByValue` | admin/presentation/validation.go:375-379 | with an encoder that a reader inverts, decoded scalars repeat each other exactly when they are equal or both numbers out of range |
| `Conditions.DifferentYetRepeated` | admin/presentation/validation.go:375-379 | so the different numbers 1e400 and 2e400 are reported as a repetition |
| `Conditions.ValidateConditionValue` | admin/presentation/validation.go:355-389 | adds exactly the issues of a value |
| `Conditions.ValueClean` | admin/presentation/validation.go:355-389 | none exactly for one well-formed scalar or such an array |
| `Conditions.ValidatePredicate` | admin/presentation/validation.go:321-343 | adds exactly the issues of a predicate |
| `Conditions.PredicateClean` | admin/presentation/validation.go:321-343 | none exactly with a field, a known operator, and a value exactly when the operator takes one |
| `Conditions.ValidateConditionShape` | admin/presentation/validation.go:283-344 | adds exactly the issues of the shape of a condition, node by node with their paths |
| `Conditions.ShapeClean` | admin/presentation/validation.go:283-344 | none exactly when every node has one variant, groups have 1 to 20 members, predicates are complete and nothing is deeper than 8 |
| `Conditions.ValidateConditionGroup` | admin/presentation/validation.go:346-353 | adds exactly the issues of a group |
| `Conditions.ValidateSemanticCondition` | admin/presentation/validation.go:593-618 | adds exactly the unknown fields among those it visits |
| `Conditions.ReferenceClean` | admin/presentation/validation.go:593-618 | none exactly when the fields it visits are known |
| `Conditions.KnownIsVisited` | admin/presentation/validation.go:593-618 | the reference check decides the set of visited fields, no more and no less |
| `Conditions.MissesExactly` | admin/presentation/validation.go:593-618 | it decides all fields of a condition, for every set of known fields, if and only if each field under a variant it passes over also stands under one it follows |
| `Conditions.NoFieldMissed` | admin/presentation/validation.go:593-618 | so it misses none when each visited node has at most one variant |
| `Conditions.WellShapedOneVariant` | admin/presentation/validation.go:283-344 | which the shape check ensures |
| `PlainTerms.ConditionExactly` | admin/presentation/validation.go:283-353 | a well-shaped condition is exactly one of four variants, nested at most 8 deep, with 1 to 20 parts in a group and a value exactly where the operator takes one |
| `Diagnoses.ConditionTold` | admin/presentation/validation.go:283-353 | a condition that is too deep, empty or of two variants is reported as that |
| `Diagnoses.ValuesTold` | admin/presentation/validation.go:355-389 | what is wrong with the size or an item of an array of values is reported at that place |
| `Conditions.FieldMissed` | admin/presentation/validation.go:597-617 | a condition whose field it misses: an empty `all` beside a predicate |
| `PresentationModel.DefinitionsAreLast` | admin/presentation/validation.go:417-420 | of several fields with one id the definitions keep the last, and they map no other id |
| `PresentationModel.BuildDefinitions` | admin/presentation/validation.go:417-420 | the loop builds the map in which each id stands for the last field with that id, and nothing else is mapped |
| `PresentationModel.ValidateLocalizedText` | admin/presentation/validation.go:265-281 | adds exactly the issues of a text, whichever locale comes first |
| `PresentationModel.TextClean` | admin/presentation/validation.go:265-281 | none exactly when a locale is present and each text has 1 to 200 characters |
| `PresentationModel.ValidateSorts` | admin/presentation/validation.go:246-263 | adds exactly the issues of a list of sorts |
| `PresentationModel.SortsClean` | admin/presentation/validation.go:246-263 | none exactly for at most three distinct, well-formed sorts |
| `PresentationModel.ValidateSemanticSort` | admin/presentation/validation.go:559-568 | adds exactly the unknown and the unsortable fields |
| `PresentationModel.SortableClean` | admin/presentation/validation.go:559-568 | none exactly when every sort field is known and sortable |
| `PresentationModel.ValidateCapabilityPageSize` | admin/presentation/validation.go:1360-1376 | adds exactly the issues of a page size |
| `PresentationModel.PageSizeClean` | admin/presentation/validation.go:1360-1376 | none exactly within the maximum and among the options, where these are set |
| `ProfileShape.ScopeClean` | admin/presentation/validation.go:108-136 | nothing is reported exactly for the application scope without a subject and for a role or user with a subject of 1 to 160 characters |
| `ProfileShape.FieldClean` | admin/presentation/validation.go:211-231 | nothing exactly for a field patch with a reference, well-formed texts, component, numbers in range and a well-shaped condition |
| `ProfileShape.FieldsClean` | admin/presentation/validation.go:206-231 | nothing exactly for at most 100 such patches |
| `ProfileShape.ActionClean` | admin/presentation/validation.go:233-244 | nothing exactly for an action patch with a well-formed id, placement, texts, order and condition |
| `ProfileShape.ActionsClean` | admin/presentation/validation.go:164-171 | nothing exactly for at most 64 such patches |
| `ProfileShape.ListClean` | admin/presentation/validation.go:174-192 | nothing exactly for a list patch that sets something, with good columns, density, page size and sorts |
| `ProfileShape.SearchClean` | admin/presentation/validation.go:150-157 | nothing exactly for a search patch that sets something, with good fields |
| `ProfileShape.LayoutClean` | admin/presentation/validation.go:194-204 | nothing exactly for a form or detail patch that sets something, with good fields and 1 to 4 columns |
| `ProfileShape.SpecClean` | admin/presentation/validation.go:138-172 | nothing exactly for a spec that sets something and whose parts are all good |
| `ProfileShape.ProfileClean` | admin/presentation/validation.go:89-106 | nothing exactly for a profile with the right version and kind, well-formed metadata, a good scope and a good spec |
| `ProfileShape.ParseDocument` | admin/presentation/validation.go:31-70 | one issue for a document that cannot be decoded; else the sorted list of its unexpected nulls and shape issues; else, for one whose nulls and profile are good, one issue naming the first number that cannot be written, or none and the canonical form |
| `ProfileShape.ReportUnique` | admin/presentation/validation.go:31-70 | any two runs of ParseDocument return the identical list |
| `Diagnoses.FirstFailureTold` | admin/presentation/validation.go:31-70 | a document that cannot be read is reported by the one thing that fails first |
| `SoundCapability.KeyClean` | admin/presentation/validation.go:625-644 | nothing is reported exactly for an unprotected identifier as page key, a supported version and the hash of the definition itself |
| `SoundCapability.ProtectedExactly` | admin/presentation/validation.go:1026-1034 | a page key is protected exactly when it is one of the 14 names or continues one after a dot |
| `SoundCapability.NamesClean` | admin/presentation/validation.go:1152-1189 | nothing exactly when no name of the list is bad and all are different |
| `SoundCapability.IdsClean` | admin/presentation/validation.go:678-690 | nothing exactly when all ids are well-formed for the version and different within their kind |
| `SoundCapability.IdsIdentify` | admin/presentation/validation.go:1351-1358 | then each field, action and data source is the one that a lookup by its id finds |
| `SoundCapability.FactsClean` | admin/presentation/validation.go:691-722 | nothing exactly for a good label, type, nullability, lengths in order, a pattern that compiles and in version 2 is portable, and an allowed format |
| `SoundCapability.NumericClean` | admin/presentation/validation.go:1236-1265 | nothing exactly for finite bounds that do not cross, and a precision and scale of at most 38 digits, the scale not above the precision |
| `SoundCapability.EnumClean` | admin/presentation/validation.go:724-741 | nothing exactly for different well-formed values with good labels, on enums only, and in version 2 on every enum |
| `SoundCapability.InventoryClean` | admin/presentation/validation.go:742-767 | nothing exactly for some different valid surfaces and some different registered components |
| `SoundCapability.MappingsClean` | admin/presentation/validation.go:1267-1324 | nothing exactly when each surface of the field is mapped once, to some different components of it, and every component is mapped somewhere |
| `SoundCapability.MappingsChoose` | admin/presentation/validation.go:1036-1046 | then what version 2 supports on a surface is among what version 1 would, each surface has a component and each component a surface |
| `SoundCapability.PermissionsClean` | admin/presentation/validation.go:1191-1205 | nothing exactly for some different permissions of at most 255 bytes, none blank |
| `SoundCapability.LimitsClean` | admin/presentation/validation.go:1207-1234 | nothing exactly for a maximum of 1 to 200, some strictly increasing options between 1 and it, and 0 to 3 sort fields |
| `SoundCapability.OptionsDecide` | admin/presentation/validation.go:1360-1376 | then the page sizes allowed are exactly the options |
| `SoundCapability.ActionClean` | admin/presentation/validation.go:778-793 | nothing exactly for good permissions and some different valid placements |
| `SoundCapability.RegisteredClean` | admin/presentation/validation.go:678-794 | nothing of all that a capability registers exactly when its ids, fields, data sources and actions are good |
| `CapabilityIdentity.ValidateCovered` | admin/presentation/validation.go:1314-1323 | the two loops over maps: whatever their order, exactly the surfaces without a mapping, or the components on no surface |
| `Diagnoses.EnumTold` | admin/presentation/validation.go:724-741 | which issue is reported where for missing, unexpected, bad and repeated enum values |
| `Diagnoses.LimitsTold` | admin/presentation/validation.go:1207-1234 | and for the page sizes and sorts of a data source |
| `DefaultPresentation.ValidateCompleteField` | admin/presentation/validation.go:883-926 | adds exactly the issues of a default field |
| `DefaultPresentation.FieldClean` | admin/presentation/validation.go:883-926 | none exactly for a new field, registered for the surface, with a supported component, required form fields visible, and settings in range |
| `DefaultPresentation.ValidateCompleteFields` | admin/presentation/validation.go:883-926 | adds exactly the issues of the fields of a surface |
| `DefaultPresentation.FieldsClean` | admin/presentation/validation.go:883-926 | none exactly when the fields are distinct and good |
| `DefaultPresentation.ValidateCompleteActions` | admin/presentation/validation.go:858-880 | adds exactly the issues of the default actions |
| `DefaultPresentation.ActionsClean` | admin/presentation/validation.go:858-880 | none exactly when they are distinct, registered, placed where they may be, and well formed |
| `DefaultPresentation.ValidateShown` | admin/presentation/validation.go:824-830 | adds one issue for each registered field missing from a surface |
| `DefaultPresentation.MissingClean` | admin/presentation/validation.go:824-830 | none exactly when every field is shown on every surface it is registered for |
| `DefaultPresentation.ValidateLayout` | admin/presentation/validation.go:831-857 | adds exactly the issues of visibility, density, page size and columns |
| `DefaultPresentation.ValidateFit` | admin/presentation/validation.go:799-802 | adds exactly the issues of the data source and its limits |
| `DefaultPresentation.ValidateCompletePresentation` | admin/presentation/validation.go:796-881 | adds exactly the issues of the default presentation |
| `DefaultPresentation.PresentationClean` | admin/presentation/validation.go:796-881 | none exactly when all its parts are good |
| `DefaultPresentation.ValidateLimitedCompletePresentationConditions` | admin/presentation/validation.go:654-676 | adds one issue for each condition of a limited table |
| `DefaultPresentation.LimitedClean` | admin/presentation/validation.go:654-676 | none exactly without conditions |
| `DefaultPresentation.ValidateCapability` | admin/presentation/validation.go:620-652 | the sorted list of exactly the issues of identity, registrations, limited-table conditions and default presentation; empty exactly for a capability whose key, registrations and default presentation are good by predicates of the capability |
| `DefaultPresentation.ReportUnique` | admin/presentation/validation.go:620-652 | any two runs of ValidateCapability return the identical list, whatever the orders of map iteration |
| `PlainTerms.PresentationFitsExactly` | admin/presentation/validation.go:796-926 | what is accepted of a default presentation, read off the capability alone: last field and first data source of an id, first mapping of a surface, every field shown where it is registered |
| `Diagnoses.DefaultFieldTold` | admin/presentation/validation.go:883-926 | which issue a default field gets that is repeated, unknown, out of its place or out of range |
| `Diagnoses.DefaultActionTold` | admin/presentation/validation.go:862-881 | and which a default action |
| `ProfileCheck.ValidateSemanticField` | admin/presentation/validation.go:525-557 | adds exactly the issues of a field patch |
| `ProfileCheck.FieldClean` | admin/presentation/validation.go:525-557 | none exactly for a new field, registered for the surface, with a supported component if one is set, and required form fields visible |
| `ProfileCheck.ValidateSemanticFields` | admin/presentation/validation.go:525-557 | adds exactly the issues of the field patches of a surface |
| `ProfileCheck.FieldsClean` | admin/presentation/validation.go:525-557 | none exactly when the fields are distinct and good |
| `ProfileCheck.ValidateSemanticActions` | admin/presentation/validation.go:570-591 | adds exactly the issues of the action patches |
| `ProfileCheck.ActionsClean` | admin/presentation/validation.go:570-591 | none exactly when actions are distinct, registered and placed where they may be |
| `ProfileCheck.ValidateList` | admin/presentation/validation.go:433-446 | adds exactly the issues of a list patch |
| `ProfileCheck.ValidateLimitedFieldPatches` | admin/presentation/validation.go:499-523 | adds exactly the properties a limited page does not support |
| `ProfileCheck.PatchesClean` | admin/presentation/validation.go:499-523 | none exactly when no patch sets one |
| `ProfileCheck.ValidateLimitedPresentationProfile` | admin/presentation/validation.go:474-497 | adds exactly the parts and properties a limited page does not support |
| `ProfileCheck.LimitedClean` | admin/presentation/validation.go:474-497 | none exactly when nothing unsupported is set |
| `ProfileCheck.ValidateProfile` | admin/presentation/validation.go:400-461 | missing pointers included: the sorted list of exactly the issues of a profile against its capability, empty exactly for a good profile |
| `ProfileCheck.ReportUnique` | admin/presentation/validation.go:400-461 | any two runs of ValidateProfile return the identical list |
| `PlainTerms.ProfileFitsExactly` | admin/presentation/validation.go:400-591 | what is accepted of a profile, read off capability and profile alone; one that names a data source is held to the page sizes and the sort limit of that one, others to those of the default one |
| `ProfileReport.FieldReported` | admin/presentation/validation.go:525-557 | each thing wrong with a field patch is reported with its code at the path of the patch |
| `ProfileReport.ActionReported` | admin/presentation/validation.go:570-591 | the same for an action patch |
| `ProfileReport.ListReported` | admin/presentation/validation.go:400-461 | the same for page size and sorts beyond the data source the profile names |
| `ProfileReport.SortReported` | admin/presentation/validation.go:559-568 | the same for sorts of unknown or unsortable fields |
| `ProfileReport.DocumentReported` | admin/presentation/validation.go:400-523 | the same for another page, another definition, an unknown data source and what a limited page does not support |
| `Agreement.FieldAgrees` | admin/presentation/validation.go:883-926 | what the capability validator demands of a default field implies what the profile validator demands of its patch, check by check |
| `Agreement.ActionAgrees` | admin/presentation/validation.go:858-880 | the same for an action |
| `Agreement.RepeatedDefaultsPass` | admin/presentation/validation.go:400-461 | for both definition versions: a profile that repeats any of a good capability's defaults passes, on limited tables exactly if it sets nothing unsupported |
| `Agreement.DefaultProfilePasses` | admin/presentation/validation.go:400-461 | for both versions: the profile that spells out the whole default presentation of a good capability passes if and only if the capability is not a limited table |
| `Agreement.ReportsAgree` | admin/presentation/validation.go:400-461 | the same about the lists the two validators return |
| `Sample.PagesPass` | admin/presentation/validation.go:620-652 | there are capabilities that are accepted, limited tables and others |
| `Sample.BothOutcomes` | admin/presentation/validation.go:400-461 | and one spelled-out default that is rejected on a limited table and accepted on the same page with an action |
| `Agreement.EmptyProfilePasses` | admin/presentation/validation.go:400-461 | a profile that patches nothing passes for every capability |
| `ConfigRevisions.ApplyKeeps` | admin/models/app_config.go:188-219 | every step of every transaction keeps the invariant: what a transaction has read and planned under its locks is still true |
| `ConfigRevisions.RevisionUnchanged` | admin/models/app_config.go:269-283 | the guarded update always finds the locked revision, so "revision changed concurrently" is never returned |
| `ConfigRevisions.CommitIsSerial` | admin/models/app_config.go:188-219 | a commit has exactly the effect of its transaction run alone at that moment |
| `ConfigRevisions.RunKeeps` | admin/models/app_config.go:188-219 | the invariant holds after every interleaving, aborts included |
| `ConfigRevisions.RunIsSerial` | admin/models/app_config.go:188-219 | serializability: after every interleaving the database is what the committed requests, in commit order, one at a time, make of the initial one; aborts leave no trace |
| `ConfigRevisions.RevisionsCountCommits` | admin/models/app_config.go:189-217 | the profile revision grows by exactly one per commit of its owner, the theme revision by exactly one per commit in any spelling of the theme group |
| `ConfigRevisions.RowsStayUnique` | admin/models/app_config.go:287-338 | each owner, group and name has at most one row, and no revision exceeds the largest 64-bit integer |
| `ConfigRevisions.SerialWrites` | admin/models/app_config.go:287-338 | a successful write leaves exactly one row for owner, group and name, which holds the requested auth flag and value; no other row changes; the profile revision, and for the theme group the theme revision, grows by one, and no other owner's |
| `ConfigRevisions.SerialFailsExactly` | admin/models/app_config.go:230-338 | a transaction alone fails exactly when a revision it needs is negative or at its end, or a row matches the key without being it |
| `ConfigRevisions.LastCommitWins` | admin/models/app_config.go:188-219 | after every interleaving the row of a key holds the auth flag and value of the last commit for that key, or what it held at the start |
| `ConfigRevisions.NoDeadlock` | admin/models/app_config.go:189-199 | whoever holds a first lock never waits, and whoever waits, waits for such a transaction |
| `ConfigRevisions.StepMoves` | admin/models/app_config.go:188-219 | an unblocked transaction's next step ends it or brings it further |
| `ConfigWrites.SplitKey` | admin/models/app_config.go:69-75 | splits at the first separator; without one the group is empty |
| `ConfigWrites.SplitUnique` | admin/models/app_config.go:69-79 | different group and name pairs have different cache fields, and keys with a separator name the same pair only if they are equal |
| `ConfigWrites.Store.LockRevision` | admin/models/app_config.go:230-262 | creates a missing revision at 0 and fails on a negative one |
| `ConfigWrites.Store.AdvanceRevision` | admin/models/app_config.go:264-285 | adds one exactly when the row still holds the revision and it is not at its end |
| `ConfigWrites.Store.ExactCandidates` | admin/models/app_config.go:340-373 | both queries together, each row once |
| `ConfigWrites.Store.UpsertExact` | admin/models/app_config.go:287-338 | updates the only exact candidate, inserts when there is none, refuses aliases and ambiguity; without an error one row changed, which holds owner, group, name, auth and value of the request |
| `ConfigWrites.Store.Transact` | admin/models/user_config.go:74-94 | the transaction body fails exactly on a database fault or when the serial transaction does, and otherwise has its effect |
| `ConfigWrites.Store.SetConfig` | admin/models/app_config.go:172-228 | the whole call with its guards, a blank user id among them, and rollback: without an error the row of the owner with the group and name of the key holds exactly the auth flag and the value passed; on an error the store is unchanged |
| `TokenRotation.ApplyKeeps` | admin/models/user_auth_token.go:126-197 | every step keeps the chain of stored digests and the freshness of secrets in flight |
| `TokenRotation.RunKeeps` | admin/models/user_auth_token.go:126-197 | after every interleaving of rotations and revocations |
| `TokenRotation.ReplacedOnce` | admin/models/user_auth_token.go:158-172 | each stored digest is replaced by at most one rotation, and each rotation replaces at most one |
| `TokenRotation.OnlyWinnersReturn` | admin/models/user_auth_token.go:171-181 | a secret is returned only by the rotation whose swap stored its digest |
| `TokenRotation.OneSecretAtATime` | admin/models/user.go:317-346 | at most one secret verifies against a row |
| `TokenRotation.LastSecretVerifies` | admin/models/user.go:317-346 | and that is the one of the last stored rotation, or one issued before any |
| `TokenRotation.ReplacedSecretsFail` | admin/models/user.go:317-346 | a replaced secret never verifies again |
| `TokenRotation.RevokedForGood` | admin/apis/user_auth_token.go:98-120 | after a revocation no rotation succeeds, the row never changes and no secret verifies |
| `TokenRotation.RevocationEndsAll` | admin/apis/user_auth_token.go:98-120 | over every run in which the owner revokes: no secret is accepted afterwards and no rotation returns one that had not before the revocation |
| `TokenRotation.OwnerStays` | admin/apis/user_auth_token.go:98-120 | the owner never changes, and the row ends revoked exactly if it was or the owner revoked it in the run |
| `TokenRotation.ReturnedIsAccepted` | admin/models/user.go:317-346 | without a revocation the secret last returned is accepted until it expires and not after |
| `TokenRotation.RotationSucceeds` | admin/models/user_auth_token.go:126-197 | a rotation of a usable row by its owner that nothing disturbs returns a secret that is then accepted until it expires |
| `TokenRotation.ValidHashExactly` | admin/models/user_auth_token.go:62-77 | a valid hash is the prefix and 64 lower-case hexadecimal digits |
| `TokenRotation.Store.CompareAndSwapUserAuthTokenDigest` | admin/models/user_auth_token.go:183-197 | updates exactly an unrevoked row of the owner that still holds the old digest |
| `TokenRotation.Store.RotateUserAuthToken` | admin/models/user_auth_token.go:126-181 | whatever happens between read and swap, returns the secret exactly when the row was usable, still holds the digest that was read and the database reports no error; stores it exactly when the update went through; the exact condition of each refusal |
| `TokenRotation.Store.RevokeToken` | admin/apis/user_auth_token.go:106-113 | the row is revoked afterwards if it was or if it is the owner who asks, and no other field changes |
| `TokenRotation.Store.CheckToken` | admin/models/user.go:317-337 | accepts exactly the stored secret of an unexpired, unrevoked row |
| `LogScan.LinesAreWhole` | admin/apis/log.go:307-313 | splitting finds exactly the spans between line ends |
| `LogScan.TailLines` | admin/apis/log.go:307-313 | the lines of the end of a file, but for the first, are the last lines of the file |
| `LogScan.Scanner.Scan` | admin/apis/log.go:307-313 | returns the next line; a line that fills the buffer of 1 MiB ends the scan, and the call after that returns the full buffer |
| `LogScan.OpenScanner` | admin/apis/log.go:307-313 | after the skipping call exactly the lines of `Scanned` are still to come |
| `LogScan.ScannedWhole` | admin/apis/log.go:307-313 | every line the loop comes to is a whole line of the file if and only if neither the skipped line fills the buffer (unless it is a whole line of just that length) nor reading fails inside a line that the loop comes to |
| `LogScan.OnlyLastCut` | admin/apis/log.go:307-329 | and otherwise only the last of them is a fragment |
| `LogScan.LongLineIsCut` | admin/apis/log.go:307-313 | a file of one line of 17 MiB, of which 1 MiB is inspected as a line |
| `LogScan.ErrorCuts` | admin/apis/log.go:313-332 | a read error between two letters, after which the first is inspected as a line |
| `LogScan.StartAt` | admin/apis/log.go:279-290 | reads at most 16 MiB and what is left of the budget, from the start exactly if neither is short |
| `LogScan.ScanLines` | admin/apis/log.go:313-329 | calls Scan until it returns nothing, 100,000 lines were seen or 10,000 entries matched, and has then returned the matches of exactly the inspected lines |
| `LogScan.ScanFile` | admin/apis/log.go:279-334 | reports truncation exactly when the file could not be scanned completely |
| `LogScan.HitsExactly` | admin/apis/log.go:313-329 | the matches are those of the matching lines, each once, in the order of the lines |
| `LogScan.ReadLogs` | admin/apis/log.go:265-345 | at most 64 MiB, 100,000 lines and 10,000 entries; truncated if and only if the inventory was cut or some file not scanned completely; otherwise the entries are exactly the multiset of all matching lines; every entry is that of a whole line, or of the one fragment of a part as in `LogScan.ScannedWhole`, and if no part is fragmented of a whole line; in the order of the comparator, ties as they were found, if it is a strict weak order |
| `LogScan.CollectRuntimeLogFiles` | admin/apis/log.go:221-263 | of the regular log files the newest 32, and whether others were cut off |
| `LogScan.LogFilesExactly` | admin/apis/log.go:236-252 | the log files are the entries that are regular files with a log name, neither directory nor link, each once |
| `LogScan.NewestFirst` | admin/apis/log.go:253-258 | a later file of the inventory is older, or as old with no greater name |
| `LogScan.ReadDirectory` | admin/apis/log.go:265-345 | truncated if and only if there are more than 32 log files or one was not scanned completely; otherwise all matching lines of all log files of the directory; in the order of the comparator, ties as they were found, if it is a strict weak order |
| `LogScan.Pagination` | admin/apis/log.go:193-201 | page and page size end up within their limits, or the request is refused exactly when one is too large |
| `LogScan.List` | admin/apis/log.go:108-121 | the page asked for and the total |
| `LogScan.PagesAreBeginning` | admin/apis/log.go:108-121 | consecutive pages form the beginning of the result |
| `LogScan.PagesPartition` | admin/apis/log.go:108-121 | with every page size the permitted pages together are exactly the whole result |
| `Coverages.MergeRow` | scripts/check-go-coverage.py:72-83 | one row goes into the blocks; refused exactly when it contradicts an earlier statement count |
| `Coverages.MergeRows` | scripts/check-go-coverage.py:53-83 | succeeds exactly on acceptable rows, and then has one block per location, covered exactly when some row of it was executed |
| `Coverages.MergeIgnoresOrder` | scripts/check-go-coverage.py:53-83 | merging is unchanged by permuting or repeating rows |
| `Coverages.SumBlocks` | scripts/check-go-coverage.py:85-98 | the total and the package sums over all blocks |
| `Coverages.ParseProfile` | scripts/check-go-coverage.py:44-99 | fails exactly on unacceptable rows and otherwise summarizes them |
| `Coverages.ProfileIgnoresOrder` | scripts/check-go-coverage.py:44-99 | the result is unchanged by permuting or repeating rows |
| `Coverages.TotalIsPackageSum` | scripts/check-go-coverage.py:85-98 | the total is the sum over the packages, and covered never exceeds statements |
| `Coverages.TotalCountsStatements` | scripts/check-go-coverage.py:53-98 | the total and every package count the statements of the locations given and of those that some row executed, and there is a package exactly for each location given |
| `Coverages.PackageExactly` | scripts/check-go-coverage.py:92-97 | a package is what stands before the last slash, or a dot |
| `Coverages.FileExactly` | scripts/check-go-coverage.py:59-60 | the file of a location is what stands before its first colon |
| `Coverages.RootExactly` | scripts/check-go-coverage.py:134-140 | the root of a subtree pattern is what stands before its last slashes |
| `Coverages.MatchingCoverage` | scripts/check-go-coverage.py:130-141 | an exact package or the sum over its `...` subtree |
| `Coverages.SubtreesApart` | scripts/check-go-coverage.py:134-140 | two subtrees share a package only if the root of one lies in the other |
| `Coverages.DisjointAtMostTotal` | scripts/check-go-coverage.py:130-141 | patterns that share no package never sum to more than the total |

## Left out

- Texts of errors that are not issues.
- Conditions.ValidateConditionValue: decoding the raw bytes of a value is a parameter, the decoded tree is what is checked.
- ProfileShape.ParseDocument: the decoders are parameters; the digest of the canonical form is not modelled.
- SoundCapability.KeyClean: the definition hash is a function of the capability, its computation is not modelled.
- Go's JSON lexer, its limit of 10,000 nested values and `json.Marshal`'s HTML escaping; `strconv.ParseFloat` is a parameter.
- RoundTrip.Canonicalize: bytes that are not valid UTF-8 are not modelled, text is a sequence of Unicode scalar values.
- Regular-expression compilation, Unicode normalisation, BCP 47 tags and time parsing.
- LanguageHandlers.ServeProfile: the limits and validation of stored rows count as a failed read, and the expiry of a snapshot is a step that may happen at any time.
- Generic-controller deletion of languages, whose order of commit and invalidation is not in these files.
- DatabaseLeases.Config.CloseRetired: waiting for the group is a precondition of the step instead of a blocking call, so the liveness of a retirement depends on operations that return.
- ConfigLifecycle.Config.InitContext: configuration loading and its validation (nothing has been opened yet when they fail), Pyroscope, cache, locker and cluster initialization, which own nothing that is rolled back.
- ConfigLifecycle.Config.CloseContext: the close of object storage, which is neither a gate for the database nor undone; its error is not part of the modelled one.
- ModuleRegistry.Registry.Add: a module that keeps its migration runner and changes it after registering; module names are taken as trimmed, descriptors and definitions as values (cloning is the identity), migrations as sets of ids and aliases.
- ModuleRegistry.Registry.Mount: a readiness check is a function of the entry's name, so a check that changes the registry is not modelled.
- PresentationRegistry.Registry.Register: cloning a definition through JSON is the identity and cannot fail.
- MenuTree.SortMenus: the order of equal `Sort` values is left open, as Go's `sort.Sort` leaves it; `CompleteName` is not modelled.
- ConfigRevisions.RunIsSerial: timestamps and soft deletion are not modelled, and an owner is compared exactly, not by collation.
- ConfigWrites.Store.LockRevision: a row of another scope, owner or resource counts as a failed statement.
- ConfigWrites.Store.SetConfig: rows of both scopes carry the `auth` flag, which user rows do not have.
- The per-key application configuration cache, which a racing reader may fill with an old public value until it expires.
- TokenRotation.Store.RotateUserAuthToken: how the signed token is made and the verifier's flags are restored; the token row is never deleted, and its legacy plain-text column, which a swap or a revocation clears, is not modelled.
- LogScan.ReadLogs: redaction, line parsing and the request filter are one function of the line; the order of the result is stated for comparators that are a strict weak order, for others it is some rearrangement of the matches.
- MenuTree.BuildTree: what it leaves on lists with repeated ids or with the root's id is not modelled, only when it ends.
- LogScan.ScannedWhole: a line is whole with respect to the size seen at inventory, so one that was being written at that moment counts as it stood.
- Coverages.ParseProfile: reading the file, the mode line and the splitting of a row into three fields; percentages and floors.
- HTTP handlers, routing, clients of other services, sessions, challenges and cryptography.
