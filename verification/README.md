# Bouncer Engine: a verified model of the policy store, its feed and its decisions

Bouncer Engine keeps ALLOW and DENY policies in two tables, each behind its own atomic pointer to an
immutable map. Writers copy a map, edit the copy and publish it by compare-and-swap, retrying when a
rival was faster; an upsert first evicts its id from the opposite table and then inserts into its own.
Readers load the allow table, then the deny table, and decide with deny-overrides. One subscriber feeds
the store from an append-only stream, which seeders fill with at-least-once retries.

The model is stacked the way the program is:

| file | what it models |
|---|---|
| `Lists.dfy` | lists against the sets of their values |
| `Policies.dfy` | policies and in-place pre-compilation of their patterns |
| `Operators.dfy` | the condition operators |
| `Engine.dfy` | deny-overrides evaluation of a snapshot |
| `Tables.dfy` | the two tables as values, one table step at a time; the one map they stand for |
| `Store.dfy` | the store's methods with their swap loops, against scripted rival commits |
| `Protocol.dfy` | any number of goroutines over shared pointers, one atomic access per step |
| `NoLostUpdates.dfy` | tables are the fold of their commits; every call's steps finish once, in order |
| `LockFree.dfy` | no ABA, every schedule ends, lost swaps are paid for by commits |
| `Attempts.dfy` | what a goroutine goes through in a run is what the store's swap loop goes through |
| `OneEntry.dfy` | one entry per id: exactly when; the tables refine one map |
| `Serial.dfy` | writers that keep apart are linearizable; half-done updates are fail-safe |
| `RealTime.dfy` | when calls begin and return; sequential orders that respect it |
| `Origins.dfy` | which call every entry and every gap comes from, in every state |
| `FailSafe.dfy` | every interleaving is fail-safe, whatever the writers do |
| `Linear.dfy` | overlapping writers: exactly when the store is linearizable |
| `Completion.dfy` | one writer among readers; counting fresh upserts |
| `Snapshots.dfy` | torn reads: when they are justified; the error of `Count` |
| `Subscriber.dfy` | stream entries, validation, the replay loop |
| `StreamMeaning.dfy` | what a log means: last writer wins, replay, end-to-end decision, stored patterns |
| `Seeder.dfy` | publication with retries and capped backoff |

A run of the protocol is a state and a schedule (the goroutines in the order they take steps), so "every
run" and "every interleaving" are quantifiers over schedules. A pointer is an index into the list of all
maps ever built. Library calls (JSON, regular expressions, addresses, integers) are arbitrary functions
in the record `Library`. Lemmas on which Dafny would start an induction of its own switch it off: every
induction is written out.

## Where the code and its words differ

The model follows the code. Four statements in the repository are narrower or wider than what it does:

- `internal/store/store.go:12-15` calls a snapshot an immutable view "at the instant it was captured". The
  two loads make it a mix of two instants. `TornReadJustified` shows when the mix decides like one of
  them. `TwoIdsUnjustified` is a run in which the mix allows although no instant does.
  `TornReadExactInRun` says exactly when, in any run, every allow of the mix is an allow of some instant
  between the loads, for requests that match policies by target and conditions, as the engine does. Call
  safe the conditions of the last instant's deny policies and, again and again, those of the allow
  policies of any instant whose deny policies all have safe conditions: the allow policies seen must all
  have safe conditions. Which sets of conditions a request meets together is left open, so the condition
  is exact for requests that may meet any of them and sufficient for all (`SafeRequests`).
- `README.md:43` says CONTAINS_ALL tells inclusion. The length shortcut breaks this for conditions that
  repeat a value, and only for those (`ContainsAllExact`).
- `README.md:44` says CONTAINS_ANY tells a shared value. An empty condition is always met
  (`ContainsAnyExact`).
- `README.md:33` gives a policy one id. An UPSERT is filed under the id inside the document, a DELETE under
  the entry's `policy_id` field; `DeleteUndoesUpsert` says when the one undoes the other.

The comment at `internal/store/store.go:83-88` names the exception to "one id, one entry".
`SingleEntryExact` turns it into an equivalence on what the goroutines are asked to do: the invariant holds
in all runs exactly when no two goroutines are asked to upsert one id into different tables. The comment's
other claim, that decisions stay fail-safe in every interleaving, is `EveryInterleavingFailSafe`: what any
state allows is allowed by the calls run one at a time, none before a call that had returned when it began,
so neither a goroutine's own calls nor any two that did not overlap change places. The same scripts decide
whether overlapping writers are linearizable (`LinearizableScripts`).

## Model

| member | source | states |
|---|---|---|
| Policies.Compile | internal/store/policy.go:44-58 | fails exactly when the library refuses the pattern of some REGEX condition with a value, naming the first such pattern; on success each such condition gets its compiled pattern and nothing else changes; on failure the conditions before the first refused one are compiled and the rest untouched |
| Operators.EvalEquals | internal/engine/operators.go:59-80 | true exactly when the two lists are equal as multisets |
| Operators.EvalContainsAll | internal/engine/operators.go:83-109 | true exactly when the condition is no longer than the request list and all its values occur there |
| Operators.EvalContainsAny | internal/engine/operators.go:112-137 | true exactly when the condition is empty or shares a value |
| Operators.EvalInCidr | internal/engine/operators.go:142-168 | true exactly when the single request value is an address inside some well-formed prefix; malformed prefixes are skipped |
| Operators.EvalBetween | internal/engine/operators.go:171-197 | true exactly when three integers parse and the request's lies within the bounds |
| Operators.EvalRegex | internal/engine/operators.go:200-213 | true exactly when a pattern is stored and some value matches it |
| Operators.Cut | internal/engine/operators.go:14-17 | splits at the first dot, fails exactly without one |
| Operators.EvaluateCondition | internal/engine/operators.go:12-54 | for an attribute "principal.k", "resource.k" or "environment.k": true exactly when that map of the request has k and the operator's relation, spelled out for each operator, holds; false for any other attribute or operator |
| Operators.ContainsAllExact | internal/engine/operators.go:83-109 | CONTAINS_ALL is set inclusion on every request exactly when the condition repeats no value |
| Operators.ContainsAnyExact | internal/engine/operators.go:112-137 | CONTAINS_ANY is "shares a value" on every request exactly when the condition is not empty |
| Operators.ContainsAllMonotone | internal/engine/operators.go:83-109 | adding request values never turns CONTAINS_ALL false |
| Operators.OperatorLattice | internal/engine/operators.go:59-137 | EQUALS implies CONTAINS_ALL implies CONTAINS_ANY for all lists |
| Operators.MutualContainment | internal/engine/operators.go:59-109 | when either list has no repeats, CONTAINS_ALL both ways is EQUALS |
| Engine.FirstMatch | internal/engine/engine.go:90-110 | the policy found has the request's target, all its conditions hold and no policy before it is like that; without one, none is |
| Engine.CheckAccess | internal/engine/engine.go:47-85 | provider errors are passed on; otherwise the first deny policy that applies, else the first allow policy, else denial by default, with id and reason |
| Engine.OrderIndependent | internal/engine/engine.go:56-110 | for every order the maps yield their policies in, decision and reason are the deny-overrides verdict on the tables |
| Engine.ReportedIds | internal/engine/engine.go:56-110 | over all orders, the ids that can be reported are exactly those of the deciding table's matching policies |
| Engine.AllowMonotone | internal/engine/engine.go:56-75 | an allow survives more allow entries and fewer deny entries |
| Tables.TwoTablesRefineOneMap | internal/store/store.go:70-119 | any operations leave the tables equal to one last-writer-wins map split by access mode |
| Tables.LastWriterWins | internal/store/store.go:70-119 | the last operation on an id decides both its entries whatever the tables held |
| Tables.Overwritten | internal/store/store.go:70-119 | operations whose ids are all named again later leave no trace |
| Store.PolicyStore.CompareAndSwap | internal/store/store.go:109 | publishes exactly when the cell still holds the loaded pointer; the other cell never moves |
| Store.PolicyStore.UpsertInto | internal/store/store.go:100-113 | attempt after attempt, exactly the rivals up to the first swap that meets none on its table, then its own single commit; retries only after losing to a commit on the same table |
| Store.PolicyStore.RemoveFrom | internal/store/store.go:122-142 | attempt after attempt, exactly the rivals up to the first load that misses the id or swap that meets none, followed by the removal |
| Store.PolicyStore.UpsertPolicy | internal/store/store.go:70-97 | eviction from the opposite table, then insertion, no rival commit lost; alone, exactly "ALLOW" ends in the allow table and every other mode in the deny table, the id in no other |
| Store.PolicyStore.DeletePolicy | internal/store/store.go:116-119 | removal from allow, then deny, no rival commit lost; alone, the id is gone from both tables and nothing else has changed |
| Store.PolicyStore.ListActivePolicies | internal/store/store.go:50-68 | some order of the first load's allow table with some order of the second load's deny table: each policy there, none else, as many as entries |
| Store.PolicyStore.CountPolicies | internal/store/store.go:45-47 | allow size at the first load plus deny size at the second |
| NoLostUpdates.TablesAreTheirCommits | internal/store/store.go:100-142 | in every state of every run the tables are the fold of the commits in swap order, every insertion committed, skipped removals change nothing, and built maps never change |
| NoLostUpdates.ProgramOrder | internal/store/store.go:89-142 | what a goroutine has finished followed by what it has left is always its whole program: each table step at most once and in order |
| NoLostUpdates.AllScriptsLand | internal/store/store.go:89-142 | when all have returned, the tables are a shuffle of all table steps, each exactly once |
| Attempts.LoopsAreProjections | internal/store/store.go:100-142 | every table step a goroutine takes in any run is the store's loop on the rounds read off that run: one round per attempt, all but the last lost, rivals exactly the commits the others made, and the tables of the run at the end |
| Attempts.CallAsInRun | internal/store/store.go:89-119 | the store's own upsert and delete, called among the rivals of a run, leave exactly the tables of the run |
| LockFree.SwapSeesEveryRival | internal/store/store.go:100-142 | a swap succeeds exactly when nobody committed to the table since the load (no ABA) |
| LockFree.EveryScheduleEnds | internal/store/store.go:100-142 | a measure drops with every step of every schedule; a run that cannot go on has finished every call |
| LockFree.StepBound | internal/store/store.go:100-142 | n goroutines with c calls take at most c*(6n+3) steps under any schedule |
| LockFree.FailedSwapBound | internal/store/store.go:100-142 | with w goroutines asked to write, the swaps lost on a table, counted over the run's steps, are at most w-1 times those that succeed on it, in every run; none with one writer or none |
| LockFree.SwapsCounted | internal/store/store.go:109-139 | the recorded lost swaps and commits are exactly the failing and succeeding swaps among the run's steps |
| OneEntry.SingleEntryKept | internal/store/store.go:75-97 | with no two opposed upserts past their evictions at once, every state has at most one entry per id |
| OneEntry.TablesRefineOneMap | internal/store/store.go:75-97 | under the same premise the concurrent tables are one map split by access mode, driven by the commits in swap order |
| OneEntry.SingleEntryExact | internal/store/store.go:75-97 | one entry per id in every state of every run if and only if no two goroutines' scripts upsert one id into different tables |
| OneEntry.SingleEntryClash | internal/store/store.go:75-97 | the same, if and only if no run has two opposed upserts of one id past their evictions at once |
| OneEntry.OverlapPremise | internal/store/store.go:83-88 | the comment's premise, run by run: as long as overlapping upserts of an id have agreed on the mode there is one entry per id |
| OneEntry.AgreeingWriters | internal/store/store.go:83-97 | scripts in which no two goroutines upsert one id into different tables keep one entry per id and one map |
| OneEntry.OpposedUpsertsDouble | internal/store/store.go:83-88 | for any two opposed policies a schedule that leaves both entries, and the exact decision of that store: what it allows, the order ending in ALLOW allows |
| Serial.ApartIsSequential | internal/store/store.go:70-142 | writers never on one id at once: whenever none is in flight, the tables are the finished calls run one at a time in return order |
| RealTime.RecordFaithful | internal/store/store.go:70-142 | the record kept beside a run lists the calls in order of return; what each goroutine returned from and has left is its script in order; each of its calls began after its earlier ones returned |
| RealTime.CallTimes | internal/store/store.go:70-142 | a call stands on record with the number of calls returned when it began and when it returned in the run, so "had returned when it began" is meant literally |
| RealTime.Serialise | internal/store/store.go:70-119 | calls with a final call chosen for each id can be run one at a time in an order respecting real time so that every id ends as its chosen call leaves it |
| Origins.AlwaysAccounted | internal/store/store.go:89-142 | in every state each entry or absence is what a returned call left that no later call followed, or the initial one, or in flight cleared; an id in neither table was deleted unless a call on it is halfway |
| FailSafe.EveryInterleavingFailSafe | internal/store/store.go:75-88 | under any writers, what a state allows is allowed by a sequential order of the returned calls and some of the calls in flight, each applied wholly and once, none before a call that had returned when it began |
| Linear.LastCallStands | internal/store/store.go:70-142 | while a call was the last on its id and overlapped no other on it, both tables hold under that id what it leaves, whatever happens on other ids |
| Linear.LinearizableExact | internal/store/store.go:70-142 | whenever no call is in flight, under any writers: the tables are those of a sequential order of the returned calls that respects real time if and only if no id has two entries |
| Linear.LinearizableScripts | internal/store/store.go:83-97 | that holds at every such state of every run if and only if no two goroutines' scripts upsert one id into different tables |
| Serial.HalfDoneFailSafe | internal/store/store.go:75-97 | with calls in flight on distinct ids, what a mid-update state allows is allowed by the returned calls in return order followed by some of those in flight |
| Serial.OwnIdsRun | internal/store/store.go:86-88 | one writer per id keeps calls apart under every schedule |
| Completion.SoleWriterRefines | internal/store/store.go:70-142 | one writer among readers: calls return in order and the end state is the sequential one, under every schedule |
| Completion.WritesConserved | internal/store/store.go:89-142 | returned and outstanding writes always add up to the same |
| Completion.FreshUpsertsCounted | internal/store/store.go:70-142 | upserts of distinct new ids raise the count by exactly one per returned call, in every state of every interleaving |
| Snapshots.ReaderObserves | internal/store/store.go:50-68 | a reader gets the allow table of its first load and the deny table of its second, whatever others do |
| Snapshots.TornReadJustified | internal/store/store.go:50-68 | if all commits between the loads are on one id and ids are single at the first, the decision is that of one of the two instants |
| Snapshots.TornReadExact | internal/store/store.go:50-68 | for any sequence of instants: every allow of first allow table with last deny table is an allow of some instant, for every target and whatever conditions a request meets, if and only if the first allow policies have safe conditions |
| Snapshots.SafeRequests | internal/engine/engine.go:47-110 | if that holds for a request's target, what the engine allows it on the mixed snapshot, in any map order, some instant allows |
| Snapshots.TornReadExactInRun | internal/store/store.go:50-68 | the same equivalence for the snapshot a reader returns in any run, over the states between its loads |
| Snapshots.RunRouted | internal/store/store.go:70-97 | no run puts a policy into the wrong table |
| Snapshots.TwoIdsUnjustified | internal/store/store.go:12-68 | a run with deletions of two ids between the loads: the reader's snapshot allows although no state of the run does |
| Snapshots.CountError | internal/store/store.go:40-47 | the error of Count is at most the number of allow-table commits between its loads |
| Snapshots.CountIsIds | internal/store/store.go:40-47 | entries equal distinct ids exactly when no id has two entries |
| Subscriber.PolicyUpdateSubscriber.ProcessMessageEntry | internal/subscriber/redis.go:91-166 | an acceptable upsert puts its document, equal in every field but the compiled patterns, into the table of its mode only; a delete removes its id from both tables; other ids stay; each listed reason to reject leaves both tables alone |
| Subscriber.ConsumeMeans | internal/subscriber/redis.go:91-166 | the fold the other laws speak of does to the tables exactly that, entry by entry |
| Subscriber.PolicyUpdateSubscriber.Start | internal/subscriber/redis.go:27-74 | under any mix of publishing, timeouts, errors and reads, and cancelled at any point, the store is the fold of exactly the entries up to the last id, with one entry delivered per effective read |
| Subscriber.CatchesUp | internal/subscriber/redis.go:35-73 | once publishing stops, each further read delivers one entry until all are delivered |
| Subscriber.OnlyPollsDeliver | internal/subscriber/redis.go:41-73 | timeouts, errors and publishing deliver nothing, and a read at most one entry |
| StreamMeaning.StreamIsOneMap | internal/subscriber/redis.go:91-166 | a cold start leaves one last-writer-wins map split by access mode |
| StreamMeaning.ReplayConverges | internal/subscriber/redis.go:32-72 | re-applying entries i..k over a store that holds the first k changes nothing, whatever it held at first |
| StreamMeaning.RestartCatchesUp | internal/subscriber/redis.go:32-72 | a restart that has caught up on a log grown since is a cold start |
| StreamMeaning.StartTwice | internal/subscriber/redis.go:27-74 | two runs of the subscriber on one store: once the second has got as far as the first, the store is the fold of what the second consumed |
| StreamMeaning.EndToEnd | internal/engine/engine.go:47-85 | a request is allowed exactly when some id's last accepted entry is a matching ALLOW and none is a matching DENY, for every map order |
| StreamMeaning.DeleteUndoesUpsert | internal/subscriber/redis.go:141-156 | a delete removes what an upsert left exactly when its `policy_id` is the document's id |
| StreamMeaning.ReplayUnderReaders | internal/subscriber/redis.go:27-74 | with readers interleaved arbitrarily the store ends as the fold of the log, and at every instant allows only what the operations returned from, or these and the next, allow |
| StreamMeaning.ReaderGranted | internal/engine/engine.go:47-85 | subscriber, store, readers and engine together: what is allowed on a snapshot between whose loads all commits were on one id, or whose allow policies have safe conditions, is granted by a prefix of the log no older than the first load and at most one accepted entry past the second |
| StreamMeaning.StoredAreAccepted | internal/subscriber/redis.go:116-141 | stored policies sit under their own id in the table of their exact mode with every pattern compiled |
| StreamMeaning.StoredPatternsAgree | internal/engine/operators.go:200-213 | deciding with stored patterns is deciding with patterns compiled at evaluation time |
| Seeder.Publish | internal/subscriber/publish.go:32-45 | appends one entry whose fields are action, policy_id and, unless empty, policy_json with the texts given and no others, unless refused; fails exactly when not acknowledged, which may be after the entry was stored |
| Seeder.SeedPolicies | examples/httpbin/pep/main.go:128-160 | the stream gains a prefix of the files per failed attempt and ends with an upsert of every file in order; the waits start at 500 ms and double up to 5000 |
| Seeder.SeedingConverges | examples/httpbin/pep/main.go:135-159 | after any failed attempts the consumed store is that of one clean pass, from any earlier state |
| Seeder.CleanPassHolds | internal/subscriber/redis.go:108-141 | after a clean pass the store has the last good document of each id, whole, in the table of its mode and only there, whatever it held before |
| Seeder.SeedThenFollow | examples/httpbin/pep/main.go:128-160 | the same after any failed attempts, for the seeder and the subscriber run one after the other on one stream and store |

## Left out

- Full linearizability of reads that overlap updates of several ids: the code does not provide it, see `TwoIdsUnjustified`.
- Which of the orders that respect real time overlapping calls took effect in: `Serial` gives the order of return for calls that keep apart; for the others `LinearizableExact` and `EveryInterleavingFailSafe` give some such order.
- Snapshots.TornReadExact: a request may meet the conditions of any choice of policies of its target, as if these could always be told apart; which choices the operators rule out is not modelled.
- Stream ids are natural numbers in append order and the stream is not trimmed; how long reads block and waits last is not modelled.
- Seeder.SeedPolicies: sleeping is reported, not performed; reading, filtering and sorting the policy files is left out.
- `regexp`, `netip`, `strconv` and `encoding/json` internals: arbitrary deterministic functions; a compiled pattern is its source text.
- Evaluation time, logging and the wording of reasons beyond their three kinds.
- The gRPC server, audit log, metrics, Envoy and JWT adapters, load tests and generated code: plumbing around the modelled core.
- Capacity hints, garbage collection and the memory model below atomic Load and CompareAndSwap.
