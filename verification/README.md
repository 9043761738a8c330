# Phantom, modelled in Dafny

A model of the parts of Phantom, a Matrix homeserver with a terminal console, whose behaviour is hardest to see from reading
one function, with proofs of what those parts promise. Each module models one component. Code that updates state in place is
modelled by classes and methods with loops, each proved against a specification; what the component is for is then proved about
that specification, over every input, every run or every interleaving.

`dafny verify dfyconfig.toml` verifies the whole project.

## Components and main results

- **RateLimit**: the keyed token-bucket limiter, its bounded table, sweep and eviction. Over any run on any keys the admissions
  of a key are bounded by burst plus rate times time, plus one burst for each drop of its unfilled bucket (`AdmissionBound`).
  Every run over a set of keys meets the bound without that allowance, and cannot be told from one on an unbounded table, exactly
  when the table has room for all the keys (`PlainBoundIff`, `InvisibleIff`).
- **TopologicalSort**, **AuthGraph**: state resolution's power sort. The heap-driven sort yields the one greedy topological
  order, the least there is (`Sort`, `SortedIsUnique`, `SortedIsLeast`), over exactly the auth graph it should (`BuildGraph`,
  `PowerSort`). The post-order walk for the conflicted subgraph finds exactly the events on an auth path between two conflicted
  ones (`ConflictedSubgraph`).
- **StateCompressor**, **StateDiffCodec**: room states stored as chains of differences. However layers are folded and whatever
  the cache drops, a hash stands for exactly the state it was saved for, for good, in at most four layers (`SaveState`,
  `AppendToState`, `Load`). The stored form reads back exactly under a stated condition (`RoundTrip`).
- **OidcCompletion**, **OidcRefusal**, **OidcProgress**, **OidcAlone**: the completion of an OIDC sign-in as handlers interleaving
  over two stores of single-use credentials, locks included. No request and no token yields two codes, and whoever takes one
  without releasing a code excludes it for good (`CodesAreOneShot`, `RefusalExcludesTheCode`, `FailedTakeKeepsTheToken`); a
  refusal burns both (`RefusalBurnsBoth`); no interleaving deadlocks (`NoDeadlock`, `EveryHandlerCanFinish`). A handler run alone,
  from any state a run can reach, is the plain sequential one (`AloneIsSequential`), and it is exactly known when it mints
  (`MintsIffReady`).
- **TwoPhaseCounter**: numbers drawn, written out of order and retired. The frontier is always the newest number below which
  nothing is in flight, and never moves back (`FrontierIsExact`, `FrontierNeverMovesBack`).
- **Images**, **MedianCut**, **GifDelta**: the recorder's GIF writer. Replaying the written rectangles shows every frame's
  quantisation, exactly at 256 colours or fewer, and the delays add up (`WriteGif`). The palette is the outcome of a whole median
  cut, whose boxes stay a partition through every in-place sort and split (`Cut`, `PaletteOf`).
- **Events**, **Chat**, **Relations**, **RoomStore**: the console's rooms. The one-pass index of edits, reactions, replies and
  redactions agrees with a per-event definition (`BuildIndex`), what the chat shows is what the events' own fields say it should
  (`Messages`, against `Chat`), and in no timeline the store leaves can it be seen where the redactions stand
  (`StoredRedactionsMayStandAnywhere`). After every run of syncs, sends and failures, timelines, state and pending messages are
  what the run implies (`TimelineIsNewestIff`, `StateIsTheLastGiven`, `PendingIsOutstanding`).
- **LogFollow**, **AuditPaging**, **AuditReading**: views fed by answers that overlap, repeat and arrive late. It is exactly
  known when the audit view has a hole, in every run (`NoHoleIff`), and it never has one while IDs rise (`AlwaysGapless`); paging
  on shows exactly the newest records, and in the end all (`PagesShowTheNewest`, `ReadingReachesTheEnd`). Likewise for the log
  view, over every run: when it is the newest lines as they stood at some moment (`AlwaysAMomentIff`), when it never moves back
  (`NeverGoesBackIff`), and, of runs that take answers in order, when that moment is the last answer's (`NewestInOrderIff`).
- **SortedIntersection**, **DomainNames**, **HtmlEscape**, **SettingsTable**: fast forms that equal simple ones, comparisons
  stated label by label, and round trips.

## Where the code parts from what is said of it

The model follows the code. Each point has a lemma that shows it on an input or a run, and one that says exactly when the promise
is kept.

- The limiter's plain bound, and its likeness to a table that never drops a bucket, fail once there are more keys than the cap
  (`RateLimit.DropsBreakThePlainBound`; `RateLimit.PlainBoundIff`, `RateLimit.InvisibleIff`).
- `diff` is described as the smallest rectangle holding every differing pixel. A change left of x = 0 is not seen
  (`GifDelta.LeftOfZeroIsMissed`), and the lower side stays at y = 0 when every change lies above y = -1
  (`GifDelta.LowerSideIsLoose`); `GifDelta.Diff` states both conditions.
- A difference that adds an entry for slot zero, or whose parent is hash zero, does not read back as stored
  (`StateDiffCodec.SlotZeroIsLost`; `StateDiffCodec.RoundTrip`). Slots and hashes are drawn from a counter whose first number is
  above zero, so this does not arise in service.
- A released sequence number may lag behind the frontier (`TwoPhaseCounter.ReleaseLags`; `TwoPhaseCounter.ReleaseMayLag`).
- An event that was dropped off a full timeline and is delivered again is taken for a new one (`RoomStore.DroppedEventReturns`;
  `RoomStore.TimelineIsNewestIff`).
- The server answers a poll with the oldest lines after its place, so a view is not the newest 500 lines when more than 500 were
  logged since (`LogFollow.FarBehindIsNotUpToDate`; `LogFollow.NewestInOrderIff`). `MergeLogs` compares only the newest line of
  an answer with the newest held, so a late answer passes for a restart, takes the view back and may leave a hole
  (`LogFollow.LateAnswerLeavesAHole`; `LogFollow.NeverGoesBackIff`, `LogFollow.AlwaysAMomentIff`).
- Where a redaction stands would show if it shared its ID with another event and were itself marked redacted
  (`Relations.SharedIdTells`); the store keeps each ID once (`Relations.RedactionOrderIsInvisible`,
  `Relations.StoredRedactionsMayStandAnywhere`).
- Audit IDs sort by millisecond and then at random, so a record may land among records already served, or in a page still on its
  way, and be missing from the view (`AuditPaging.LateRecordIsMissed`; `AuditPaging.NoHoleIff`).
- A settings name that holds the separator, or ends as if to begin it, does not read back (`SettingsTable.SeparatorInNameIsCut`;
  `SettingsTable.ReadsBackIff`); names are identifiers, so none does.

## Choices

- Tokens and times of the limiter are `real`, and what time earns is a linear function of it; the wait's rounding up to whole
  milliseconds is kept.
- Hash maps are Dafny maps and sets walked in an arbitrary order, so every result holds for every iteration order. Which of two
  buckets debited at the same instant is evicted is left open.
- `sort.Slice` is some sort that permutes the box and orders it by the channel; `Palette.Index` is any function that returns an
  exact match when there is one.
- Auth events form no cycle, which the lemmas take as a depth function; event IDs are hashes of what they refer to.
- A state stands for its SHA-256, and random IDs do not repeat.
- Event contents are already decoded; a content that cannot be decoded is `None`. How a membership, name or topic change is
  worded is a function parameter.
- Strings are sequences of characters; in DomainNames a character stands for one byte.
- Log lines are numbered in order from a first number of at least one; a place of zero stands for none, and so does an audit
  cursor of zero.

## Model

| member | source | states |
|---|---|---|
| `RateLimit.Ratelimiter.constructor` | crates/phantom-service/src/ratelimit.rs:23-23 | a new table holds no bucket |
| `RateLimit.Ratelimiter.CheckAt` | crates/phantom-service/src/ratelimit.rs:76-105 | the whole new table and the answer: an unseen key opens with a full burst, a full table makes room first, and a refusal leaves the bucket as it was |
| `RateLimit.Ratelimiter.Evict` | crates/phantom-service/src/ratelimit.rs:131-162 | exactly the buckets still below their ceiling survive; if that frees nothing, one with the least recent debit goes too, whichever the map yields on a tie |
| `RateLimit.Ratelimiter.Refund` | crates/phantom-service/src/ratelimit.rs:110-122 | one token back, never above the burst; an absent key stays absent |
| `RateLimit.EnabledIsSteady` | crates/phantom-service/src/ratelimit.rs:34-53 | a positive rate and burst make earning additive, monotone and zero at zero, which is all the run lemmas use |
| `RateLimit.RefillComposes` | crates/phantom-service/src/ratelimit.rs:180-185 | refilling up to one moment and then to a later one is refilling straight to the later one |
| `RateLimit.StepAvailable` | crates/phantom-service/src/ratelimit.rs:76-122 | a step leaves a key no more to spend than it had less what the step spent; only dropping its bucket gives it more, a full burst |
| `RateLimit.RunStaysValid` | crates/phantom-service/src/ratelimit.rs:76-185 | on every run, every bucket's level lies between zero and the burst and its clock is never ahead |
| `RateLimit.SpendingIsPaidFor` | crates/phantom-service/src/ratelimit.rs:76-185 | conservation over every run: what a key spent net of refunds, plus what it may still spend, is at most one burst, what time earned, and what drops gave away |
| `RateLimit.AdmissionBound` | crates/phantom-service/src/ratelimit.rs:76-185 | over any interleaving on any keys, admissions net of refunds are at most burst + rate x elapsed, plus one burst for each time the key's bucket was dropped below its ceiling |
| `RateLimit.SweepIsInvisible` | crates/phantom-service/src/ratelimit.rs:92-162 | on every run that drops no bucket below its ceiling, the capped and swept table answers every check as a table that never drops anything |
| `RateLimit.FewKeysNeverDrop` | crates/phantom-service/src/ratelimit.rs:92-104 | a run whose keys all fit the table drops nothing below its ceiling |
| `RateLimit.DropsBreakThePlainBound` | crates/phantom-service/src/ratelimit.rs:92-162 | for any cap, rate and burst of at least one, and any set of more keys than the cap, a run over them that exceeds the bound without that allowance and answers what an unbounded table would not: a key spends what it can, the others displace its bucket, and it comes back |
| `RateLimit.PlainBoundIff` | crates/phantom-service/src/ratelimit.rs:76-185 | every run over some keys meets the plain bound burst + rate x elapsed if and only if the table has room for all of them |
| `RateLimit.InvisibleIff` | crates/phantom-service/src/ratelimit.rs:92-162 | every run over some keys is answered as by a table that never drops anything if and only if the table has room for all of them |
| `RateLimit.RunStaysWithinCap` | crates/phantom-service/src/ratelimit.rs:92-104 | from a table within its positive cap every run stays within it |
| `RateLimit.NewKeysDisplaceOnlyTheOldest` | crates/phantom-service/src/ratelimit.rs:88-162 | a key with no bucket is admitted once a burst buys one request; when a bucket is dropped below its ceiling, the table was full, every bucket in it was below its ceiling, and the one dropped had the least recent debit |
| `RateLimit.NewKeysMakeRoom` | crates/phantom-service/src/ratelimit.rs:92-162 | on every run, what a new key costs the others: nothing while there is room; in a full table every bucket at its ceiling and no other; with none at its ceiling just one, with the least recent debit; and the rest are untouched |
| `RateLimit.RetryAfterIsExact` | crates/phantom-service/src/ratelimit.rs:165-211 | waiting the time a refusal gives is enough exactly when a burst buys one request, and coming back a full millisecond early is refused |
| `RateLimit.RefundUndoesCheck` | crates/phantom-service/src/ratelimit.rs:110-177 | a check and its refund at the same moment leave what the key may spend unchanged at every later time |
| `TopologicalSort.Sort` | crates/phantom-core/src/matrix/state_res/sort.rs:110-163 | the order produced is topological and greedy (at each place the first event, by rank, of those whose edges are all placed) and places every event it can; when it fails, the event named became ready and has no rank |
| `TopologicalSort.Invert` | crates/phantom-core/src/matrix/state_res/sort.rs:114-134 | the reverse graph holds exactly the reversed edges, and the heap starts with exactly the events without edges |
| `TopologicalSort.PopFirst` | crates/phantom-core/src/matrix/state_res/sort.rs:86-98 | what leaves the heap has the highest power of it, of those the earliest time, of those the smallest ID |
| `TopologicalSort.RankDecides` | crates/phantom-core/src/matrix/state_res/sort.rs:86-163 | wherever an event stands that could have stood earlier, the one there has the higher power, or the same and an earlier time, or both the same and a smaller ID |
| `TopologicalSort.Release` | crates/phantom-core/src/matrix/state_res/sort.rs:140-157 | every dependant's outstanding edges lose the placed event, and those left with none join the heap |
| `TopologicalSort.PlaceNext` | crates/phantom-core/src/matrix/state_res/sort.rs:137-160 | one turn of the loop keeps the order, the heap and the outstanding edges in step |
| `TopologicalSort.SortedIsUnique` | crates/phantom-core/src/matrix/state_res/sort.rs:68-163 | a graph and its ranks have one such order, so hash iteration order cannot show |
| `TopologicalSort.SortedIsMaximal` | crates/phantom-core/src/matrix/state_res/sort.rs:68-163 | no topological order places an event this one leaves out |
| `TopologicalSort.SortedIsLeast` | crates/phantom-core/src/matrix/state_res/sort.rs:68-163 | where any other topological order first differs, this one has the event that ranks first: it is the least in the lexicographic order the name promises |
| `TopologicalSort.MissingRankHasNoAnswer` | crates/phantom-core/src/matrix/state_res/sort.rs:119-156 | when the sort fails for want of a rank no complete order exists for those ranks |
| `TopologicalSort.GroundedIsPlacedWhole` | crates/phantom-core/src/matrix/state_res/sort.rs:68-163 | on an acyclic graph closed under its edges every event is placed |
| `TopologicalSort.Distinct` | crates/phantom-core/src/matrix/state_res/sort.rs:136-162 | no event is placed twice |
| `AuthGraph.ConflictedSubgraph` | crates/phantom-core/src/matrix/state_res/mod.rs:206-261 | the result is exactly the events on an auth path between two conflicted events, ends included, although the code only computes which events reach a conflicted one |
| `AuthGraph.OnPathMeansBothWays` | crates/phantom-core/src/matrix/state_res/mod.rs:206-208 | lying on such a path is being reached from one conflicted event and reaching one |
| `AuthGraph.ReachesStep` | crates/phantom-core/src/matrix/state_res/mod.rs:224-236 | an event reaches a conflicted one exactly when it is conflicted or one of its auth events reaches one |
| `AuthGraph.Walk` | crates/phantom-core/src/matrix/state_res/mod.rs:222-255 | one turn of the post-order walk keeps every verdict right and every open event's children accounted for, and shrinks what is left |
| `AuthGraph.AddEvent` | crates/phantom-core/src/matrix/state_res/sort.rs:271-286 | an event gains exactly its auth edges into the difference, and the ones not yet known are pushed |
| `AuthGraph.AddChain` | crates/phantom-core/src/matrix/state_res/sort.rs:260-287 | from a whole graph, the walk leaves one that also holds everything the event leads to inside the difference |
| `AuthGraph.BuildGraph` | crates/phantom-core/src/matrix/state_res/sort.rs:24-27 | the graph holds exactly the given events and what they lead to inside the difference, each with exactly its auth edges into it |
| `AuthGraph.PowerSort` | crates/phantom-core/src/matrix/state_res/sort.rs:9-65 | the power sort succeeds exactly when every event of that graph has a rank, and then places each, after everything it leads to, in the one greedy order: an event stands before another it could have changed places with by power, then time, then ID |
| `AuthGraph.AuthComesFirst` | crates/phantom-core/src/matrix/state_res/sort.rs:9-65 | in the order produced an event comes after every event it leads to inside the difference, however long the path |
| `StateCompressor.Service.constructor` | crates/phantom-service/src/rooms/state_compressor/mod.rs:73-88 | an empty store is sound |
| `StateCompressor.Service.Load` | crates/phantom-service/src/rooms/state_compressor/mod.rs:130-192 | whatever the cache holds or drops, a stored hash loads as its whole chain of layers with the full state at each, and only a stored one loads |
| `StateCompressor.MergeIntoParent` | crates/phantom-service/src/rooms/state_compressor/mod.rs:455-476 | the two loops compute the merged difference |
| `StateCompressor.MergedMeansTheSame` | crates/phantom-service/src/rooms/state_compressor/mod.rs:455-476 | the merged difference applied below the parent gives what the difference gave on top of it, and stays exact (adds nothing present, removes nothing absent) |
| `StateCompressor.ChooseLayer` | crates/phantom-service/src/rooms/state_compressor/mod.rs:232-299 | whichever layers are folded, what is stored stands for the same state, on a chain of at most four layers; it is stored as it is against the top exactly when the chain has at most three and the square of its size is below twice the product of its sibling's and the top's |
| `StateCompressor.FoldKeepsMeaning` | crates/phantom-service/src/rooms/state_compressor/mod.rs:244-256 | folding the newest parent in loses nothing |
| `StateCompressor.Service.SaveFromDiff` | crates/phantom-service/src/rooms/state_compressor/mod.rs:232-299 | the new hash stands for the parent's state with the difference applied; every earlier hash keeps its state |
| `StateCompressor.Service.SaveState` | crates/phantom-service/src/rooms/state_compressor/mod.rs:303-369 | the hash returned stands for exactly the state given, new or shared with an equal one; the differences returned are those to the previous state; nothing stored before changes |
| `StateCompressor.Service.AppendToState` | crates/phantom-service/src/rooms/state/mod.rs:225-303 | the new state holds the event in its slot in place of what filled it, everything else as before, one event a slot; it fails exactly when the previous hash is not stored |
| `StateCompressor.StoreKeeps` | crates/phantom-service/src/rooms/state_compressor/mod.rs:420-453 | a new layer leaves the chain of every hash already stored unchanged |
| `StateDiffCodec.Decode` | crates/phantom-service/src/rooms/state_compressor/mod.rs:373-418 | the loop over the stored words reads what the format says |
| `StateDiffCodec.RoundTrip` | crates/phantom-service/src/rooms/state_compressor/mod.rs:373-453 | a stored difference reads back as it was if and only if its parent is not hash zero and none of the entries it adds fills slot zero |
| `StateDiffCodec.EncodedAt` | crates/phantom-service/src/rooms/state_compressor/mod.rs:420-453 | where each word stands: the parent, the entries added with the slot before the event, a zero if any are removed, and those |
| `StateDiffCodec.SlotZeroIsLost` | crates/phantom-service/src/rooms/state_compressor/mod.rs:400-404 | an added entry of slot zero is taken for the separator and everything added is lost |
| `OidcCompletion.AlwaysInv` | crates/phantom-api/src/oidc/complete.rs:58-131 | what every step of every interleaving keeps: who holds which lock, what each handler has read, and that requests and tokens only ever leave once |
| `OidcCompletion.AlwaysTidy` | crates/phantom-service/src/auth/oauth/server/auth.rs:189-213 | a lock is held by exactly one handler that is inside it, and a spent token was spent by a handler past that step |
| `OidcCompletion.CodesAreOneShot` | crates/phantom-api/src/oidc/complete.rs:216-270 | in every interleaving each code was minted by a handler that itself removed the pending request it names and spent the token, and was allowed to; no request and no token yields two codes |
| `OidcCompletion.RefusalExcludesTheCode` | crates/phantom-api/src/oidc/complete.rs:300-312 | once a refusal, or any handler that releases no code, has removed the request or spent the token, no later run mints that code |
| `OidcCompletion.FailedTakeKeepsTheToken` | crates/phantom-api/src/oidc/complete.rs:233-270 | a handler that means to release a code spends the token only after it removed the request itself |
| `OidcCompletion.OnlyApproveReleases` | crates/phantom-api/src/oidc/complete.rs:119-140 | in every interleaving, a code that a submitted form released was released by the one exact action |
| `OidcCompletion.OnlyWaivedSkipsTheForm` | crates/phantom-api/src/oidc/complete.rs:70-72 | in every interleaving, a code released without a form went to a redirect target for which the operator waives approval |
| `OidcAlone.AloneIsSequential` | crates/phantom-api/src/oidc/complete.rs:58-312 | from every state a run can reach, a handler that then runs alone leaves both stores and the codes as one piece of sequential code does, for every kind of handler, with locks held by others or not |
| `OidcAlone.MintsIffReady` | crates/phantom-api/src/oidc/complete.rs:216-270 | such a run mints exactly one code, for its request and its token's owner, if and only if the form approved or approval is waived, both credentials are stored and unexpired and both locks are free; otherwise none |
| `OidcAlone.ApprovalMints` | crates/phantom-api/src/oidc/complete.rs:216-270 | a run that mints: a request, a sign-in, and the form approved |
| `OidcAlone.FailureTakesNothing` | crates/phantom-api/src/oidc/complete.rs:233-256 | a handler that fails before it goes for the request's lock is done and has taken neither credential |
| `OidcRefusal.RefusalBurnsBoth` | crates/phantom-api/src/oidc/complete.rs:294-312 | a form with any other action, or none, that got past the rate limit burns both credentials: once it is done, and in every continuation, neither the request nor the token it named is stored, if they were handed out before it took the lock |
| `OidcCompletion.RunsContinue` | crates/phantom-service/src/auth/oauth/server/auth.rs:183-213 | removals and spendings are never undone by anything that follows |
| `OidcProgress.AdvancesIff` | crates/phantom-service/src/auth/oauth/server/auth.rs:183-213 | a handler's next step takes it on if and only if it is not done and does not wait for a lock that is held |
| `OidcProgress.NoDeadlock` | crates/phantom-service/src/auth/oauth/server/auth.rs:183-213 | in every interleaving, while a handler is not done, it can move on, or the one that holds the lock it waits for can |
| `OidcProgress.EveryHandlerCanFinish` | crates/phantom-service/src/auth/oauth/server/auth.rs:183-213 | from every state a run can reach, any handler can be brought to its end by running handlers alone |
| `TwoPhaseCounter.Counter.constructor` | crates/phantom-core/src/sync/two_phase_counter.rs:37-46 | a new counter is at its initial value with nothing in flight |
| `TwoPhaseCounter.Counter.Next` | crates/phantom-core/src/sync/two_phase_counter.rs:87-102 | draws the next number and samples the frontier; a failed commit changes nothing |
| `TwoPhaseCounter.Counter.Drop` | crates/phantom-core/src/sync/two_phase_counter.rs:104-162 | the binary search finds the number wherever it is in flight; a number not in flight changes nothing |
| `TwoPhaseCounter.FrontierIsExact` | crates/phantom-core/src/sync/two_phase_counter.rs:139-148 | after every run, whatever order writes end in, the frontier is the newest number with nothing in flight at or below it |
| `TwoPhaseCounter.FrontierNeverMovesBack` | crates/phantom-core/src/sync/two_phase_counter.rs:122-137 | over every continuation of every run the frontier does not retreat and no release is taken back |
| `TwoPhaseCounter.ReleasesRise` | crates/phantom-core/src/sync/two_phase_counter.rs:126-137 | released numbers strictly rise and never pass the frontier |
| `TwoPhaseCounter.ReleaseMayLag` | crates/phantom-core/src/sync/two_phase_counter.rs:126-134 | the number released is the new frontier if and only if none is in flight or the next one in flight follows directly |
| `TwoPhaseCounter.ReleaseLags` | crates/phantom-core/src/sync/two_phase_counter.rs:126-134 | a run in which the frontier is 2 and only 1 is released |
| `MedianCut.CountColours` | cli/cmd/phantom-media/gif.go:107-116 | each colour is counted with exactly the number of pixels, over all frames, that show it |
| `MedianCut.ListColours` | cli/cmd/phantom-media/gif.go:118-121 | every colour that occurs is listed once with its count |
| `MedianCut.Widest` | cli/cmd/phantom-media/gif.go:183-201 | the channel with the greatest spread, the first on a tie, and that spread |
| `MedianCut.SortRange` | cli/cmd/phantom-media/gif.go:149-149 | one box is sorted in place by the channel, its colours permuted, and everything outside it untouched |
| `MedianCut.FindCut` | cli/cmd/phantom-media/gif.go:151-162 | the cut is inside the box, at the first place where half the weight is passed, clamped so that both sides keep a colour |
| `MedianCut.FindBest` | cli/cmd/phantom-media/gif.go:134-143 | the box chosen is the first with the widest channel of those that can be split |
| `MedianCut.BestBox` | cli/cmd/phantom-media/gif.go:134-146 | while there are fewer boxes than colours there is such a box, so the loop's early exit is never taken |
| `MedianCut.SplitAt` | cli/cmd/phantom-media/gif.go:148-165 | the box is sorted by its widest channel and halved at its weighted median, every other colour left in place |
| `MedianCut.SplitBest` | cli/cmd/phantom-media/gif.go:132-166 | one turn is one such split, and keeps the boxes a partition of the colours into nonempty ranges |
| `MedianCut.Cut` | cli/cmd/phantom-media/gif.go:131-166 | the loop ends, after 255 splits of the best box in turn, with exactly 256 nonempty boxes that partition a permutation of the colours |
| `MedianCut.Pigeonhole` | cli/cmd/phantom-media/gif.go:136-146 | if no box can be split there are at least as many boxes as colours |
| `MedianCut.Average` | cli/cmd/phantom-media/gif.go:170-177 | red, green and blue are each the weighted mean of the box's own reds, greens and blues, rounded down |
| `MedianCut.WeightIsArea` | cli/cmd/phantom-media/gif.go:107-125 | the colours listed weigh, together, as much as the frames have pixels |
| `MedianCut.AverageIsBetween` | cli/cmd/phantom-media/gif.go:170-177 | each averaged channel lies between the least and the greatest of its box |
| `MedianCut.PaletteOf` | cli/cmd/phantom-media/gif.go:107-181 | at most 256 entries: the colours themselves when there are no more, otherwise exactly 256 averages of the boxes a whole median cut ends with |
| `MedianCut.PaletteServes` | cli/cmd/phantom-media/gif.go:107-181 | every pixel's colour has its entry: itself, or the average of the one box it fell in |
| `GifDelta.Diff` | cli/cmd/phantom-media/gif.go:79-97 | a rectangle comes back exactly when a pixel at a nonnegative x changed; it then encloses every change, its upper, left and right sides touch one, and its lower side does if and only if some change has y >= -1 |
| `GifDelta.Palettise` | cli/cmd/phantom-media/gif.go:40-51 | each pixel of the rectangle gets the palette's index for its colour, and the lookup cache never answers differently |
| `GifDelta.AddFrame` | cli/cmd/phantom-media/gif.go:28-57 | one frame either lengthens the last patch's delay or adds a patch, and either way the screen replays |
| `GifDelta.PatchTurnsIntoNext` | cli/cmd/phantom-media/gif.go:37-55 | drawing the changed rectangle over the previous quantised frame gives the next one, pixel by pixel |
| `GifDelta.UnnoticedIsUnchanged` | cli/cmd/phantom-media/gif.go:31-36 | when nothing at a nonnegative x changed and no pixel lies left of zero the quantised frames are equal |
| `GifDelta.WriteGif` | cli/cmd/phantom-media/gif.go:21-57 | every patch is shown for the sum of the delays of the frames it stands for, so the delays add up; for equal bounds without negative x the screen after each frame is that frame's quantisation |
| `GifDelta.FittingIsExact` | cli/cmd/phantom-media/gif.go:21-57 | at 256 colours or fewer the screen shows every frame's own colours |
| `GifDelta.LeftOfZeroIsMissed` | cli/cmd/phantom-media/gif.go:79-97 | a change left of x = 0 is not seen: two different frames that compare as equal |
| `GifDelta.LowerSideIsLoose` | cli/cmd/phantom-media/gif.go:79-97 | with its only change at y = -2, a rectangle that holds exactly the changes is not the one found |
| `Relations.CollectTargets` | cli/internal/tui/rooms/messages.go:62-76 | every ID a redaction names, in either place, wherever the redaction stands |
| `Relations.AddReaction` | cli/internal/tui/rooms/messages.go:105-117 | after the call the tallies are right for one more reaction: its key once, in the order first seen, its sender once |
| `Relations.AddSaying` | cli/internal/tui/rooms/messages.go:90-99 | after the call edits, replies and tallies of every event are right for one more event |
| `Relations.BuildIndex` | cli/internal/tui/rooms/messages.go:54-103 | the one-pass index answers, for every event ID, what the events that count say about it, for every timeline, repeated IDs included |
| `Relations.KeysAreFirstSeen` | cli/internal/tui/rooms/messages.go:105-117 | keys are exactly those some counting reaction used, each once, an earlier one first used before any later one |
| `Relations.EditedIsLast` | cli/internal/tui/rooms/messages.go:94-95 | the text shown is the last counting edit's, and there is one exactly when there is such an edit |
| `Relations.RepliesAreCounted` | cli/internal/tui/rooms/messages.go:97-98 | the reply count is the number of counting thread events |
| `Relations.DrawReactions` | cli/internal/tui/rooms/messages.go:135-139 | a reaction is shown with the number of distinct senders and whether the user is one |
| `Relations.Messages` | cli/internal/tui/rooms/messages.go:121-199 | by the events' own fields: exactly the events to be shown are, once and in order; a message has the text of the last counting edit and is then marked edited, or else its own; a redacted one is blank; edits, thread replies and other types are not shown; kinds, reply counts and reactions follow |
| `Relations.SaidIs` | cli/internal/tui/rooms/messages.go:78-100 | what an event counts as, by its own fields: an edit, a thread reply, a reaction or nothing, and nothing if it is redacted |
| `Relations.ViewIs` | cli/internal/tui/rooms/messages.go:121-199 | one event's drawing, by the events' own fields |
| `Relations.RedactionOrderIsInvisible` | cli/internal/tui/rooms/messages.go:62-100 | between two timelines of distinct IDs with the same redactions and otherwise the same events in the same order, wherever the redactions stand, the chat shows no difference |
| `Relations.StoredRedactionsMayStandAnywhere` | cli/internal/tui/rooms/messages.go:62-100 | so it is for what any two runs of the store leave in a room, whose IDs are always distinct |
| `Relations.SharedIdTells` | cli/internal/tui/rooms/messages.go:80-100 | with a shared ID it does show: a reaction before a marked redaction of the same ID counts, and after it does not |
| `RoomStore.Store.constructor` | cli/internal/tui/rooms/rooms.go:56-64 | a new store has no rooms and nothing pending |
| `RoomStore.Store.Apply` | cli/internal/tui/rooms/rooms.go:69-94 | every room's new view, in whatever order the maps are walked: left rooms first forgotten, joined ones then folded in |
| `RoomStore.Store.ApplyRoom` | cli/internal/tui/rooms/rooms.go:110-141 | one room's state, timeline and pending messages after a sync; other rooms untouched |
| `RoomStore.Store.ApplyTimeline` | cli/internal/tui/rooms/rooms.go:119-135 | first occurrences of IDs not held are appended, state set in order, echoed transactions settled |
| `RoomStore.Store.Send` | cli/internal/tui/rooms/rooms.go:181-184 | one more pending message at the end of its room's list, nothing else |
| `RoomStore.Store.Fail` | cli/internal/tui/rooms/rooms.go:187-194 | every pending message of the transaction is marked failed, nothing else |
| `RoomStore.Store.Settle` | cli/internal/tui/rooms/rooms.go:196-200 | exactly the pending messages of the transaction are gone, the rest in order |
| `RoomStore.NewOnesAreNew` | cli/internal/tui/rooms/rooms.go:119-135 | what is appended has distinct IDs, exactly those delivered and not held |
| `RoomStore.NewOnesAreTheFirsts` | cli/internal/tui/rooms/rooms.go:119-135 | what is appended is, in order, every event that is the first of its ID and not held, and no other |
| `RoomStore.TimelinesStayDistinct` | cli/internal/tui/rooms/rooms.go:119-139 | after every run each timeline has distinct IDs and at most 500 events |
| `RoomStore.NewestStepIff` | cli/internal/tui/rooms/rooms.go:119-139 | one sync keeps the timeline the newest 500 of what was delivered if and only if, of the events it appends, none that stays was delivered before |
| `RoomStore.TimelineIsNewestIff` | cli/internal/tui/rooms/rooms.go:119-139 | in every run the timeline is at every moment the newest 500 of everything delivered since joining, each event where it first came, if and only if no sync brings back an event to stay that was dropped off the old end |
| `RoomStore.DroppedEventReturns` | cli/internal/tui/rooms/rooms.go:119-139 | a run in which one does: 501 events, and then the first of them again |
| `RoomStore.StateIsTheLastGiven` | cli/internal/tui/rooms/rooms.go:115-127 | after every run each state slot holds the last event given for it since the room was joined |
| `RoomStore.PendingIsOutstanding` | cli/internal/tui/rooms/rooms.go:181-200 | after every run the pending messages are exactly the sends not echoed and not wiped by leaving, in order, failed exactly if refused since |
| `LogFollow.MergeLogs` | cli/internal/tui/listings/logs.go:113-132 | the loop computes the merged view |
| `LogFollow.MergedDescends` | cli/internal/tui/listings/logs.go:113-132 | merging any descending answer keeps the view strictly descending and within the limit |
| `LogFollow.ViewAlwaysDescends` | cli/internal/tui/live/console.go:58-68 | over any answers in any order, restarts included, the view is strictly descending and at most 500 lines |
| `LogFollow.MergingAgainChangesNothing` | cli/internal/tui/live/console.go:58-68 | taking the same answer twice is taking it once |
| `LogFollow.CaptureKeepsBuffer` | crates/phantom-service/src/ops/logs.rs:75-92 | the buffer is always the newest 1000 lines, numbered in order |
| `LogFollow.AnswerIs` | crates/phantom-service/src/ops/logs.rs:110-157 | which lines an answer holds: the oldest 500 after the place asked from, or from the oldest line kept |
| `LogFollow.AlwaysFair` | cli/internal/tui/live/console.go:47-68 | in every run of logging, overlapping polls, answers late, repeated or never, and sign-ins, the buffer is the newest lines, every poll names a line or none, and every answer is what the buffer gave at one moment since |
| `LogFollow.TakenPlace` | cli/internal/tui/listings/logs.go:113-132 | whatever the view holds, where it stands after an answer depends only on where it stood, when the answer was made and the place it was asked from |
| `LogFollow.NeverGoesBackIff` | cli/internal/tui/live/console.go:47-68 | in every run, no step but a sign-in moves the view back if and only if every answer taken ends no earlier than the view stands, or was asked from a line and holds nothing |
| `LogFollow.AlwaysAMomentIff` | cli/internal/tui/live/console.go:47-68 | in every run, the view is at every point exactly the newest 500 lines as they stood at some moment if and only if every answer taken is the whole buffer's, empty, 500 lines long, ends where the view stands, or starts no later than that and ends later |
| `LogFollow.NewestInOrderIff` | cli/internal/tui/live/console.go:47-68 | in every run that takes answers in the order they were made, the view is at every point the newest 500 lines at the last answer if and only if every answer taken asked for the whole buffer or from a place at most 500 lines behind |
| `LogFollow.AlwaysAMoment` | cli/internal/tui/live/console.go:47-68 | so it is at every point of a run whose answers are made in order and start no more than 500 lines below the view |
| `LogFollow.ViewNeverGoesBack` | cli/internal/tui/live/console.go:58-68 | and between sign-ins of such a run that moment never moves back |
| `LogFollow.KeepsPlaceIff` | cli/internal/tui/live/console.go:58-68 | one step, from any state a run can reach, keeps the view from going back if and only if the answer it takes, if any, ends no earlier or holds nothing |
| `LogFollow.TookMoment` | cli/internal/tui/listings/logs.go:113-132 | a view of one moment becomes a view of the moment the answer leads to if and only if the answer joins on to it |
| `LogFollow.UpToDateIff` | crates/phantom-service/src/ops/logs.rs:143-157 | a view of one moment becomes up to date with one answer made in order if and only if that asked for the whole buffer or from at most 500 lines behind |
| `LogFollow.OldAnswersAreDropped` | cli/internal/tui/live/admin.go:210-243 | in every run an answer asked for before a sign-in changes nothing, however late it comes |
| `LogFollow.TakenLate` | cli/internal/tui/listings/logs.go:119-121 | an in-order answer that ends below the view is taken for a restart and takes the view back |
| `LogFollow.FarBehindIsNotUpToDate` | crates/phantom-service/src/ops/logs.rs:143-157 | a run in which any number of lines above 500 is logged while a poll is on its way: its answer, once taken, leaves the newest out |
| `LogFollow.LateAnswerLeavesAHole` | cli/internal/tui/listings/logs.go:119-121 | a run in which a line that was held is skipped for good: a late answer takes the view back, and the next one passes over it |
| `LogFollow.PollingCatchesUp` | crates/phantom-service/src/ops/logs.rs:121-130 | from any distance behind, one poll for every 500 lines brings the view up to date |
| `AuditPaging.StoredIs` | crates/phantom-service/src/ops/audit.rs:64-89 | whatever order records come in, they are stored in the order of their IDs |
| `AuditPaging.PageIsItsPlace` | crates/phantom-api/src/admin/audit.rs:196-204 | a page holds exactly the records stored when it was served that lie in its place: from its cursor, or from the newest, down to its last record, or all the way down when it is not full and so has no next |
| `AuditPaging.OlderMade` | cli/internal/tui/live/console.go:106-129 | taking the page after the view's cursor continues the view |
| `AuditReading.PagesShowTheNewest` | cli/internal/tui/live/console.go:106-129 | from every state a run can reach, while nothing is recorded, a first page and k older ones show exactly the newest 200(k+1) records, newest first, with a cursor exactly if there were so many |
| `AuditReading.ReadingReachesTheEnd` | cli/internal/tui/live/console.go:106-129 | and enough of them show every record, with no cursor left |
| `AuditPaging.OldAnswersAreDropped` | cli/internal/tui/live/admin.go:210-243 | in every run an answer asked for before a sign-in changes nothing, however late it comes |
| `AuditPaging.StepKeeps` | cli/internal/tui/live/admin.go:211-243 | recording, asking, serving, delivering any number of times and signing in keep the view what its pages make it |
| `AuditPaging.NoHoleIff` | cli/internal/tui/live/console.go:106-129 | in every run, whatever order records and answers come in, the view lacks no record between its newest and its oldest (or at all below, once no cursor is left) if and only if no record came, after one of its pages was served, in that page's place |
| `AuditPaging.AlwaysInOrder` | cli/internal/tui/live/console.go:106-129 | in every run the records held are strictly newest first, none twice, all recorded, starting with the newest there was when the first page last taken was served |
| `AuditPaging.AlwaysGapless` | cli/internal/tui/live/console.go:106-129 | in every interleaving over a log whose IDs rise, the view lacks nothing between its ends, and with no cursor left it holds the oldest record |
| `AuditPaging.LateRecordIsMissed` | crates/phantom-service/src/ops/audit.rs:73-89 | a run in which a record that sorts outside everything held is missing once the page on its way is taken |
| `SortedIntersection.Seek` | crates/phantom-core/src/set.rs:37-41 | a cursor moved up to the value finds it if the input holds it at all |
| `SortedIntersection.Probe` | crates/phantom-core/src/set.rs:36-42 | the short-circuiting test is membership in every input, and the cursors it leaves behind are still behind |
| `SortedIntersection.IntersectionSorted` | crates/phantom-core/src/set.rs:27-45 | for any number of weakly ascending inputs the single pass yields the same sequence as the quadratic filter |
| `SortedIntersection.IntersectionIs` | crates/phantom-core/src/set.rs:11-45 | for any number of inputs, an item comes out as often as the first has it if every input has it, and else not at all |
| `SortedIntersection.FilteredAscends` | crates/phantom-core/src/set.rs:11-45 | from an ascending first input what comes out is ascending |
| `SortedIntersection.IntersectionSortedStream2` | crates/phantom-core/src/set.rs:47-66 | an item of the first stream comes out exactly while the second has as many of it |
| `SortedIntersection.NextMatch` | crates/phantom-core/src/set.rs:57-64 | one pull from the second stream finds the item exactly when a copy is left |
| `SortedIntersection.KeepsTheSmallerCount` | crates/phantom-core/src/set.rs:47-66 | each value comes out as often as the stream that has fewer of it |
| `SortedIntersection.KeepsTheOrder` | crates/phantom-core/src/set.rs:47-66 | the result of an ascending stream is ascending |
| `SortedIntersection.DistinctIsIntersection` | crates/phantom-core/src/set.rs:11-25 | with no item of the first stream repeated it is the quadratic intersection |
| `DomainNames.SharesBaseByLabels` | crates/phantom-api/src/oidc/registration.rs:172-179 | for all names, a host shares a base exactly when the base's dot-separated labels are its last labels |
| `DomainNames.IsReverseDns` | crates/phantom-api/src/oidc/registration.rs:229-241 | a scheme is accepted exactly when it has a dot and its label-reversed form shares the base |
| `DomainNames.MatchesByLabels` | crates/phantom-core/src/url.rs:2-29 | for all inputs, the root matches names that end in a dot, an empty domain none, and any other exactly the names whose last labels are the domain's, case and one leading dot aside |
| `DomainNames.MatchesAgrees` | crates/phantom-core/src/url.rs:2-29 | on lower-case names and a nonempty domain without a leading dot the two comparisons agree |
| `DomainNames.MatchesByLetters` | crates/phantom-core/src/url.rs:2-29 | a domain without a leading dot matches itself and whatever ends with a dot and itself, letters a to z compared without their case |
| `DomainNames.ReversedTwice` | crates/phantom-api/src/oidc/registration.rs:229-241 | reversing labels twice gives the name back |
| `HtmlEscape.EscapeIsOnePass` | crates/phantom-core/src/html.rs:13-20 | the six passes in turn equal one pass over the characters |
| `HtmlEscape.EscapedIsSafe` | crates/phantom-core/src/html.rs:13-20 | no markup character is left and every ampersand starts one of the six entities |
| `HtmlEscape.DecodeEscaped` | crates/phantom-core/src/html.rs:13-20 | decoding the entities gives the text back |
| `SettingsTable.ReadsBackIff` | crates/phantom-api/src/admin/settings.rs:29-43 | for newline-free rows, reading the printed summary gives back exactly the rows if and only if no name holds the separator or ends as if to begin it |
| `SettingsTable.SeparatorInNameIsCut` | crates/phantom-api/src/admin/settings.rs:35-36 | a name that holds the separator does not read back, whatever its value |
| `SettingsTable.IdentifiersReadBack` | crates/phantom-macros/src/config.rs:162-198 | names without spaces read back with any newline-free values, empty ones and ones holding or ending in the separator included |
| `SettingsTable.LinesOfSummary` | crates/phantom-macros/src/config.rs:190-196 | the summary's lines are the two header lines and the rows |

## Left out

- HTTP routing, TLS, signals, database, clocks, randomness and file writing; time, random IDs and iteration order are inputs or arbitrary.
- The rest of state resolution: iterative auth checks, mainline ordering, power levels of senders (ranks are given), partitioning of conflicted state.
- Federation, media storage, account management and the remaining admin handlers, which would add many plain members.
- Terminal rendering, panels, themes and the ANSI renderer of the recorder.
- Float rounding in the limiter, and mutex poisoning.
- The console store's heroes, typing, receipts, presence, direct rooms and unread counts, and the display time of a message: each is overwritten or copied as given.
- The console room object shared by reference: rooms are values in the store's map, so aliasing is not modelled; nothing else in the source holds a reference to one.
- The wording of membership, name and topic changes.
- Renumbering of log lines at 64 bits, and lines of two server lives mixed when a restart's numbers overlap the old ones: for those runs only `LogFollow.ViewAlwaysDescends` is stated.
- OidcCompletion.AlwaysInv: redirect parsing, client lookup and page rendering are one fallible step that touches neither store.
- StateCompressor.Service.SaveState: the lookup of short hashes and the store of differences are one map each; checked arithmetic overflow is not modelled.
