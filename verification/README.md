# Provider health, routing and session tokens of the DIN Caddy plugins

A Dafny model of four parts of the plugins, with proofs about every run of each.

* **Health checks.** Each round asks every provider of a network for its latest block, at the same
  time. `ProviderHealth` and `LatestBlock` are the rules for one health record and one reply,
  `HealthCheckSpec` is the state machine whose step is the whole handling of one answer,
  `Invariants` holds what is true in every reachable state of every run, `Rounds`, `Demotion` and
  `StatusOrder` what is true of a round in every completion order. `Network` has the provider and
  network objects, updated in place, and ties each method to its step function. `FineGrained` breaks
  a round up into single reads and writes of the shared head and the recorded lists, in any
  interleaving.
* **Routing.** `Upstreams` has the selection loops, a loop-free statement of what they select, the
  name a request is reported under, and what follows for health checks and selection together.
* **Retries.** `Headers` and `Retry` have the buffering response writer and the retry loop around an
  arbitrary handler.
* **Session tokens.** `AuthTokens` has the use counter and one call of Sign, `TokenRuns` signing by
  any number of concurrent calls while slots are renewed, `Renewal` the renewal timers.

A run of the health checks is any sequence of answers; every theorem about runs therefore covers any
number of rounds in any completion order. One answer is one step there: the program reads and writes
the head and the statuses without its lock, and treating an answer as one step is an assumption.
`FineGrained` drops it for the head and the recorded lists.

## Results that are conditional

Some properties one would expect of the code hold only under a condition. Each is stated with the
exact condition, except `TokenRuns.UsesOfACall`, whose condition is sufficient and cannot be dropped.

* `Invariants.LaggingMeansWarning`: needs a non-negative lag limit, and nothing else.
* `Rounds.HeadOfRound`: the head ends at the greatest block in every order, unless the greatest is 0
  and a negative block was accepted, because 0 is read as "no head yet".
* `Demotion.HealthyInEveryOrderExactlyWhen`: exactly which providers a round leaves Healthy in every
  order. A provider that jumps together with the head is judged by its old entry and can be demoted
  by its own answer.
* `StatusOrder.SameStatusExactlyWhen`: exactly when a provider's status after a round does not depend
  on the order of the answers. `Rounds.StatusesAreNotConfluent` is a second round after which two
  statuses do depend on it.
* `Demotion.LagTestIsExact`, `Demotion.OverflowDemotes`: the 64-bit lag test is wrong exactly when its
  sum wraps below the head. The theorems of `Demotion` and `StatusOrder` about rounds take
  non-negative blocks that leave room for the limit.
* `FineGrained.HeadNeverBelowStart`: exactly when the head cannot fall below where its round started.
* `FineGrained.HighestSurvivesExactlyWhen`: every interleaving of a round ends at the highest answer
  exactly when all accepted blocks above the head (all of them, if it is 0) are the same; otherwise
  `FineGrained.LowerWriteCanWin` ends the round at a lower one. Block numbers are taken to be non-negative.
* `Retry.StartsAfreshExactlyWhen`, `Retry.OnlyTheLastAttemptsHeaders`: exactly when the reply is free of
  the headers of earlier attempts. An entry under a key that is not in canonical form survives the
  clearing between attempts until a handler assigns or deletes it in the map itself;
  `Retry.FirstAttemptsHeaderInTheReply` is such a request. `Retry.CanonicalHandlersStartAfresh`: handlers
  that assign only canonical keys never meet this.
* `TokenRuns.UsesOfACall`: a call signs with its first use or not at all, if its own slot is not renewed
  between its first selection and its end. This is sufficient, since a renewed token need not help;
  `TokenRuns.RenewalRevives` shows that it cannot be dropped in any state in which a call selects again.
* `Upstreams.SelectAndReport`: the selection faults exactly when the pool is empty, and
  `Upstreams.SelectedIsEmptyExactlyWhen` says when that is: no available Healthy or Warning provider
  has a priority in range.
* `LatestBlock.ReplyClassification`: a 429 counts as rate limiting only if its body carries a block
  number, and a "result" text of one byte faults.

Where comments and code differ, the model follows the code: modules/network.go:126 and 173 speak of
setting providers unhealthy, the code sets Warning, which also puts an Unhealthy provider back into
the second-pass pool (`Upstreams.RaisedHeadOffersUnhealthy`); modules/din_upstreams.go:42 speaks of
passing along all upstreams, the code passes none.

## Model

| member | source | states |
|---|---|---|
| LatestBlock.ReplyClassification | modules/network.go:211-256 | for every reply, when it faults, when it is an accepted answer and with which block, when it is a 429, and that the three outcomes exclude each other |
| LatestBlock.ReplyContents | modules/network.go:211-256 | the block and the status code of every answer: those of the reply, or of an error with block 0 |
| LatestBlock.AddWraps | modules/network.go:181 | the 64-bit sum is the true sum up to a multiple of 2 to the 64, and exact where it fits |
| HealthCheckSpec.Run | modules/network.go:179-209 | every run keeps the providers, the recorded keys among the provider keys and every list between 1 and 10 entries, so the index and the lookup of the evaluation cannot fail |
| HealthCheckSpec.RunConcat | modules/network.go:60-78 | rounds compose: a run of two series of answers is the run of the second from where the first ends |
| Invariants.LaggingMeansWarning | modules/network.go:106-143 | a provider whose newest recorded block plus the limit is below the head is in Warning, in every reachable state of every run, if and only if the limit is not negative |
| Invariants.LaggingPersists | modules/network.go:97-143 | it goes on lagging, in Warning, through any failures, 429s and other answers, until its own next accepted answer |
| Invariants.LeavesWarningExactlyWhen | modules/network.go:119-137 | the exact step that takes a provider out of Warning |
| Invariants.HealthyTurnsWarningExactlyWhen | modules/network.go:106-137 | the exact steps that take a provider from Healthy to Warning |
| Invariants.WarningIsSticky | modules/provider.go:62-92 | no sequence without an accepted answer at or above the head heals Warning |
| Invariants.UnhealthyMeans | modules/provider.go:62-84 | Unhealthy implies failures above and successes not above the threshold, in every run |
| Invariants.SuccessesCountTheStreak | modules/provider.go:62-84 | the success count is the accepted pings since the last failure or 429, whatever others do |
| Invariants.FailuresCountSinceReset | modules/provider.go:62-84 | the failure count is the failed pings since the last 429 or success-streak recovery |
| Invariants.BecomesUnhealthyExactlyWhen | modules/provider.go:62-68 | a provider becomes Unhealthy exactly by its own failed ping, from Healthy, as more than threshold failures since the last reset |
| Invariants.LeavesUnhealthyExactlyWhen | modules/provider.go:62-92 | the exact steps that take a provider from Unhealthy to Healthy and to Warning |
| Invariants.RecoversExactlyWhen | modules/provider.go:78-84 | in every run, an answer below the head but in lag heals an Unhealthy provider exactly when it is one more than threshold accepted answers in a row |
| Invariants.OnlyFailures | modules/provider.go:62-68 | a provider that has only failed since the start is Unhealthy exactly when it failed more than threshold times, and Healthy until then |
| Invariants.ManyFailuresMeanNotHealthy | modules/provider.go:62-68 | after more than threshold failed pings with no accepted answer between or since, not Healthy |
| Invariants.HistoryIsAWindow | modules/network.go:189-209 | a list is the first ten of all accepted blocks, newest first |
| Rounds.HeadOfRound | modules/network.go:124-127 | the head after a round is the greatest of the old head and the accepted blocks in every order, if and only if that is not 0 or no accepted block is negative |
| Rounds.HeadComesFrom | modules/network.go:124-127 | the head is always the old head or an accepted block |
| Rounds.HeadFromStart | modules/network.go:124-127 | in every run from the start without negative blocks the head is the highest accepted block, or 0 |
| Rounds.HistoriesOfRound | modules/network.go:143-209 | the recorded lists after a round do not depend on the order |
| Rounds.OneMetricPerProvider | modules/network.go:90-147 | exactly one block metric per provider and round, with its code and block |
| Rounds.MetricsFromStart | modules/network.go:90-147 | from the start on the metrics are those of the answers, one each and in order |
| Rounds.StepMetric | modules/network.go:101-140 | the metric carries the status the answer left the provider with |
| Rounds.NothingAcceptedNothingMoves | modules/network.go:97-118 | failures and 429s leave the head, every list and every other provider unchanged |
| Rounds.Confluence | modules/network.go:85-148 | two completion orders of the same answers end with the same head, lists and lagging providers, all of them in Warning |
| Rounds.ConfluenceOverRounds | modules/network.go:60-148 | the same for any number of rounds, each completed in any order |
| Rounds.StatusesAreNotConfluent | modules/network.go:127-143 | from the start, a second round whose statuses depend on the order |
| StatusOrder.SameStatusExactlyWhen | modules/network.go:97-185 | a provider's status after a round is the same in every completion order if and only if a condition on its record, its old entry, the answers and the final head holds |
| StatusOrder.SameStatusIsTheFirst | modules/network.go:97-185 | that same status is the one the provider has when it answers first |
| Demotion.UnacceptedStatus | modules/network.go:97-118 | a provider whose answer fails or is a 429 ends the round in the same, stated status in every order |
| Demotion.HealthyInEveryOrderExactlyWhen | modules/network.go:97-185 | a provider ends the round Healthy in every completion order if and only if a condition on its record, its answer and the final head holds |
| Demotion.LagTestIsExact | modules/network.go:181 | when the 64-bit lag test agrees with the sum it stands for |
| Demotion.OverflowDemotes | modules/network.go:133-136 | from the start, a provider one block behind the head is demoted by a wrapped sum |
| Network.Provider.MarkPingFailure | modules/provider.go:62-68 | the new record is that of the specification |
| Network.Provider.MarkPingWarning | modules/provider.go:70-74 | the new record is that of the specification |
| Network.Provider.MarkPingSuccess | modules/provider.go:78-84 | the new record is that of the specification |
| Network.Network.AddProvider | modules/din_middleware.go:333 | providers stay keyed by their host |
| Network.Network.EvaluateCheckedProviders | modules/network.go:174-185 | in any iteration order, exactly the lagging recorded providers are marked |
| Network.Network.AddHealthCheckToCheckedProviderList | modules/network.go:189-209 | one list is extended as specified, nothing else changes |
| Network.Network.CheckConsistency | modules/network.go:124-137 | implements the consistency check of the step |
| Network.Network.CheckProvider | modules/network.go:93-144 | the whole new state of the network is the specified step |
| Network.Network.HealthCheck | modules/network.go:85-148 | a round is the run of some completion order, and keeps lagging providers in Warning if the limit is not negative |
| FineGrained.HeadNeverBelowStart | modules/network.go:124-147 | in every interleaving of the reads and the write the head stays at or above its value at the start of the round, during the round and at its end, if and only if no smaller accepted block can meet a zero head |
| FineGrained.HeadIsStartOrAnswer | modules/network.go:124-127 | at every point of every interleaving the head is the value at the start or an accepted block, for any answers |
| FineGrained.LowerWriteCanWin | modules/network.go:124-147 | any accepted block that exceeds the head at the start, or meets a zero head, is where some interleaving of the whole round ends |
| FineGrained.HighestSurvivesExactlyWhen | modules/network.go:124-147 | every interleaving of a whole round ends at the highest answer if and only if all such blocks are the same |
| FineGrained.ListsAreThoseOfTheRound | modules/network.go:143-171 | no recorded entry is lost in any interleaving of the separately locked reads and writes |
| FineGrained.ListsAgreeWithAtomicRound | modules/network.go:143-209 | the fine-grained round leaves the lists of every atomic completion order |
| FineGrained.ListsOverManyRounds | modules/network.go:143-209 | over any number of rounds a list is the first ten of everything reported |
| FineGrained.HeadOverManyRounds | modules/network.go:124-147 | the head does not fall from one barrier to a later one |
| FineGrained.HeadRisesExactlyWhen | modules/network.go:124-147 | over any number of rounds in any interleaving, a positive head never falls and rises exactly when some round accepted a block above it |
| Upstreams.GetUpstreams | modules/din_upstreams.go:40-70 | in any map order the pool is the selection, each upstream once; everything in it is up, and a provider is in it exactly when it comes first among the Healthy that are up with a priority in range, or, without any such, among such Warning ones |
| Upstreams.SelectedIsUniform | modules/din_upstreams.go:43-67 | a selection never mixes classes or priorities and leaves out nobody of its class and priority; Warning only when no Healthy provider is eligible |
| Upstreams.SelectedIsEmptyExactlyWhen | modules/din_upstreams.go:43-70 | the selection is empty exactly when no available Healthy or Warning provider has a priority in range |
| Upstreams.Select | modules/din_select.go:49-88 | the recorded name is the key of a provider with the chosen upstream |
| Upstreams.SelectAndReport | modules/din_middleware.go:199-203 | whichever pool member is picked, the recorded name is found in the providers, with the status of the class selected from; it faults exactly when the selection is empty |
| Upstreams.CandidatesShowTheState | modules/din_middleware.go:155 | the selection sees the statuses of the network's health-check state beside the objects' priorities and availability |
| Upstreams.LaggingOnlyAsLastResort | modules/din_upstreams.go:43-67 | after any run a lagging provider is offered only when no available Healthy provider has a priority in range |
| Upstreams.LaggingInThePool | modules/din_upstreams.go:40-70 | the same for a network that keeps lagging providers in Warning and the pool GetUpstreams returns on it, which then holds Warning providers only |
| Upstreams.FailingLeavesFirstPool | modules/din_upstreams.go:43-52 | after more than threshold failed pings a provider is out of the first-pass pool until an accepted answer |
| Upstreams.RaisedHeadOffersUnhealthy | modules/network.go:174-185 | exactly when another provider's answer takes an Unhealthy provider to Warning |
| Headers.CanonicalTwice | modules/response_writer_wrapper.go:16-19 | canonicalising a header key is idempotent |
| Headers.CanonicalCharacter | modules/response_writer_wrapper.go:16-19 | the canonical form of a valid key, character by character |
| Retry.ResponseWriterWrapper.constructor | modules/response_writer_wrapper.go:14-24 | in any iteration order the header map is left with the Caddy header and the non-canonical entries |
| Retry.ServeNext | modules/response_writer_wrapper.go:26-32 | the wrapper holds the last status and all writes, headers go to the client's writer, and the request's body is left as far as it was not read |
| Retry.BodyOfJoin | modules/response_writer_wrapper.go:30-32 | the buffered body of two series of actions is the one body after the other |
| Retry.LastStatusCounts | modules/response_writer_wrapper.go:26-28 | the buffered status is the last one written |
| Retry.LastResetCounts | modules/din_middleware.go:177 | a header holds what the last action that resets it gave it, followed by what was added since |
| Retry.AddedToTheOldValues | modules/din_middleware.go:177 | a header nobody resets keeps its values and gets the added ones |
| Retry.RetryLoop | modules/din_middleware.go:160-184 | attempts stop at the first success or at the limit, and each finds the whole original body |
| Retry.ServeWithRetries | modules/din_middleware.go:157-198 | the client gets one status with its headers and exactly the body of the last attempt, or nothing if that failed |
| Retry.AttemptsIsUnique | modules/din_middleware.go:160-184 | the stopping rule determines the number of attempts |
| Retry.LoopStopsAtSuccess | modules/din_middleware.go:177-181 | every attempt but the last failed or was not 200, and the loop ends early only at a 200 without an error |
| Retry.ProviderInfoIsCleared | modules/din_middleware.go:171-174 | the removal of the custom header never finds one |
| Retry.OnlyTheLastAttemptsHeaders | modules/response_writer_wrapper.go:14-24 | the reply has the last attempt's headers alone if and only if the last attempt assigns or drops every non-canonical key that the client's writer and the earlier attempts left |
| Retry.CanonicalAfterAttempts | modules/response_writer_wrapper.go:14-24 | only canonical keys are in the map after n attempts if and only if no other key was left, read off the handlers' actions alone |
| Retry.StartsAfreshExactlyWhen | modules/response_writer_wrapper.go:14-24 | the last attempt starts with fresh headers if and only if the writer and the earlier attempts left no non-canonical key |
| Retry.NonCanonicalHeaderLeaks | modules/response_writer_wrapper.go:16-19 | a non-canonical entry stays, with its values, through all later attempts that do not assign or drop it in the map itself |
| Retry.CanonicalHandlersStartAfresh | modules/response_writer_wrapper.go:14-24 | if the writer begins canonical and the earlier handlers assign only canonical keys, the reply has the last attempt's headers alone |
| Retry.FirstAttemptsHeaderInTheReply | modules/din_middleware.go:160-184 | a request whose reply carries a header that only its failed first attempt assigned |
| AuthTokens.Use | lib/auth/interface.go:45-53 | succeeds exactly when the token is usable, and always takes one use of a finite token |
| AuthTokens.Peek | lib/auth/interface.go:56-64 | nil exactly when a use at this moment would succeed |
| AuthTokens.UseRepeatedly | lib/auth/interface.go:45-53 | of k uses of a token with u uses left, exactly min(k, max(u, 0)) pass the limit check, at whatever times, and all k are taken off |
| AuthTokens.SlotOf | lib/auth/siwe/client.go:254-266 | the first slot without a session id, the remainder of the 32-bit hash otherwise |
| AuthTokens.Signer.Sign | lib/auth/siwe/client.go:237-266 | with no renewal, no other call in between and a clock that does not go back, succeeds exactly when the first use does; costs 1 use on success and 11 on failure, and which error remains |
| TokenRuns.BudgetHolds | lib/auth/siwe/client.go:237-266 | in every interleaving of signing and renewal at most u calls apply a token with u uses, exactly min(k, u) of its k uses pass, every passed use is accounted for as applied, expired or still in flight |
| TokenRuns.UsesAreBounded | lib/auth/siwe/client.go:244-266 | in every interleaving, with finite tokens or not, no call makes more than 11 uses and one that gives up has made 11 |
| TokenRuns.SignsExactlyWhenUnexpired | lib/auth/interface.go:49-53 | in every run, a call about to look at the clock signs exactly when its token has not expired |
| TokenRuns.UsesItsToken | lib/auth/interface.go:45-48 | in every run, a call takes the token of its slot, and its use passes exactly when the counter had one left; that counter and no other goes down by one |
| TokenRuns.UsesOfACall | lib/auth/siwe/client.go:237-266 | in every interleaving of any number of calls and renewals, a call whose own slot is not renewed while it is under way has made 1 use if it signs and 11 if it gives up |
| TokenRuns.RenewalRevives | lib/auth/siwe/client.go:152-159 | in any reachable state, renewing the slot of a call about to select lets it sign with its next use |
| TokenRuns.RenewalRescues | lib/auth/siwe/client.go:237-266 | with a renewal between its tries, a call on an exhausted slot signs with its second use |
| TokenRuns.BudgetIsFixed | lib/auth/siwe/client.go:159 | a renewal starts a new counter and leaves every other budget alone |
| TokenRuns.RenewalInstalls | lib/auth/siwe/client.go:159 | in every run, a renewal puts the granted expiry and, for finite uses, a counter of its own into its slot, and changes nothing else |
| Renewal.OneTimerPerSlot | lib/auth/siwe/client.go:133-174 | in every reachable state a slot has one pending renewal, due 5 seconds before its expiry or at once, 10 seconds after a failed grant in Start, or 55 seconds after a failed renewal, and none if it holds a token without expiry |
| Renewal.FiringStoresTheGrant | lib/auth/siwe/client.go:154-159 | in every run, a timer fires only when due, and its slot then holds exactly what was granted while the others stay |
| Renewal.StartingStoresTheGrant | lib/auth/siwe/client.go:134-148 | in every run, Start fills the next slot with what was granted, or with a token that expires now after an error |
| Renewal.NeverNearExpiry | lib/auth/siwe/client.go:152-174 | with prompt timers no slot holds an issued token in the last 5 seconds of its life, unless it came with less |
| Renewal.Renewer.Start | lib/auth/siwe/client.go:109-150 | every slot is filled with what was granted, expired now after an error, and the invariant established; a session count of 0 is refused, and a negative one panics |
| Renewal.Renewer.TimerFires | lib/auth/siwe/client.go:152-174 | the new state is that of the firing step |

## Left out

- Answers as single steps: the statuses at the grain of single reads and writes; `FineGrained` has only the head and the recorded lists.
- Network.Network.HealthCheck: handles the answers one after the other in an arbitrary order instead of on parallel goroutines.
- Network.Network.AddHealthCheckToCheckedProviderList: stores sequences, so it does not capture Go slices sharing storage; the code copies into a new slice every time.
- LatestBlock: HTTP transport, JSON decoding, hexadecimal parsing and the float conversion; a reply arrives as what those yield.
- Entry timestamps: every entry of a round points at one shared variable, and nothing reads them.
- Counters: the failure and success counts, the use counters and clock values are unbounded integers; only the lag test is modelled with its 64-bit wrap-around.
- Upstreams.Select: path and header rewriting and the hash choice of the selector; any pool member may be picked, and availability is fixed for one call.
- Retry.ServeWithRetries: the gating before the loop (unknown network, unreadable or oversized body), the failed write of the reply, and what the HTTP library does with a status of 0 when the handler wrote none.
- TokenRuns: reading a slot is one step, so a copy torn by a concurrent renewal is not modelled.
- AuthTokens.SlotOf: the body of FNV-1a; the hash is any 32-bit number and int has 64 bits.
- Renewal: how usable a slot is after a failed renewal, Stop and the quit channel, and the duration of the token server's answers.
- Sign-in messages, signatures and the server side of authentication (lib/auth/siwe/server.go).
- Caddyfile parsing, except that providers are keyed by host; module registration, logging, Prometheus.
