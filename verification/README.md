# Verification of the bridge, the authorization server and four algorithmic cores

This project models the stateful parts of TriOnyx in Dafny and proves what they keep over whole
runs. `dafny verify dfyconfig.toml` checks everything.

Where the program changes state step by step, the model has the same shape: a class with the
same fields, methods with the same branches and loops. Each method is proved equal to a function
on values (the files named `...Spec.dfy`, or the functions beside the method), and the theorems
are about those functions, over every run or every input.

## The turn protocol of the gateway bridge

The gateway answers the prompts of a session in FIFO order, with one terminal frame each, and
cannot cancel one. The bridge lets callers leave early, attach to running turns, collect parked
replies, give up at a deadline and lose the connection. What keeps answers apart is a list of time
stamps per key: one per given-up prompt, and one terminal frame is discarded per stamp.

* `BridgeSpec` says what every atomic segment does to one key, `GatewayBridge` is the imperative
  code, `BridgeLane` puts one key together with its callers and the gateway session behind it.
  Frames may arrive before the send of their prompt has returned; frames and prompts may be lost
  at any moment; deadlines may fire before or after the send.
* The invariant (`KeyInv`): only the last outstanding prompt can belong to a live turn, and for
  every j the j-th newest outstanding abandonment is no newer than the j-th newest stamp.
  `BridgeSafety` proves it for every step, `BridgeRuns` for every run over all keys.
* `BridgeExposure` says when exactly the environment's promises are needed. `BridgeSurplus` and
  `BridgeDebt` account for stamps that nobody pays back, and say exactly when they swallow the
  answer of a live turn; `BridgeStarvation` is a key on which that happens for ever.
* `BridgeHistory` follows each turn's own prompt: a reply is made of that prompt's texts only, and
  calls told about the same turn are told the same outcome. `BridgeParked` shows that an outcome
  nobody collected waits for the next call until its TTL has passed, and that what a call is told
  is labelled as stale exactly if the call found it on arrival. `BridgeExact` and `BridgeService` show
  that without loss and expiry stamps count the given-up prompts exactly and the bridge refines a
  plain request/response service.

## The authorization server

* `RateLimiter` is the login limiter and the registration middleware that reuses it; `RateWindow`
  is the sliding-window theorem, `RateExact` the exact condition for a refusal; `RateRank`,
  `RateEviction` and `RateCap` are about the cap on tracked addresses: whom it forgets, when
  exactly that breaks the window, and that it can at every size. `RateGlobal` is the delay that
  all addresses share.
* `OAuthStore` is the persistent store, with the document on disk as a field; `StoreIntegrity`
  bounds the clients and keeps every token's client registered; `StorePruning` shows that
  pruning and restarting are invisible to whoever holds a token.
* `AuthProvider` is the server over both. `LoginRedirects` says which requests are accepted and
  where a browser is ever sent, `LoginRuns` has the single-use theorems for codes, `LoginCodes`
  says exactly when a code works and what it carries, `PendingTable` is the queue of parked
  authorizations, `LoginEndToEnd` the way from a request to a working token, with other people's
  requests in between. `TokenFamilies` has the theorems about all tokens that descend from one
  login, `TokenLifetimes` what the others cannot take away.

## The smaller cores

* `MergeSpec`, `MergeBuffer`: the Matrix merge buffer, its timer, and the split into runs.
* `Chunking`: splitting a text for a chat platform.
* `ChannelNames`: collision-free channel names, with the pigeonhole argument.
* `ResponseQueues`: several waiters on one queue, some of which hold what is not theirs.
* `PromptEvents`: the terminal events of one prompt.

## Where the code does not do what it promises

* A call that is cancelled while its prompt is already on the wire drops its turn without a stamp.
  Some continuation then hands a frame to the wrong turn, exactly if the turn had not been given up
  and its prompt is still outstanding (`BridgeExposure.RaiseMisdeliversExactly`); in
  `BridgeLimits.CancelledSendMisdelivers` the next caller is told the answer to the dropped prompt.
* Expiring stamps has the same effect, exactly if a prompt is owed and the stamp that stands for
  the oldest one has passed the TTL (`BridgeExposure.ExpiryMisdeliversExactly`,
  `BridgeLimits.LongTurnMisdelivers`).
* A given-up prompt whose terminal frame never comes leaves a stamp that swallows the next
  prompt's whole answer. The comment at `gateway_bridge.py:72-76` says that the TTL heals this;
  but the turn that misses its answer is given up too and leaves a stamp of its own, so on a key
  in use it need not heal: in `BridgeStarvation.NeverHeals` one prompt is lost, every prompt after
  it is answered in full, and every caller is told of a timeout, for any number of prompts that
  each follow within the TTL. `BridgeDebt.HealsExactly` says when it does heal: a prompt's own
  frame is swallowed iff the prompts lost so far outnumber the stamps that expired and the turns
  dropped after delivery; after one loss, that is until a stamp outlives the TTL.
* The registration limit is documented as a number of attempts per window, but an address can be
  locked by attempts of which no window holds that many (`RateExact.SlowFailuresLock`);
  `RateExact.LockedExactly` says when exactly an attempt is refused.
* A configured maximum of failures below 1 acts like 1, and the hard cap on tracked addresses can
  forget a lock that has just begun, whatever its size (`RateCap.CapBreaksWindow`);
  `RateRank.SurvivesTheSweep` says exactly which addresses a sweep forgets, and
  `RateEviction.EvictionBreaksExactly` which evictions let the window be broken.
* `put_client` is meant to fail only if every client holds live tokens, but tokens are pruned only
  when the store is loaded, so it also fails when some hold expired ones alone
  (`StoreIntegrity.OneExpiredToken`; `StoreIntegrity.ExpiredTokensBlock` says exactly when).
* Pruning changes the description of a refused refresh (`StorePruning.RefusalsDiffer` says exactly
  when), and makes revoking an expired refresh token leave its access token alone
  (`StorePruning.PrunedRevocation`; `StorePruning.RevocationTells` says exactly when a later answer
  shows it).
* Fifty bindings always get channel names, fifty-one need not, even under the default prefix
  (`ChannelNames.FiftyOneBindingsCanFail`; `ChannelNames.OneRepositoryResolves` says exactly how
  many bindings of one repository do).
* A prompt reports two terminal events when its query is refused, when its interrupt is noticed
  after its result was reported, or when its stream ends with neither a turn nor a result
  (`PromptEvents.PromptEnds`). If a stream's result came before its first turn, it reports none
  (`PromptEvents.PromptNeverEnds`).
* With `max_len` 0 `chunk_message` ends only on texts of newlines (`Chunking.ZeroLimit`). A text may
  yield no chunk at all; `Chunking.VanishesExactly` says which.

## Model

| member | source | states |
|---|---|---|
| GatewayBridge.Turn.constructor | mcp_server/mcp_server/gateway_bridge.py:408-429 | a turn starts unsettled, without texts or waiters, and remembers its stripped prompt up to 120 characters |
| GatewayBridge.Turn.AddText | mcp_server/mcp_server/gateway_bridge.py:169-171 | empty text changes nothing, other text is appended, and nothing else of the turn moves |
| GatewayBridge.Turn.Finish | mcp_server/mcp_server/gateway_bridge.py:173-176 | a turn settles with all its texts, an empty line between them and no white space around the whole, once: a settled turn is left exactly as it is (`BridgeHistory.SettlesOnce`) |
| GatewayBridge.Turn.Fail | mcp_server/mcp_server/gateway_bridge.py:178-181 | a turn settles with an error, once |
| GatewayBridge.Turn.MarkSettled | mcp_server/mcp_server/gateway_bridge.py:183-186 | the moment of settling is recorded once |
| GatewayBridge.Turn.Settled | mcp_server/mcp_server/gateway_bridge.py:443-458 | what a call reports is the turn's outcome; a parked one is labelled with the prompt it answers |
| GatewayBridge.Bridge.StartTurn | mcp_server/mcp_server/gateway_bridge.py:408-429 | registers a new turn for a free key and touches no other key |
| GatewayBridge.Bridge.Drop | mcp_server/mcp_server/gateway_bridge.py:431-441 | frees the key only if it still holds this very turn |
| GatewayBridge.Bridge.Abandon | mcp_server/mcp_server/gateway_bridge.py:513-525 | the newest stamp of the key is now; no other key changes |
| GatewayBridge.Bridge.SwallowAbandoned | mcp_server/mcp_server/gateway_bridge.py:527-548 | a frame is swallowed iff a stamp is stored, and exactly a terminal one uses up the oldest stamp |
| GatewayBridge.Bridge.Enter | mcp_server/mcp_server/gateway_bridge.py:328-336 | parked turns of every key expire; then the call collects a parked outcome as a stale one, finds the running turn, or finds the key free (`BridgeParked.ArrivalTells`) |
| GatewayBridge.Bridge.Attach | mcp_server/mcp_server/gateway_bridge.py:379-380 | one more call waits on the turn, which is otherwise untouched |
| GatewayBridge.Bridge.Forsake | mcp_server/mcp_server/gateway_bridge.py:382-389 | a cancelled call stops waiting and nothing else happens: a settled turn stays parked |
| GatewayBridge.Bridge.Leave | mcp_server/mcp_server/gateway_bridge.py:382-402 | a call that is not cancelled stops waiting; it is told the outcome, and the turn dropped, iff the turn has settled |
| GatewayBridge.Bridge.GiveUp | mcp_server/mcp_server/gateway_bridge.py:560-563 | a live turn fails and a stamp is stored for it |
| GatewayBridge.Bridge.HardDeadline | mcp_server/mcp_server/gateway_bridge.py:550-563 | a live turn is given up, a settled one left alone, other keys untouched |
| GatewayBridge.Bridge.OnOutbound | mcp_server/mcp_server/gateway_bridge.py:569-607 | a frame is swallowed, ignored, or credited to the live turn of its key; other keys are untouched |
| GatewayBridge.Bridge.Receive | mcp_server/mcp_server/gateway_bridge.py:588-607 | what each kind of frame does to the live turn it is credited to |
| GatewayBridge.Bridge.OnDisconnect | mcp_server/mcp_server/gateway_bridge.py:609-625 | on every key at once, live turns are given up and parked outcomes survive |
| GatewayBridge.Bridge.ExpireParked | mcp_server/mcp_server/gateway_bridge.py:460-470 | on every key, drops exactly the settled turns nobody waits on and nobody collected within the TTL, and counts them |
| GatewayBridge.Bridge.ExpireIfUncollected | mcp_server/mcp_server/gateway_bridge.py:462-469 | the same for one key, leaving the others alone |
| GatewayBridge.Bridge.ExpireAbandoned | mcp_server/mcp_server/gateway_bridge.py:472-478 | on every key, exactly the stamps within the TTL are kept, in order |
| BridgeCover.CoverRemove | mcp_server/mcp_server/gateway_bridge.py:513-548 | losing an outstanding prompt keeps the stamps covering the rest |
| BridgeCover.CoverPop | mcp_server/mcp_server/gateway_bridge.py:537-548 | ending the oldest prompt and using up the oldest stamp keeps the cover |
| BridgeCover.CoverStamp | mcp_server/mcp_server/gateway_bridge.py:513-525 | giving up a prompt and storing a stamp for it keeps the cover |
| BridgeCover.CoverFresh | mcp_server/mcp_server/gateway_bridge.py:472-478 | filtering stamps keeps the cover iff no prompt is owed or the stamp that covers the oldest one is fresh |
| BridgeLane.KeyStart | mcp_server/mcp_server/gateway_bridge.py:346-361 | a turn registered while the key is free keeps the invariant |
| BridgeLane.KeyAbandon | mcp_server/mcp_server/gateway_bridge.py:513-563 | giving up the key's turn keeps the invariant, whether its prompt is outstanding, on its way, or gone |
| BridgeLane.KeySwallow | mcp_server/mcp_server/gateway_bridge.py:527-548 | the end of the oldest outstanding prompt uses up the right stamp |
| BridgeLane.KeyHead | mcp_server/mcp_server/gateway_bridge.py:569-581 | without stamps the only outstanding prompt is the live turn's own |
| BridgeSafety.StepKeeps | mcp_server/mcp_server/gateway_bridge.py:328-625 | every step keeps the invariant: calls, sends, frames, deadlines, disconnects, losses and sweeps |
| BridgeSafety.SentKeeps | mcp_server/mcp_server/gateway_bridge.py:351-380 | a send that returns keeps it, whether the prompt was delivered or silently lost |
| BridgeSafety.RaiseIsSafe | mcp_server/mcp_server/gateway_bridge.py:360-362 | dropping the turn of a delivered prompt keeps the invariant iff the turn was given up or the prompt is no longer outstanding |
| BridgeExposure.RaiseMisdeliversExactly | mcp_server/mcp_server/gateway_bridge.py:360-362 | after it, no continuation in which the environment keeps its promises ever sends a frame to a turn that is not its own, iff the turn was given up or the prompt is no longer outstanding |
| BridgeSafety.ExpiryIsSafe | mcp_server/mcp_server/gateway_bridge.py:472-478 | expiring stamps keeps the invariant iff nothing is owed or the stamp that stands for the oldest owed prompt is within the TTL |
| BridgeExposure.ExpiryMisdeliversExactly | mcp_server/mcp_server/gateway_bridge.py:472-478 | after it, no such continuation ever sends a frame astray, iff nothing is owed or that stamp is within the TTL |
| BridgeExposure.NotExposed | mcp_server/mcp_server/gateway_bridge.py:328-625 | while the invariant holds, no continuation whatever sends a frame astray |
| BridgeSurplus.StepSurplus | mcp_server/mcp_server/gateway_bridge.py:472-563 | stamps never fall short of the prompts owed, and by how much each step changes the difference |
| BridgeSurplus.SweepBoundsStamps | mcp_server/mcp_server/gateway_bridge.py:472-478 | a sweep more than the TTL later leaves at most one stamp for each turn given up in between |
| BridgeDebt.DebtIsSurplus | mcp_server/mcp_server/gateway_bridge.py:513-563 | stamps and live turns, less the prompts in the line, count the surplus stamps and the one a live turn without a prompt will store |
| BridgeDebt.StepDebt | mcp_server/mcp_server/gateway_bridge.py:328-625 | that debt rises by one with each lost prompt, falls with each expired stamp and each turn dropped after delivery, and no other step moves it |
| BridgeDebt.SwallowedExactly | mcp_server/mcp_server/gateway_bridge.py:527-548 | the live turn's own frame is swallowed iff there is a debt |
| BridgeDebt.HealsExactly | mcp_server/mcp_server/gateway_bridge.py:72-76 | after any continuation a prompt's own frame is swallowed iff the debt and the prompts lost outnumber the stamps expired and the turns dropped; a debt of one lasts exactly until one stamp outlives the TTL |
| BridgeDebt.LossesSwallow | mcp_server/mcp_server/gateway_bridge.py:72-76 | in every run of a fresh key: iff more prompts were lost than stamps expired and turns were dropped |
| BridgeStarvation.RoundRuns | mcp_server/mcp_server/gateway_bridge.py:513-563 | an idle key with one stamp: a prompt within the TTL is answered in full, its caller told of a timeout, and the key is idle with one stamp again |
| BridgeStarvation.NeverHeals | mcp_server/mcp_server/gateway_bridge.py:72-76 | a run of a fresh key, for every number of prompts, in which only the first is never answered and every caller is told of a timeout |
| BridgeSafety.FrameOutcome | mcp_server/mcp_server/gateway_bridge.py:569-607 | a frame of the oldest outstanding prompt is either swallowed or credited to that prompt's own live turn |
| BridgeSafety.NoMisdelivery | mcp_server/mcp_server/gateway_bridge.py:569-607 | a frame changes at most the turn of the prompt it comes from |
| BridgeRuns.RunSafe | mcp_server/mcp_server/gateway_bridge.py:328-625 | every run over all keys keeps every key safe |
| BridgeRuns.RunNoMisdelivery | mcp_server/mcp_server/gateway_bridge.py:569-607 | after every run, the next frame changes at most the live turn of its own prompt |
| BridgeRuns.CallsHearTheirOwnPrompt | mcp_server/mcp_server/gateway_bridge.py:382-402 | in every run a reply is a suffix of the texts of the prompt of the turn the call is told about, put together, and that prompt ended normally; an agent error is the one that prompt's error frame reports; an outcome found parked is labelled with that prompt |
| BridgeRuns.CallsAgree | mcp_server/mcp_server/gateway_bridge.py:443-458 | in every run, calls told about the same turn are told the same reply or error |
| BridgeHistory.SettlesOnce | mcp_server/mcp_server/gateway_bridge.py:169-186 | an unsettled turn settles at that moment, a result with all its texts in order, put together with an empty line between them and stripped; a settled turn is left alone |
| Text.JoinIsSpaced | mcp_server/mcp_server/gateway_bridge.py:173-176 | a join is the parts one after the other, with the separator before each but the first |
| Text.StripIsCore | mcp_server/mcp_server/gateway_bridge.py:173-176 | stripping leaves what is between the white space at both ends |
| Text.CoreUnique | mcp_server/mcp_server/gateway_bridge.py:173-176 | nothing else is between them |
| BridgeParked.ArrivalTells | mcp_server/mcp_server/gateway_bridge.py:328-336 | an arriving call is told the outcome of a settled turn as stale, labelled with its prompt, and the key is free; any other arriving call is told nothing yet |
| BridgeParked.LeavingTells | mcp_server/mcp_server/gateway_bridge.py:382-402 | a call that stops waiting is told its turn's outcome, not as stale, and the turn is off the key; or that it is pending |
| BridgeParked.SettlesFor | mcp_server/mcp_server/gateway_bridge.py:550-625 | a turn settles at the moment of a result, an error frame, its own deadline or a disconnect, each with its own kind of outcome |
| BridgeParked.StaysParked | mcp_server/mcp_server/gateway_bridge.py:460-470 | a settled turn stays with its key iff the step is neither an arrival, nor the end of a wait on it, nor its own send raising, nor a sweep more than the TTL after it settled while nobody waits |
| BridgeParked.ParkedIsCollected | mcp_server/mcp_server/gateway_bridge.py:328-470 | over every run: a settled turn nobody was told about waits until more than the TTL has passed, and the call that arrives then is told its outcome as that of the earlier prompt |
| BridgeParked.StaleExactlyOnArrival | mcp_server/mcp_server/gateway_bridge.py:328-458 | in every run, what a call is told is stale iff it found it on arrival, conveys how one turn settled, and is then labelled with up to 120 characters of that turn's stripped prompt |
| BridgeHistory.StepLasting | mcp_server/mcp_server/gateway_bridge.py:583-587 | once settled, a turn's outcome, texts and prompt never change |
| BridgeHistory.StepCounted | mcp_server/mcp_server/gateway_bridge.py:379-389 | a turn's waiter count is the number of calls waiting on it, through wakes, timeouts and cancellations |
| BridgeHistory.StepHist | mcp_server/mcp_server/gateway_bridge.py:328-625 | every step keeps replies, texts, answers told and waiter counts true to each turn's own prompt |
| BridgeExact.StepExact | mcp_server/mcp_server/gateway_bridge.py:513-607 | without loss and expiry stamps count the given-up prompts exactly, and a reply contains every text of its prompt |
| BridgeService.Refines | mcp_server/mcp_server/gateway_bridge.py:301-402 | without loss and expiry every step is a step of a request/response service in which each request ends once, with its own outcome, no later than its terminal frame |
| BridgeRuns.FlawlessRunRefinesService | mcp_server/mcp_server/gateway_bridge.py:301-607 | the same over every run, with stamp counts, and every reply is all non-empty texts of its prompt in order, with an empty line between them and no white space around the whole |
| BridgeLimits.CancelledSendMisdelivers | mcp_server/mcp_server/gateway_bridge.py:351-362 | a run in which, after a cancelled send, the next caller is told the answer to the dropped prompt while its own has produced nothing |
| BridgeLimits.LongTurnMisdelivers | mcp_server/mcp_server/gateway_bridge.py:472-478 | a run in which, after a stamp expired, the next caller is told the answer to the given-up prompt |
| BridgeLimits.UncoveredMisdelivers | mcp_server/mcp_server/gateway_bridge.py:569-607 | with a prompt outstanding and no stamp, its end settles a turn whose own prompt has produced nothing |
| BridgeLimits.SweepsSpareTheOthers | mcp_server/mcp_server/gateway_bridge.py:431-470 | sweeps drop neither a live turn nor one that is waited on, and a late waiter never drops a newer turn |
| RateLimiter.LoginRateLimiter.LockedFor | mcp_server/mcp_server/auth.py:145-156 | the seconds left of a lock; exactly an elapsed lock is forgotten |
| RateLimiter.LoginRateLimiter.Sweep | mcp_server/mcp_server/auth.py:182-199 | drops the stale addresses, then the stalest until there is room for one more |
| RateLimiter.LoginRateLimiter.RecordFailure | mcp_server/mcp_server/auth.py:171-180 | after the sweep one more failure is recorded, and the address locked from the threshold on |
| RateLimiter.LoginRateLimiter.RecordSuccess | mcp_server/mcp_server/auth.py:201-204 | a success forgets the address and the global count |
| RateLimiter.LoginRateLimiter.Failures | mcp_server/mcp_server/auth.py:140-143 | the failures recorded for an address, zero if unknown |
| RateLimiter.LoginRateLimiter.GlobalDelay | mcp_server/mcp_server/auth.py:158-167 | a count that is a lockout old starts over; then no delay up to the threshold, and beyond it one that doubles with each failure, up to the longest |
| RateLimiter.RegisterRateLimit.Call | mcp_server/mcp_server/server.py:584-609 | other requests pass untouched; a registration is refused while its address is locked and counted otherwise |
| LimiterSpec.StepsOk | mcp_server/mcp_server/auth.py:145-204 | the table never holds more than the configured number of addresses |
| LimiterSpec.CappedForgets | mcp_server/mcp_server/auth.py:197-199 | the cap only forgets: what is left is unchanged |
| RateWindow.RecordedInTime | mcp_server/mcp_server/auth.py:171-180 | an unlocked attempt comes at least a lockout after the k-th failure before it |
| RateWindow.EventKeeps | mcp_server/mcp_server/auth.py:145-199 | looks, elapsed locks, sweeps for other addresses and recorded failures all keep the window invariant |
| RateWindow.RoomKeeps | mcp_server/mcp_server/auth.py:197-199 | with room in the table no address is evicted |
| RateRank.SurvivesTheCap | mcp_server/mcp_server/auth.py:197-199 | an address survives the cap iff fewer than cap - 1 others failed later, or then too and come after it |
| RateRank.SurvivesTheSweep | mcp_server/mcp_server/auth.py:182-199 | an address survives a sweep iff it is not stale and fewer than that many current ones outrank it |
| RateWindow.SlidingWindow | mcp_server/mcp_server/auth.py:145-199 | any k + 1 consecutive recorded failures of an address that no recording evicts span the lockout, so no half-open window of that length holds more than k |
| RateEviction.EvictionBreaksExactly | mcp_server/mcp_server/auth.py:182-199 | at a recorded attempt: some continuation spared by the cap breaks the window iff the cap evicts the address there, less than a lockout after its last failure |
| RateEviction.EventRecent | mcp_server/mcp_server/auth.py:145-205 | no entry of the table is ever from the future |
| RateCap.CapBreaksWindow | mcp_server/mcp_server/auth.py:197-199 | for every size of the table and every threshold, a run of failing attempts at one moment in which one failure more than tolerated is recorded |
| RateExact.LockedExactly | mcp_server/mcp_server/auth.py:145-199 | after every run an address is locked iff its last streak of failures since its last success reached the threshold less than a lockout ago, and for exactly the rest of that time |
| RateGlobal.DelayExactly | mcp_server/mcp_server/auth.py:158-205 | after every run the delay is none iff at most the threshold of failures, of whatever addresses, count, and doubles with each further one; those count that were recorded since the last success or since the delay was asked for a lockout after the last |
| RateExact.EventExact | mcp_server/mcp_server/auth.py:145-199 | every event keeps the table equal to what the times of the recorded failures say |
| RateExact.SlowFailuresLock | mcp_server/mcp_server/server.py:558-568 | a run in which an address is locked although no window held the allowed number of attempts |
| OAuthStore.Store.constructor | mcp_server/mcp_server/storage.py:63-85 | a restart holds exactly the saved document, pruned, and saves that |
| OAuthStore.Store.Save | mcp_server/mcp_server/storage.py:87-104 | the snapshot equals memory |
| OAuthStore.Store.PutClient | mcp_server/mcp_server/storage.py:128-151 | evicts if it must, dates the record, saves; or changes nothing |
| OAuthStore.Store.EvictOneClient | mcp_server/mcp_server/storage.py:170-182 | takes the oldest tokenless client, an unprotected one if there is any |
| OAuthStore.Store.PutAccessToken | mcp_server/mcp_server/storage.py:188-192 | stores under the token's digest, touches nothing else, leaves the snapshot equal to memory |
| OAuthStore.Store.DeleteAccessToken | mcp_server/mcp_server/storage.py:198-200 | removes one record and leaves the snapshot equal to memory |
| OAuthStore.Store.PutRefreshToken | mcp_server/mcp_server/storage.py:206-210 | as for access tokens |
| OAuthStore.Store.PopRefreshToken | mcp_server/mcp_server/storage.py:216-221 | hands out the record and removes it, so that a second call finds nothing |
| OAuthStore.Store.DeleteRefreshTokensForAccess | mcp_server/mcp_server/storage.py:227-236 | drops and counts exactly the refresh tokens that last minted this access token |
| OAuthStore.Store.Prune | mcp_server/mcp_server/storage.py:242-269 | drops exactly the expired tokens, then the tokenless clients past their TTL, counts them, and leaves the snapshot equal to memory |
| StoreIntegrity.AccessLookups | mcp_server/mcp_server/storage.py:188-200 | a look-up finds what was put last under that very token until it is deleted or, once expired, pruned; other tokens do not interfere |
| StoreIntegrity.RefreshLookups | mcp_server/mcp_server/storage.py:206-236 | the same for refresh tokens, which also go when the access token they minted is revoked |
| StoreIntegrity.PutClientFails | mcp_server/mcp_server/storage.py:128-151 | registration fails iff a new client meets a full store in which every client holds a token, live or expired; then nothing changes |
| StoreIntegrity.ExpiredTokensBlock | mcp_server/mcp_server/storage.py:128-151 | registration fails although some client has no live token iff a new client meets a full store in which each client holds a token and one none that is live; iff a prune would have made room |
| StoreIntegrity.OneExpiredToken | mcp_server/mcp_server/storage.py:128-151 | a run after which a registration fails and no client holds a live token |
| StoreIntegrity.EvictableMayGo | mcp_server/mcp_server/storage.py:170-179 | the candidates are exactly the tokenless clients, protected ones only if all tokenless ones are |
| StoreIntegrity.EvictsTheOldest | mcp_server/mcp_server/storage.py:170-182 | the evicted client may go, none that may go is older, and everybody else stays |
| StoreIntegrity.PutClientStores | mcp_server/mcp_server/storage.py:128-151 | a stored registration is findable and dated, changes no other record, and costs at most one other client its own, one that may go |
| StoreIntegrity.PruneExactly | mcp_server/mcp_server/storage.py:242-269 | a prune leaves exactly the unexpired tokens, and exactly the clients that hold one or are dated within the TTL, an unreadable date counting as the epoch |
| StoreIntegrity.TruncatesTowardsZero | mcp_server/mcp_server/auth.py:604-607 | a truncated number is the nearest whole one that is no further from zero |
| StoreIntegrity.OpKeeps | mcp_server/mcp_server/storage.py:128-269 | every store operation keeps the bound and keeps every token's client registered |
| StoreIntegrity.StoreStaysSound | mcp_server/mcp_server/storage.py:128-269 | from an empty store, over every run: at most `max_clients` clients, and every stored token's client is registered |
| StorePruning.PruneInvisible | mcp_server/mcp_server/storage.py:63-85 | pruning or restarting one of two stores keeps them equal on unexpired tokens |
| StorePruning.OpSame | mcp_server/mcp_server/auth.py:517-683 | issue, refresh, verification and revocation of access tokens answer alike on two such stores and keep them alike |
| StorePruning.PruningIsInvisible | mcp_server/mcp_server/storage.py:242-269 | over every sequence of requests at non-decreasing times the answers do not depend on when the store was pruned or restarted |
| StorePruning.RefusalsDiffer | mcp_server/mcp_server/auth.py:563-575 | the wording of a refused refresh differs iff exactly one of the stores still holds the client's expired token |
| StorePruning.RevocationShowsPruning | mcp_server/mcp_server/auth.py:674-679 | revoking a refresh token keeps the stores alike iff both would take the same live access token with it |
| StorePruning.RevocationTells | mcp_server/mcp_server/auth.py:674-679 | two stores alike on their live tokens, all of this server's audience, answer every later request alike after the revocation, however they are pruned, iff both took the same live access token with it |
| StorePruning.OursStay | mcp_server/mcp_server/auth.py:605-646 | the live access tokens stay those of this server's audience through every request and prune |
| StorePruning.PrunedRevocation | mcp_server/mcp_server/auth.py:674-679 | under any lifetimes, a login refreshed at its very end whose access token survives a revocation only because of a prune |
| AuthProvider.Provider.PrunePending | mcp_server/mcp_server/auth.py:251-260 | drops exactly the expired transactions, completed logins and codes (`LoginCodes.PrunesExactly`) |
| AuthProvider.Provider.PendingClientIds | mcp_server/mcp_server/auth.py:402-405 | exactly the clients with an unexpired parked transaction |
| AuthProvider.Provider.HasPending | mcp_server/mcp_server/auth.py:407-409 | whether the transaction is parked and unexpired |
| AuthProvider.Provider.RegisterClient | mcp_server/mcp_server/auth.py:272-323 | refuses missing and foreign redirect URIs without touching anything, makes the client public, protects clients with parked transactions, reports the registration limit |
| AuthProvider.Provider.Authorize | mcp_server/mcp_server/auth.py:329-383 | the three refusals in order; otherwise the request is parked in a table with room made for it (`LoginRedirects.ParksExactly`) |
| AuthProvider.Provider.EvictOldest | mcp_server/mcp_server/auth.py:359-366 | evicts the oldest transaction until there is room for one more |
| AuthProvider.Provider.CompleteLogin | mcp_server/mcp_server/auth.py:411-503 | all outcomes of a submission: locked, replayed, expired, rejected, or a code minted, with what each costs |
| AuthProvider.Provider.MintCode | mcp_server/mcp_server/auth.py:473-503 | the transaction is gone, its code stored, and the redirect remembered for replays |
| AuthProvider.Provider.LoadAuthorizationCode | mcp_server/mcp_server/auth.py:509-515 | a code is shown only to its own client |
| AuthProvider.Provider.ExchangeAuthorizationCode | mcp_server/mcp_server/auth.py:517-538 | the code is gone whatever comes of it; a pair is issued iff it was stored and has not expired |
| AuthProvider.Provider.LoadRefreshToken | mcp_server/mcp_server/auth.py:540-554 | a refresh token is shown only to its own client |
| AuthProvider.Provider.ExchangeRefreshToken | mcp_server/mcp_server/auth.py:556-589 | the token is consumed whatever comes of it; success revokes the access token it last minted and issues the next pair |
| AuthProvider.Provider.IssueTokens | mcp_server/mcp_server/auth.py:591-646 | both tokens stored with truncated expiries, the absolute lifetime handed on, the refresh token pointing at the access token |
| AuthProvider.Provider.LoadAccessToken | mcp_server/mcp_server/auth.py:652-672 | accepts exactly stored, unexpired tokens of this audience, and deletes an expired one |
| AuthProvider.Provider.RevokeToken | mcp_server/mcp_server/auth.py:674-683 | a refresh token takes its last access token with it, and an access token the refresh tokens that minted it |
| LoginRuns.RegisteredArePublic | mcp_server/mcp_server/auth.py:272-316 | a client is registered iff all its redirect URIs, of which it has some, are in the allowlist and the store has or can make room; it is stored without a secret or an authentication method; a refused one leaves the store alone |
| LoginRuns.WaitingClientsAreSpared | mcp_server/mcp_server/auth.py:303-312 | a registration costs no client its place but one without a token, and one that waits for the operator only if every client without a token does |
| LoginRedirects.ParksExactly | mcp_server/mcp_server/auth.py:329-383 | a request is parked, as it was made, iff its redirect URI is in the allowlist, its resource missing or one of the two own URLs, and its challenge not empty; otherwise nothing changes and the first reason that applies is reported |
| LoginRedirects.OnlyAllowedRedirects | mcp_server/mcp_server/auth.py:233-503 | over every run, every parked, coded, remembered and answered redirect URI is in the allowlist |
| LoginRuns.MintsExactly | mcp_server/mcp_server/auth.py:411-503 | a code is minted iff the address is not locked, the transaction is parked and unexpired, and the password is right |
| LoginRuns.NothingMinted | mcp_server/mcp_server/auth.py:424-466 | any other submission changes no table but the limiter, and is answered only as a replay |
| LoginRuns.ReplayIsIdentical | mcp_server/mcp_server/auth.py:424-442 | a replay gets the redirect of the first submission while that is remembered, adds no code and costs nothing |
| LoginRuns.WrongGuessIsAnAttempt | mcp_server/mcp_server/auth.py:424-466 | a wrong password costs one limiter attempt wherever one is evaluated, on replays too, and nothing elsewhere; it is reported for a parked transaction only; a locked address learns nothing else |
| LoginRuns.StepKeeps | mcp_server/mcp_server/auth.py:272-538 | every operation keeps the tables disjoint and consistent with what was minted, redeemed and answered |
| LoginRuns.CodesAreSingleUse | mcp_server/mcp_server/auth.py:368-538 | over every run no transaction mints twice, no code yields two pairs, submissions of one transaction get one redirect, and none is parked and completed at once |
| LoginCodes.PrunesExactly | mcp_server/mcp_server/auth.py:251-260 | a transaction, a completed login and a code go iff they have expired; the rest stays as it was |
| LoginCodes.CodeWorksExactly | mcp_server/mcp_server/auth.py:411-538 | after every run, until its expiry: a client can load a code iff it was minted for a request of that client and not presented, with what that request asked; an exchange yields a pair iff the code was minted, not presented before, and has not expired |
| LoginCodes.RepliesAreRemembered | mcp_server/mcp_server/auth.py:424-442 | after every run: for a minute after the mint a replay from an address that is not locked gets the very redirect of the first submission |
| LoginCodes.SuccessForgives | mcp_server/mcp_server/auth.py:455-503 | a login starts the limiter over for its own address and leaves all others alone |
| PendingTable.OldestMakeRoom | mcp_server/mcp_server/auth.py:359-366 | whatever the clock did, room is made for one entry by the oldest transactions |
| PendingTable.AuthorizeQueues | mcp_server/mcp_server/auth.py:359-377 | first in, first out: expired transactions go, then the one parked first if the table is full, and the new one comes last |
| PendingTable.PendingTableIsBounded | mcp_server/mcp_server/auth.py:107 | over every run with a non-decreasing clock at most 64 transactions are parked |
| PendingTable.ParkedSurvives | mcp_server/mcp_server/auth.py:359-377 | a parked transaction survives any 63 later accepted authorizations unless it is completed or expires |
| LoginEndToEnd.AskedIsGranted | mcp_server/mcp_server/auth.py:329-672 | a request acceptable, approved and redeemed in time, with up to 63 other accepted requests before the approval and any steps that do not present the code after it: redirect, state, challenge, scopes and audience are the ones asked for, only that client can load the code, and the token works until exactly its expiry |
| LoginEndToEnd.PairForCode | mcp_server/mcp_server/auth.py:517-538 | a code yields a working pair with its own scopes, and any further exchange of it is refused |
| TokenFamilies.IssuedTokensWork | mcp_server/mcp_server/auth.py:556-672 | a pair works for its own client, with its scopes and this server's audience, until exactly its expiry |
| TokenLifetimes.VerifiesExactly | mcp_server/mcp_server/auth.py:650-672 | a token verifies iff it is stored, unexpired, and for this audience or none; only an expired one is deleted |
| TokenLifetimes.PairsLast | mcp_server/mcp_server/auth.py:556-683 | over every run that does nothing to its login, a granted pair keeps working for its client, with the granted scopes, until exactly its expiry and the end of the login's lifetime |
| TokenFamilies.StepFamilies | mcp_server/mcp_server/auth.py:517-683 | every stored token is the last of its kind of its login, and every refresh token points at its login's last access token |
| TokenFamilies.RotationClears | mcp_server/mcp_server/auth.py:563-581 | a rotation leaves its login without any token before the next pair is issued |
| TokenFamilies.OthersUntouched | mcp_server/mcp_server/auth.py:556-683 | logins, rotations and revocations leave every token of every other login exactly as it was |
| TokenFamilies.OnlyExpiredGo | mcp_server/mcp_server/storage.py:242-258 | verification and pruning take nothing but expired tokens |
| TokenFamilies.RevocationEndsLogin | mcp_server/mcp_server/auth.py:674-683 | revoking either stored token of a login leaves the login with none |
| TokenFamilies.RefreshTokensRotate | mcp_server/mcp_server/auth.py:563-571 | once presented, a refresh token is refused for ever after |
| TokenFamilies.OnePairPerLogin | mcp_server/mcp_server/auth.py:517-646 | over every run each login has at most one stored refresh token and at most one stored access token |
| TokenFamilies.AbsoluteLifetime | mcp_server/mcp_server/auth.py:570-633 | however often it is refreshed, a login's refresh tokens expire within the refresh TTL of the login and its access tokens within the access TTL of that |
| TokenFamilies.StepLifetime | mcp_server/mcp_server/auth.py:556-633 | every refresh token of a login expires at the same whole second, and access tokens at most an access TTL later |
| MergeBuffer.Adapter.OnRoomMessage | connector/connector/adapters/matrix.py:297-327 | a message of a configured room is appended and the room's timer restarted for the room's agent; any other is ignored |
| MergeBuffer.Adapter.RestartTimer | connector/connector/adapters/matrix.py:406-414 | a running timer of the room is cancelled and a new one takes its place |
| MergeBuffer.Adapter.FlushMergeBuffer | connector/connector/adapters/matrix.py:820-873 | takes the room's buffer and timer, and sends the agent of the timer one message for each maximal run of one sender, in order |
| MergeBuffer.GroupRuns | connector/connector/adapters/matrix.py:839-849 | the runs merge consecutive segments of the batch, each of one sender and as long as can be |
| MergeBuffer.RunsAreMaximal | connector/connector/adapters/matrix.py:839-849 | the loop, message by message, yields a split into maximal runs for every batch |
| MergeBuffer.RunsReassemble | connector/connector/adapters/matrix.py:839-849 | the bodies and images of the runs are those of the batch, minus empty bodies, in order, and each run has those of its own segment |
| MergeBuffer.RunsAreUnique | connector/connector/adapters/matrix.py:839-849 | there is only one such split |
| MergeSpec.NothingIsLost | connector/connector/adapters/matrix.py:317-327 | under every interleaving the batches and then the buffer are the arrivals in order, each exactly once; batches are not empty; a buffer is not empty iff a timer of its room sleeps, and then just one |
| MergeSpec.EverythingIsFlushed | connector/connector/adapters/matrix.py:828-837 | once all timers have run out the batches are everything that arrived |
| Chunking.LastSentenceBoundary | connector/connector/formatting.py:73-79 | two beyond the last sentence end that a space follows, or -1 |
| Chunking.FindSplit | connector/connector/formatting.py:50-63 | the cut position by the order of preference |
| Chunking.ChunkMessage | connector/connector/formatting.py:32-70 | the loop produces exactly the chunks the theorems below are about, for every text and every limit on which it ends; with a limit of 0 it yields no chunk, and one empty chunk for the empty text |
| Chunking.CutsAtTheBestBoundary | connector/connector/formatting.py:50-63 | the cut is at the best kind of boundary beyond the first quarter, at the last of that kind |
| Chunking.EachCut | connector/connector/formatting.py:45-70 | each cut yields a chunk that starts where the text does and lacks only the white space before the cut, or none if there is nothing else, and goes on after the newlines there; a text within the limit is one chunk |
| Chunking.ChunksFit | connector/connector/formatting.py:32-70 | no chunk is empty or longer than the limit |
| Chunking.ChunksAreFew | connector/connector/formatting.py:50-68 | every cut takes more than a quarter of the limit, which bounds the number of chunks |
| Chunking.ChunksAreLossless | connector/connector/formatting.py:65-68 | with white space between and around them the chunks are the text |
| Chunking.VanishesExactly | connector/connector/formatting.py:45-70 | a text yields no chunk iff it is longer than the limit, all white space, and from its last cut on only newlines |
| Chunking.VanishesOnlyIf | connector/connector/formatting.py:45-70 | such a text is all white space and ends in a newline |
| Chunking.ManyNewlines | connector/connector/formatting.py:45-70 | with at least `max_len` newlines at its end, a longer text yields no chunk iff it is all white space |
| Chunking.NewlinesVanish | connector/connector/formatting.py:65-68 | a text of newlines that is longer than the limit yields no chunk |
| Chunking.ZeroLimit | connector/connector/formatting.py:45-68 | with a limit of 0 the loop only strips leading newlines once, and so ends only for texts of newlines |
| ChannelNames.UniqueName | connector/connector/channel_bindings.py:71-88 | the first candidate that is free, or an error if none is |
| ChannelNames.ResolveNames | connector/connector/channel_bindings.py:91-103 | names are given to the bindings without a channel, in order, first free candidate first |
| ChannelNames.PlainNamesFirst | connector/connector/channel_bindings.py:71-84 | the bare name is preferred, then the owner-qualified one |
| ChannelNames.PlainNames | connector/connector/channel_bindings.py:49-58 | an `owner/name` of valid characters is called prefix and name, or prefix, owner and name |
| ChannelNames.NamedAfterRepository | connector/connector/channel_bindings.py:49-58 | a name is the prefix and the lower-case repository, with its runs of invalid characters replaced and without the dashes around it, cut to length |
| ChannelNames.RunsBecomeDashes | connector/connector/channel_bindings.py:57 | each run of invalid characters becomes one dash, whatever surrounds it |
| ChannelNames.DashesStripped | connector/connector/channel_bindings.py:57 | the dashes at both ends go, and nothing else |
| ChannelNames.OnePart | connector/connector/channel_bindings.py:55-56 | a repository without a slash, or without a name after it, is named as a whole |
| ChannelNames.SuffixKeeps | connector/connector/channel_bindings.py:65-68 | a suffixed name keeps as much of the name as fits, less trailing dashes |
| ChannelNames.TagIsDecimal | connector/connector/channel_bindings.py:65-68 | a suffix is a dash and its number in decimal |
| ChannelNames.FirstComesFirst | connector/connector/channel_bindings.py:80-83 | candidates are tried in order |
| ChannelNames.BareNamesSuffice | connector/connector/channel_bindings.py:91-103 | repositories whose bare names differ all get their bare names, however many there are |
| ChannelNames.ValidCharacters | connector/connector/channel_bindings.py:45 | the valid characters are the 26 lower-case letters, the ten digits, the dash and the underscore |
| ChannelNames.CandidatesFit | connector/connector/channel_bindings.py:49-68 | every candidate has at most 80 characters, and only valid ones if the prefix has |
| ChannelNames.SuffixesDiffer | connector/connector/channel_bindings.py:65-68 | a suffixed name determines its number, whatever was truncated and stripped before it |
| ChannelNames.SomeCandidateIsFree | connector/connector/channel_bindings.py:71-88 | with fewer than 50 names taken some candidate is free |
| ChannelNames.FiftyBindingsResolve | connector/connector/channel_bindings.py:91-103 | naming cannot fail on at most 50 bindings |
| ChannelNames.NamesAreUnique | connector/connector/channel_bindings.py:91-103 | exactly the agents with a repository and without a channel have a name, a candidate for their own repository; two agents never share one, and every name fits |
| ChannelNames.OneRepositoryResolves | connector/connector/channel_bindings.py:71-103 | bindings of one repository can all be named iff it has as many different candidates, of which there are 50 to 52 |
| ChannelNames.FiftyOneBindingsCanFail | connector/connector/channel_bindings.py:71-88 | for an `owner/name` whose bare name, qualified name and seventh variant agree under the default prefix, bindings can all be named iff there are at most 50 |
| ResponseQueues.ResponseQueue.WaitForMatchingResponse | runtime/agent_runner.py:546-557 | a lone waiter finds the first match after as many rotations as its index |
| ResponseQueues.ResponseQueue.WaitForSubscriptionValidation | runtime/agent_runner.py:1064-1084 | a lone waiter finds the first match within its deadline and restores what it held, in order, match or not |
| ResponseQueues.GetConserves | runtime/agent_runner.py:546-557 | a `get` moves one response to the waiter, to the end of the queue, or into the waiter's hold |
| ResponseQueues.NothingLostOrMisdirected | runtime/agent_runner.py:1038-1084 | under every interleaving each response was put as often as it is queued, held and delivered; each went to a waiter that came for its id; no waiter got two |
| ResponseQueues.RotationFinds | runtime/agent_runner.py:546-557 | undisturbed, a rotating waiter gets the first match after as many gets as its position, and what was before it has moved to the end |
| ResponseQueues.HoldingFinds | runtime/agent_runner.py:1064-1084 | undisturbed, a holding waiter gets the first match after as many gets, and what it held goes to the end in order |
| PromptEvents.RunPrompt | runtime/agent_runner.py:2564-2729 | the events, completion and turns of one query, with interrupts, skipped stream errors and suppressed empty results (`PromptEvents.QueryReports`) |
| PromptEvents.RunPromptInterruptible | runtime/agent_runner.py:2737-2780 | the wrapper's events: the interrupt report, or the follow-up after a prompt without turns (`PromptEvents.PromptReports`) |
| PromptEvents.QueryReports | runtime/agent_runner.py:2564-2729 | an accepted query reports one event for each text and tool use of the assistant, each tool result and each result to be shown among the items received, in their order, results with the number of turns before them; then an error if no result came; a refused one an error alone |
| PromptEvents.PromptReports | runtime/agent_runner.py:2737-2780 | the first query, then the interrupt report, or the whole follow-up if there was no turn |
| PromptEvents.TurnsAreSpoken | runtime/agent_runner.py:2640-2662 | turns are the items of the assistant |
| PromptEvents.EmittedTerminals | runtime/agent_runner.py:2646-2703 | only results that are not suppressed are terminal |
| PromptEvents.PromptEnds | runtime/agent_runner.py:2755-2780 | with results delivered last, a prompt reports one terminal event or two, and two exactly in the cases named |
| PromptEvents.PromptNeverEnds | runtime/agent_runner.py:2755-2780 | for any stream, a prompt reports none iff it ran to its end, had turns, and had all its results before the first of them |

## Left out

- Chunking.ChunkMessage: does not model the limits and texts on which the loop never ends (a limit of 0, unless the text is newlines alone, see `Chunking.ZeroLimit`), nor negative limits.
* asyncio itself: code between awaits is one step, a call has its key's lock to itself, and the races inside `wait_for` and cancelled `get` calls do not occur; pruning of unused locks, the reconnect grace period and `stop` are not modelled.
* The Elixir gateway appears only as an environment that answers each key's prompts in FIFO order with one terminal frame each.
* A frame for a key whose gateway session has no outstanding prompt does not occur.
* Phases, activity texts, `checks`, elapsed times and logging. The sleep for the delay all addresses share.
* Sockets, Matrix, Slack and SDK calls, HTTP routes and pages; decryption, download and transcription of media.
* SHA-256, random tokens and PKCE: digests are an injective function, random identifiers are new, passwords are compared for equality.
* URL canonicalisation and `make_room_id`: URLs and keys are abstract.
* One clock reading per step; times are real numbers, so rounding of floating-point sums is not modelled.
* The SDK's look-up of the client before it calls the token endpoint; a client that was pruned could not get that far.
* File-system errors, an unreadable or outdated store document, and a store without a path; writing the snapshot succeeds. Keeping `completed`, `codes` and token tables as maps leaves out the order of their keys, which nothing depends on.
* The merge window's length: a timer may run out at any moment after it was started. Messages of two batches of one room that are handed to the gateway at the same time may interleave; only the batches are ordered here. Mention gating, `disconnect` and a missing callback are not modelled.
* `str.lower` is a parameter of the naming functions; characters are Unicode scalar values.
* Draining the response queues on an interrupt; queues are unbounded.
* Exceptions raised while an event is being emitted.
* Per-message parsers, tool builders, prompt formatting, tool briefs, the Slack approval stores, Django, JavaScript and scripts: easy or table-like.
