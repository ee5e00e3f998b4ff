# Verification of reasonbridge's stateful core

This project models the parts of the repository that carry real state or an algorithm, and
proves what holds of them for all inputs and over all runs. `dafny verify dfyconfig.toml`
checks everything.

| files | what they model |
|---|---|
| `Responses.dfy`, `ThreadForest.dfy`, `ThreadRoundTrip.dfy`, `ThreadTree.dfy` | Threading a flat list of responses: the recursive forest as values, and the two-pass builder over shared heap nodes |
| `OptimisticResponses.dfy`, `OptimisticRollback.dfy` | The optimistic-update protocol of the two response hooks on one cache entry, with the server and other users |
| `BackfillTables.dfy`, `Backfill.dfy`, `BackfillProperties.dfy`, `BackfillRetries.dfy`, `BackfillScript.dfy` | The discussion backfill, its statistics, failures of single database calls, the validator, and running it again |
| `TokenStore.dfy` | Two browser storages as one token register under interleaved requests with refresh and retry |
| `Debounce.dfy` | The debounced value against a specification of the whole trace, and two delays on one content stream |
| `Base64.dfy`, `Jwt.dfy`, `SessionExpiry.dfy` | Payload decoding, time to expiry, the minute poll and the countdown |
| `TopicSelection.dfy` | Selecting and ranking topics on the onboarding page |
| `SocketHook.dfy`, `HandlerRegistry.dfy` | The socket hook's reconnects and heartbeat, and its registry of handlers |
| `Optional.dfy`, `SetSizes.dfy` | The absent value, and sizes of sets and maps |

Where the source updates objects, the model is a class whose methods are proved equal to
functions of the old state; the results about whole runs are lemmas about those functions.
A run is a sequence of events in any order that the source allows: one event is the code
between two awaits, or a step of the server, of a timer or of a socket.

Assumptions that the results rest on:

- Ids of responses are unique where a statement says so (`UniqueIds`). The builder's
  contract on reply lists holds without it.
- Cancelling a query drops the running refetch and leaves the cached data; invalidating
  starts a refetch that reads the server from then on; setting data replaces it.
- A socket that fails fires its error and its close event in one task, so they are one event.
- A database call takes full effect or throws without any, and nobody else writes during the
  backfill. The fetched topics are an argument: a fetch that throws ends the script before it
  has written anything.
- Issued tokens are not empty. Only the auth service writes the four storage entries.
- A timer whose deadline has come fires before anything else that happens at that time, and
  the debounce delay does not change.
- `JSON.parse` is a parameter of the decoder. The session results are about one token that
  stays stored.

What the proofs show to be false of the code, each with its exact condition:

- The cache does not always come to rest up to date. It rests with the list that the last
  refetch read, so it is outdated exactly when this client wrote since (`QuietCacheIsLastRead`),
  which takes the lost answer of a mutation without optimistic updates (`AnsweredRunsConverge`,
  `LostAnswerOutdatesIff`); or, when that refetch failed, with the list that it failed to
  replace (`FailedRefetchKeepsList`, `FailedRefetchOutdatesIff`). The next refetch that goes
  through repairs it (`RefetchCatchesUp`).
- A draft is not shown when its parent is on or below a parent cycle (`AppendIsShownIff`,
  `HiddenReply`).
- A rollback is exact only for the top layer or, once its layer is gone, for a snapshot that
  equals the cached list (`RollbackExactIff`): the failure of an older mutation drops a later
  draft (`OlderFailureDropsLaterDraft`), and a list that arrived meanwhile is thrown away
  (`FailureDropsArrivedList`).
- A backfill that failed in grouping or in recording activities passes the validator
  (`VerdictOnRun`), before and after an error-free rerun (`UnnoticedGapIff`, `GapWitness`), and no
  rerun fills the gap (`GapIff`). After a failure in linking or in the final count no rerun is
  ever accepted (`RetriesVerdictIff`). Rerunning repairs all exactly when each failing topic
  failed in its first call (`RetriesRepairIff`).
- A refresh puts tokens back into local storage after they were moved to session storage
  (`LocalStorageInUse`, `RefreshUndoesMove`). A held pair can be lost without the user doing
  anything exactly while some request has not had its own refresh succeed (`PairCanBeLostIff`),
  even a pair that another request has just stored (`LateFailureDropsNewPair`).
- A countdown that starts with less than a second left logs out after expiry
  (`CountdownInTimeIff`, `LateCountdown`). `isJWTExpired` and a positive time left disagree at
  the moment of expiry (`TimeLeftIffNotExpired`).
- A priority above the number of selected topics breaks the ranking
  (`PriorityChangeRanksIff`), and the one just above it makes the next selection a duplicate
  (`DuplicateIff`, `GapThenDuplicate`). Deselecting or switching repairs it
  (`RankedSinceRepair`). The cards offer 1 to 3 whatever that number is
  (`frontend/src/components/onboarding/TopicCard.tsx:191`).
- A manual disconnect lasts only under a condition (`DisconnectIsFinalIff`,
  `DisconnectedHookReconnects`). An open socket is without a heartbeat, and reported as
  disconnected, exactly when some socket has closed since the last one opened
  (`SilentSocketIff`, `LateCloseSilencesOpenSocket`). There is one live socket, as reported, up
  to exactly a stale `connect`, or a late close, while it is connecting (`StepKeepsOneLiveIff`,
  `StaleConnectDoubles`).

## Model

| member | source | states |
|---|---|---|
| ThreadTree.BuildThreadTree | frontend/src/services/responseService.ts:109-141 | The two passes over shared, mutable nodes: every node is fresh, its reply list holds exactly the nodes of the responses naming it, in input order; the result holds the nodes of the roots; input objects are unchanged. With unique ids the result unfolds to the recursive forest specification, wherever parents stand and whether or not links form cycles |
| ThreadTree.MapResponses | frontend/src/services/responseService.ts:113-116 | First pass: one distinct fresh node per id, without replies, carrying the last response with that id |
| ThreadTree.LinkReplies | frontend/src/services/responseService.ts:118-140 | Second pass: every reply list and the root list end up with the right nodes in input order |
| ThreadTree.PushReply | frontend/src/services/responseService.ts:129-132 | A push adds the child behind the replies that are there, supplying an empty list if there is none |
| ThreadTree.BuiltForestIsUnshared | frontend/src/services/responseService.ts:109-141 | Walking the built objects from the roots meets no object twice, and meets the node of a response exactly when its parent chain ends at a top-level response |
| ThreadTree.GraphUnfolds | frontend/src/services/responseService.ts:118-140 | Objects whose reply lists hold the nodes of their children unfold to the forest that the values specify |
| Responses.PlacedExactlyOnce | frontend/src/services/responseService.ts:118-138 | With unique ids every response is placed once in the list of its own slot and in no other list, for arbitrary parent links |
| ThreadForest.ForestSolvesSpec | frontend/src/services/responseService.ts:109-141 | The forest is the one and only solution of the recursive specification; cycles do not matter, because a root is never on one |
| ThreadForest.ForestContents | frontend/src/services/responseService.ts:118-138 | The forest contains exactly the responses whose parent chain ends, each once |
| ThreadForest.NothingLostIffAcyclic | frontend/src/services/responseService.ts:118-138 | Flattening the forest permutes the input if and only if every parent chain ends |
| ThreadForest.DepthBound | frontend/src/services/responseService.ts:118-138 | A parent chain that ends is shorter than the list |
| ThreadRoundTrip.BuildUndoesFlatten | frontend/src/services/responseService.ts:109-141 | Threading the preorder listing of any consistent forest gives that forest back |
| ThreadRoundTrip.BuildFlattenBuild | frontend/src/services/responseService.ts:109-141 | Build, flatten, build is build, for any input with unique ids |
| ThreadRoundTrip.AppendAddsOneNode | frontend/src/services/responseService.ts:118-140 | Appending a fresh response moves nothing: the new response becomes the last reply of its parent, wherever that is in the forest, or the last tree when it has no parent in the list |
| ThreadRoundTrip.AppendIsShownIff | frontend/src/services/responseService.ts:118-140 | The forest gains the new response, once and nothing else, if and only if the response has no parent in the list or its parent's chain ends; below a parent cycle the forest does not change at all |
| ThreadRoundTrip.HiddenReply | frontend/src/services/responseService.ts:118-140 | Such a hidden reply: its parent names itself as parent, and the forest is empty |
| OptimisticResponses.ReplyShowsUnderParent | frontend/src/hooks/useReplyToResponse.ts:105-135 | The draft of a reply has the given id, parent and text; threading the optimistic list puts it as the last one below its parent, or to the end of the thread when the parent is not in the list, and leaves the rest as it was; it is hidden exactly when its parent is in the list but not in the thread |
| OptimisticResponses.CreateShowsInPlace | frontend/src/hooks/useCreateResponse.ts:69-99 | A created response, with the given id and text, goes to the same places, an empty or absent parent id counting as none |
| OptimisticResponses.ResponseHooks.Mutate | frontend/src/hooks/useReplyToResponse.ts:93-98 | The start of onMutate cancels the running refetch; without optimistic updates there is no onMutate |
| OptimisticResponses.ResponseHooks.Resume | frontend/src/hooks/useReplyToResponse.ts:100-139 | The rest of onMutate snapshots the list and appends the draft to a list that is there |
| OptimisticResponses.ResponseHooks.Error | frontend/src/hooks/useReplyToResponse.ts:143-153 | onError puts the snapshot back, if there was a list to snapshot |
| OptimisticResponses.ResponseHooks.Success | frontend/src/hooks/useReplyToResponse.ts:155-167 | onSuccess invalidates the list |
| OptimisticResponses.ResponseHooks.Settle | frontend/src/hooks/useReplyToResponse.ts:169-174 | onSettled invalidates the list again and ends the mutation |
| OptimisticResponses.CancelledRefetchNeverArrives | frontend/src/hooks/useReplyToResponse.ts:97-98 | A refetch running when an optimistic mutation begins never reaches the cache before somebody starts another one |
| OptimisticResponses.NextKeepsInvariant | frontend/src/hooks/useCreateResponse.ts:57-135 | Every step keeps the recorded versions true, and keeps: a cached list is the one read last, or a refetch is running, has failed, or is still owed by an optimistic mutation in flight |
| OptimisticResponses.QuietCacheIsLastRead | frontend/src/hooks/useCreateResponse.ts:57-135 | In every interleaving of create and reply mutations, refetches, failures, evictions and writes of other users: when nothing is in flight and the last refetch did not fail, a cached list is exactly the one that the last refetch read; so it is up to date if and only if this client wrote nothing since that read |
| OptimisticResponses.FailedRefetchKeepsList | frontend/src/hooks/useCreateResponse.ts:57-135 | When the last refetch failed, the cached list at rest is the one that it failed to replace; it is up to date if and only if it was when that refetch failed and this client wrote nothing since |
| OptimisticResponses.SyncedIsCurrent | frontend/src/hooks/useReplyToResponse.ts:93-174 | An up-to-date list, one read since the last own write and not edited, is one the server held at or after that write, and the server list itself if nobody else wrote since |
| OptimisticResponses.AnsweredRunsConverge | frontend/src/hooks/useCreateResponse.ts:57-135 | Whichever mutations are optimistic: a run that loses no answer of a mutation without onSettled and whose last refetch does not fail comes to rest up to date |
| OptimisticResponses.OptimisticRunsConverge | frontend/src/hooks/useReplyToResponse.ts:169-174 | With optimistic updates always on, every run that comes to rest with a cached list and whose last refetch did not fail is up to date, even when answers are lost after a commit |
| OptimisticResponses.RefetchCatchesUp | frontend/src/hooks/useResponses.ts:53-68 | From any rest, outdated or not, one refetch that goes through, such as on window focus, makes the list up to date |
| OptimisticResponses.LostAnswerOutdatesIff | frontend/src/hooks/useReplyToResponse.ts:143-174 | Without optimistic updates, from any list at rest, a commit whose answer is lost leaves that list, not up to date, and it is still current if and only if the write did not change it |
| OptimisticResponses.LostAnswerWitness | frontend/src/hooks/useReplyToResponse.ts:143-174 | A new client can come to rest that way with a list that is not current |
| OptimisticResponses.FailedRefetchOutdatesIff | frontend/src/hooks/useReplyToResponse.ts:155-174 | With optimistic updates, from any list at rest, a success whose refetches fail leaves the draft in the list, which is current if and only if the server stored just that |
| OptimisticResponses.FailedRefetchWitness | frontend/src/hooks/useReplyToResponse.ts:155-174 | A new client can come to rest with a draft that the server never held |
| OptimisticRollback.CacheIsLayered | frontend/src/hooks/useCreateResponse.ts:64-113 | In every run of a new client, at every moment, the cached list is the list that arrived or was put back last with the drafts of the standing layers on top: refetches replace the base, snapshots add a layer, rollbacks take layers away |
| OptimisticRollback.RollbackExactIff | frontend/src/hooks/useReplyToResponse.ts:143-149 | In every run of a new client a rollback keeps the cached list and all drafts but its own if and only if its layer is the top one or, when its layer is gone since a list arrived, the entry was evicted or an older mutation was rolled back, there was no list to snapshot or the snapshot equals the cached list |
| OptimisticRollback.ExactIffNested | frontend/src/hooks/useCreateResponse.ts:64-113 | While no list arrives over a cached one, all rollbacks of a run are exact if and only if they come in the reverse order of their snapshots |
| OptimisticRollback.NestedRollbacksAreExact | frontend/src/hooks/useCreateResponse.ts:64-113 | In such an order the cache is at every moment the starting list with the drafts of the mutations begun and not failed on top, at any depth, an absent list staying absent |
| OptimisticRollback.NestedFailuresRestore | frontend/src/hooks/useReplyToResponse.ts:100-149 | When every mutation of such a run was rolled back, the cache is exactly what it was before |
| OptimisticRollback.OlderFailureDropsLaterDraft | frontend/src/hooks/useReplyToResponse.ts:143-149 | A new client can reach an inexact rollback: the failure of the older mutation takes the draft of the later one, still in flight, out of the list |
| OptimisticRollback.FailureDropsArrivedList | frontend/src/hooks/useReplyToResponse.ts:143-149 | And with one mutation only: a refetched list arrives between its snapshot and its failure, and the rollback throws that list away |
| BackfillScript.BackfillDiscussions | packages/db-models/scripts/backfill-discussions.ts:44-172 | For every choice of throwing calls the loop equals the run of the specification, its counters tell the truth about the tables, it reports errors exactly when a call for a topic with responses threw, and it only links responses that were unlinked, to discussions of their own topic |
| BackfillScript.ProcessTopic | packages/db-models/scripts/backfill-discussions.ts:65-155 | One topic, for every choice of the throwing call: the error is caught and recorded, and a topic without responses is only counted |
| BackfillScript.MakeDiscussion | packages/db-models/scripts/backfill-discussions.ts:74-148 | The five calls for one topic: each counter moves right after its call, and the call that throws ends them |
| BackfillScript.ValidateBackfill | packages/db-models/scripts/backfill-discussions.ts:182-240 | For every choice of throwing queries the validator answers yes exactly when none threw, nothing is unlinked and all stored counts equal the actual ones |
| BackfillScript.RunScript | packages/db-models/scripts/backfill-discussions.ts:244-267 | The whole script ends in success if and only if no call threw for a topic with responses, neither query of the validator threw, and the counts stored before the run were right |
| BackfillScript.Database.CreateDiscussion | packages/db-models/scripts/backfill-discussions.ts:76-86 | Full effect or none: a new active discussion with the fetched response count and the time of the newest response |
| BackfillScript.Database.LinkResponses | packages/db-models/scripts/backfill-discussions.ts:91-100 | Full effect or none: the fetched responses are linked and counted |
| BackfillScript.Database.GroupByAuthor | packages/db-models/scripts/backfill-discussions.ts:105-120 | One group per author of the discussion, with count, first and last time |
| BackfillScript.Database.CreateActivities | packages/db-models/scripts/backfill-discussions.ts:122-134 | Full effect or none: one activity per group, existing rows kept |
| Backfill.InsertionSkipsDuplicates | packages/db-models/scripts/backfill-discussions.ts:131-134 | On any tables: every group has a row afterwards, and no row that was there changes |
| BackfillScript.Database.UpdateParticipantCount | packages/db-models/scripts/backfill-discussions.ts:139-145 | Full effect or none: the participant count is stored |
| Backfill.RunReaches | packages/db-models/scripts/backfill-discussions.ts:65-155 | What the tables look like after any prefix of any run: which responses are linked, what every new discussion contains as far as its calls went, and that old rows are untouched |
| BackfillProperties.StatisticsAreTrue | packages/db-models/scripts/backfill-discussions.ts:65-155 | After every iteration: unlinked plus linked is the initial number, processed plus errors is the number visited, and the other two counters are the growth of their tables |
| BackfillProperties.RunOnlyLinks | packages/db-models/scripts/backfill-discussions.ts:91-100 | No linked response is moved, none is linked to another topic's discussion, and existing discussions and activities keep their values |
| BackfillProperties.NewDiscussionsDescribe | packages/db-models/scripts/backfill-discussions.ts:76-86 | After any run every new discussion carries the id, creator and title of one of the topics, is active, and counts and dates the responses of that topic |
| BackfillProperties.OneDiscussionPerTopic | packages/db-models/scripts/backfill-discussions.ts:62-86 | After any prefix of any run no topic has got two discussions |
| BackfillProperties.ErrorsReported | packages/db-models/scripts/backfill-discussions.ts:149-154 | The error list is empty if and only if no call threw for a topic with responses |
| BackfillProperties.ErrorsNameCalls | packages/db-models/scripts/backfill-discussions.ts:149-154 | The error list names each call that threw for a topic with responses, and its topic, once and in order |
| BackfillProperties.VerdictOnRun | packages/db-models/scripts/backfill-discussions.ts:182-234 | The validator accepts a run if and only if the counts were sound before and no topic failed in creating, linking or the final count |
| BackfillProperties.CountsAfterRun | packages/db-models/scripts/backfill-discussions.ts:207-234 | After any run all stored counts are right if and only if they were before and no topic with responses failed in linking or in the final count |
| BackfillProperties.ErrorFreeRunIsAccepted | packages/db-models/scripts/backfill-discussions.ts:182-234 | An error-free run satisfies the validator if and only if the counts were sound before it |
| BackfillProperties.NewDiscussionMetrics | packages/db-models/scripts/backfill-discussions.ts:76-145 | After an error-free run every new discussion has activity counts that sum to its response count, as many participants as distinct authors, and the latest contribution as its last activity |
| BackfillProperties.ActivitiesAreTrue | packages/db-models/scripts/backfill-discussions.ts:105-134 | After any run, whatever threw in it, every activity row of a new discussion gives the times of the first and the last response of that user in the discussion, and how many there are; and there are rows for all authors or for none |
| BackfillProperties.AuthorsAreRecorded | packages/db-models/scripts/backfill-discussions.ts:105-134 | After an error-free run every new discussion has such a row for exactly the authors of its responses |
| BackfillProperties.SecondRunIsIdle | packages/db-models/scripts/backfill-discussions.ts:49-72 | A second run after an error-free one changes no table and counts every topic as processed |
| BackfillRetries.RetriesVerdictIff | packages/db-models/scripts/backfill-discussions.ts:49-72 | After any number of runs, whatever threw in them, followed by an error-free one, the validator accepts if and only if the counts were sound at the start and no run failed in linking or in the final count |
| BackfillRetries.RerunVerdictIff | packages/db-models/scripts/backfill-discussions.ts:49-72 | For one rerun: an error-free one is accepted if and only if the counts were sound and no topic with responses failed in linking or in the final count of the first run |
| BackfillRetries.RetriesRepairIff | packages/db-models/scripts/backfill-discussions.ts:49-148 | After any number of runs followed by an error-free one every response is linked, and all discussions made on the way have exact metrics if and only if no run failed for a topic after creating its discussion |
| BackfillRetries.GapIff | packages/db-models/scripts/backfill-discussions.ts:105-134 | After a run and any number of later ones a discussion of that run has responses and no participant if and only if grouping or recording activities threw for its topic |
| BackfillRetries.UnnoticedGapIff | packages/db-models/scripts/backfill-discussions.ts:105-134 | After an error-free rerun the validator accepts although a discussion has responses and no participant, if and only if the counts were sound, the first run did not fail in linking or in a final count, and it failed in grouping or in recording activities of some topic |
| BackfillRetries.GapWitness | packages/db-models/scripts/backfill-discussions.ts:105-134 | This happens: one topic with one response, whose grouping throws in the first run |
| BackfillTables.CountsAddUp | packages/db-models/scripts/backfill-discussions.ts:105-129 | The response counts of all authors add up to the number of responses grouped |
| BackfillTables.LatestContribution | packages/db-models/scripts/backfill-discussions.ts:105-129 | The latest contribution of any author is the latest response |
| TokenStore.StoresRefineRegister | frontend/src/services/authService.ts:160-292 | Over every interleaving each storage holds one whole issued pair or nothing, both together hold the pair stored last since the last logout, and everything sent carried a token of that pair |
| TokenStore.GettersAfterRun | frontend/src/services/authService.ts:171-213 | Both getters return halves of the pair stored last since the last logout, or nothing |
| TokenStore.GettersReadRegister | frontend/src/services/authService.ts:171-213 | The two getters never mix tokens of different pairs |
| TokenStore.GettersOnAnyStores | frontend/src/services/authService.ts:160-213 | Whatever the storages hold, half pairs and empty tokens included: a move changes neither getter and moves only two tokens that are not empty, a stored pair is what the getters return, and a logout leaves them nothing |
| TokenStore.NoEmptyTokenIsSent | frontend/src/services/authService.ts:218-269 | In every run from any state no request carries an empty token |
| TokenStore.RequestByHistory | frontend/src/services/authService.ts:226-291 | In every run, what a request can do next follows from its own last step: it is over after an answer that is no refusal, after its retry or after giving up; it refreshes exactly after a refusal with a pair in the register; it retries exactly after its refresh brought a pair; and it gives up exactly after a refusal without a pair or a refresh that failed |
| TokenStore.AcceptedNeverLogsOut | frontend/src/services/authService.ts:239-261 | A request answered without a refusal never logs out before it is sent anew |
| TokenStore.RetryCarriesRefreshedToken | frontend/src/services/authService.ts:238-253 | A retry carries the access token its own refresh brought, unless somebody stored a pair or logged out in between; moving the tokens does not matter |
| TokenStore.LocalStorageInUse | frontend/src/services/authService.ts:186-205 | Local storage is in use exactly when a pair was stored since the last move or logout: a refresh undoes a move |
| TokenStore.RefreshUndoesMove | frontend/src/services/authService.ts:195-292 | A new service can get there: sign in, move, send, a 401 and a refresh, and local storage holds a pair again |
| TokenStore.PairCanBeLostIff | frontend/src/services/authService.ts:238-292 | From any state that holds a pair: some run without a sign-in, sign-out or new request ends with no pair if and only if some request under way has not had its own refresh succeed |
| TokenStore.LateFailureDropsNewPair | frontend/src/services/authService.ts:239-291 | A new service can lose a pair just refreshed: two requests refresh with one token, and the failure of the second drops the pair that the first has stored |
| TokenStore.AuthService.Store | frontend/src/services/authService.ts:186-189 | Both tokens of the pair go to local storage |
| TokenStore.AuthService.MoveTokensToSessionStorage | frontend/src/services/authService.ts:195-205 | A whole pair moves to session storage, half a pair stays where it is |
| TokenStore.AuthService.LogOut | frontend/src/services/authService.ts:160-165 | Both tokens leave both storages |
| TokenStore.AuthService.Send | frontend/src/services/authService.ts:226-236 | The request carries the current access token, if there is one |
| TokenStore.AuthService.Receive | frontend/src/services/authService.ts:238-271 | Only a 401 goes on, with one refresh if a refresh token is there |
| TokenStore.AuthService.ReceiveRefresh | frontend/src/services/authService.ts:282-291 | A refresh stores the new pair, or has failed |
| TokenStore.AuthService.Retry | frontend/src/services/authService.ts:242-253 | One retry with the access token stored by now |
| TokenStore.AuthService.GiveUp | frontend/src/services/authService.ts:254-258 | A failed refresh logs out |
| Debounce.HookMeetsSpecification | frontend/src/hooks/useDebouncedValue.ts:35-51 | For every trace, delay and moment the hook returns the latest value that stayed unchanged for the full delay, or the first value if none has |
| Debounce.AdoptsSettledValues | frontend/src/hooks/useDebouncedValue.ts:38-51 | At every moment of every trace the timers have adopted exactly the values that stayed unchanged for the full delay, in order, each stretch of equal values once |
| Debounce.Play | frontend/src/hooks/useDebouncedValue.ts:35-51 | Running the hook over a trace gives the state that the specification speaks about |
| Debounce.DebouncedValue.FireIfDue | frontend/src/hooks/useDebouncedValue.ts:40-42 | A due timer adopts the value it was armed with |
| Debounce.DebouncedValue.Update | frontend/src/hooks/useDebouncedValue.ts:38-48 | A new value clears and re-arms the timer, the same value does nothing |
| Debounce.HooksStayCoupled | frontend/src/hooks/useHybridPreviewFeedback.ts:141-145 | Over every trace the slow debouncer follows the quick one: same value, later deadline, nothing adopted that the quick one has not |
| Debounce.SlowAdoptsWhatQuickShows | frontend/src/hooks/useHybridPreviewFeedback.ts:141-145 | When the AI stage adopts a value, the raw content and the regex stage already show it |
| Debounce.SlowAdoptsSubsequence | frontend/src/hooks/useHybridPreviewFeedback.ts:141-145 | The values the AI stage adopts are a subsequence of those the regex stage adopts |
| Jwt.PayloadIsRecovered | frontend/src/lib/jwt.ts:24-41 | Any non-empty byte string, sent as unpadded base64url between dot-free parts, reaches the JSON parser unchanged (section 5 of RFC 4648, section 2 of RFC 7515) |
| Jwt.TokenParts | frontend/src/lib/jwt.ts:26-33 | Splitting a token at its dots gives its three parts back |
| Jwt.SplitParts | frontend/src/lib/jwt.ts:26 | Splitting any text gives parts free of the separator that make up the text |
| Jwt.ReadsIff | frontend/src/lib/jwt.ts:24-46 | A token is read as a payload if and only if it has three dot-free parts whose middle one is not empty and decodes to bytes that the JSON parser accepts as that payload |
| Jwt.TimeLeftIffNotExpired | frontend/src/lib/jwt.ts:52-75 | Time left and not expired agree except at the very moment of expiry |
| Jwt.ClaimDecides | frontend/src/lib/jwt.ts:52-75 | With a claim that is not zero a token is expired exactly after the claimed moment, and has the time up to it left or zero; without a payload or such a claim it is expired and has none left |
| Jwt.TokenLifetime | frontend/src/lib/jwt.ts:24-75 | The same for a whole token: only the bytes of its payload and the clock matter |
| Base64.DecodeEncoded | frontend/src/lib/jwt.ts:35-40 | Swapping the alphabet, padding and decoding inverts the unpadded URL-safe encoding |
| Base64.AtobIgnoresSpace | frontend/src/lib/jwt.ts:40 | White space anywhere in the decoded text does not matter (atob removes it) |
| Base64.EncodeDecodedIff | frontend/src/lib/jwt.ts:35-40 | A plain part of readable letters and of a length that decodes is the encoding of its result if and only if it uses URL-safe letters and leaves unused bits zero |
| Base64.PartDecodesIff | frontend/src/lib/jwt.ts:35-40 | A plain part decodes if and only if its letters are readable and its length is not one more than a multiple of four |
| Base64.PaddingIsLeast | frontend/src/lib/jwt.ts:37 | The padding reaches the least multiple of four not below the length |
| Base64.BytesOfSextets | frontend/src/lib/jwt.ts:40 | Regrouping bytes into six-bit groups and back loses nothing (section 4 of RFC 4648) |
| Base64.SextetsOfBytes | frontend/src/lib/jwt.ts:40 | Decoding six-bit groups loses nothing if and only if no set bit is dropped |
| SessionExpiry.FirstWarning | frontend/src/contexts/AuthContext.tsx:193-215 | A session that began with more than 300 seconds gets its first warning with more than 240 and at most 300 left |
| SessionExpiry.TokenSession | frontend/src/contexts/AuthContext.tsx:193-217 | For a whole token: the poll 60 seconds times k after the start logs out exactly when the claimed moment has come, and warns exactly in the last 300 seconds before, with the whole seconds left |
| SessionExpiry.UnreadableLogsOut | frontend/src/contexts/AuthContext.tsx:199-211 | A token that cannot be read, or without a claim or with a zero one, logs out at the first poll |
| SessionExpiry.WarnedBeforeLogOutIff | frontend/src/contexts/AuthContext.tsx:199-215 | A poll that logs out was preceded by a warning if and only if the token had not expired at the first poll |
| SessionExpiry.LogOutInTime | frontend/src/contexts/AuthContext.tsx:205-215 | The first poll that logs out comes at or after expiry and less than 60 seconds after it |
| SessionExpiry.PollUntilLogOut | frontend/src/contexts/AuthContext.tsx:193-217 | Polling stops at the first poll that logs out; the warnings are exactly the polls with 0 to 300 seconds left |
| SessionExpiry.Countdown | frontend/src/components/auth/SessionExpirationModal.tsx:51-72 | The countdown logs out after as many seconds as it started with, and after one second if it started with less |
| SessionExpiry.CountdownInTimeIff | frontend/src/components/auth/SessionExpirationModal.tsx:51-72 | A countdown started by a warning logs out no later than expiry if and only if at least a second was left, and always within a second of expiry |
| SessionExpiry.LateCountdown | frontend/src/components/auth/SessionExpirationModal.tsx:51-72 | This happens: a page opened half a second before expiry warns with zero seconds left and logs out half a second late |
| TopicSelection.EveryRunIsRanked | frontend/src/pages/TopicSelectionPage.tsx:62-124 | Over every run of clicks, switches and priority changes to current ranks the n selected topics have exactly the priorities 1..n and n is within the cap |
| TopicSelection.EveryRunKeepsDistinct | frontend/src/pages/TopicSelectionPage.tsx:62-124 | Over every run whatsoever no topic is selected twice and the selection is within the cap |
| TopicSelection.RankedSinceRepair | frontend/src/pages/TopicSelectionPage.tsx:62-124 | Whatever happened before, after a click that deselects or a switch that finds a low-activity topic only a priority change beyond the current ranks breaks the ranking |
| TopicSelection.DeselectRepairs | frontend/src/pages/TopicSelectionPage.tsx:66-70 | Deselecting ranks the rest by priority, whatever the priorities were |
| TopicSelection.SwitchRepairs | frontend/src/pages/TopicSelectionPage.tsx:206-219 | So does a switch; to another topic that is selected already it shortens the selection by one |
| TopicSelection.ClickDeselects | frontend/src/pages/TopicSelectionPage.tsx:66-70 | Deselecting removes the topic from the ranking and keeps the order of the others |
| TopicSelection.ClickSelects | frontend/src/pages/TopicSelectionPage.tsx:72-79 | Selecting adds the topic at the end of the ranking, while there is room |
| TopicSelection.PriorityChangeSwaps | frontend/src/pages/TopicSelectionPage.tsx:87-108 | A priority in 1..n exchanges two ranks and nothing else |
| TopicSelection.PriorityChangeAnywhere | frontend/src/pages/TopicSelectionPage.tsx:87-108 | On any selection, whatever its priorities: the topic gets the priority, the first topic that had it gets the old one in exchange, and nothing else changes |
| TopicSelection.PriorityChangeRanksIff | frontend/src/pages/TopicSelectionPage.tsx:94-104 | A priority change keeps the ranking if and only if the priority is in 1..n |
| TopicSelection.DuplicateIff | frontend/src/pages/TopicSelectionPage.tsx:76-104 | After any priority change, selecting one more topic gives two topics the same priority if and only if the change was to n + 1 |
| TopicSelection.GapThenDuplicate | frontend/src/pages/TopicSelectionPage.tsx:76-104 | From an empty page: select a topic, give it priority 2, select another, and both have priority 2 |
| TopicSelection.SwitchReplaces | frontend/src/pages/TopicSelectionPage.tsx:206-219 | A switch puts an unselected alternative at the rank of the first low-activity topic in order of insertion |
| TopicSelection.SwitchWithoutLow | frontend/src/pages/TopicSelectionPage.tsx:206-211 | Without a low-activity topic a switch changes nothing |
| TopicSelection.SwitchToSelected | frontend/src/pages/TopicSelectionPage.tsx:206-219 | A switch to another topic that is selected already moves that one to the rank of the first low-activity topic, which leaves, and its old rank closes up |
| TopicSelection.SubmittedInOrder | frontend/src/pages/TopicSelectionPage.tsx:181-185 | The submitted list names every selected topic once, the one of priority i at place i |
| TopicSelection.SortIs | frontend/src/pages/TopicSelectionPage.tsx:116 | Sorting distinct priorities gives the one increasing arrangement |
| TopicSelection.SortIsStable | frontend/src/pages/TopicSelectionPage.tsx:116 | Sorting any selection is ascending and keeps the order of insertion among equal priorities |
| TopicSelection.Page.Click | frontend/src/pages/TopicSelectionPage.tsx:62-82 | The click handler, on the map in insertion order |
| TopicSelection.Page.ChangePriority | frontend/src/pages/TopicSelectionPage.tsx:87-108 | The priority handler, with both map updates |
| TopicSelection.Page.SwitchToAlternative | frontend/src/pages/TopicSelectionPage.tsx:206-219 | The switch handler |
| SocketHook.EveryRunKeepsInvariant | frontend/src/hooks/useWebSocket.ts:174-319 | In every run at most one heartbeat interval is live, and it is the one the hook can stop |
| SocketHook.AttemptsCountReconnects | frontend/src/hooks/useWebSocket.ts:270-281 | At every point of every run the attempts are the reconnects scheduled since the last reset, and at most the maximum |
| SocketHook.ReconnectsAreMade | frontend/src/hooks/useWebSocket.ts:270-281 | In every run of a fresh hook the number of reconnects scheduled since the last reset is the number of closes since then, up to the maximum, with reconnecting on, and zero with it off |
| SocketHook.TimersByHistory | frontend/src/hooks/useWebSocket.ts:270-319 | In every run of a fresh hook a timer is pending exactly when a close scheduled it, it has not fired, and no manual disconnect came while it was the latest one |
| SocketHook.OneSocketAtATime | frontend/src/hooks/useWebSocket.ts:230-288 | In every orderly run of a fresh hook at most one socket is connecting or open, it is the hook's own, and connect makes another if and only if there is a user, nothing is thrown and no socket is live |
| SocketHook.StepKeepsOneLiveIff | frontend/src/hooks/useWebSocket.ts:230-319 | A step gives that up exactly when a callback of an earlier render connects, or another socket closes, while the own one is connecting |
| SocketHook.ConnectMeans | frontend/src/hooks/useWebSocket.ts:230-288 | Where only the own socket is live: connect does nothing while that is open or, in the present render, connecting; otherwise it reports the missing user or the thrown error, or makes a socket |
| SocketHook.StaleConnectDoubles | frontend/src/hooks/useWebSocket.ts:230-288 | A fresh hook can get two live sockets: connect is called twice in one render |
| SocketHook.EveryRunReports | frontend/src/hooks/useWebSocket.ts:235-287 | In every run there is no error text while connecting or connected, and one after a failure; a socket that fails leaves its text |
| SocketHook.WithoutUser | frontend/src/hooks/useWebSocket.ts:235-239 | Without a user no run leaves the first state, but for the text that says why |
| SocketHook.ReconnectsAreBounded | frontend/src/hooks/useWebSocket.ts:274-280 | Between two resets at most the maximum number of reconnects is scheduled |
| SocketHook.DisconnectIsFinalIff | frontend/src/hooks/useWebSocket.ts:303-319 | After a manual disconnect the hook, left alone, stays disconnected without a new socket or heartbeat if and only if no socket is still connecting, no timer was left behind and no socket is still to close (with reconnecting on) |
| SocketHook.DisconnectedHookReconnects | frontend/src/hooks/useWebSocket.ts:270-319 | A fresh hook can get there: connect, open, disconnect, then the socket closes late and the timer that this schedules connects again |
| SocketHook.SilencedByLateCloseIff | frontend/src/hooks/useWebSocket.ts:249-281 | One step leaves an open socket without its heartbeat if and only if a socket that the hook has given up closes |
| SocketHook.OpenSocketKeepsHeartbeat | frontend/src/hooks/useWebSocket.ts:249-281 | In every run without such a late close, an open socket has a heartbeat |
| SocketHook.SilentSocketIff | frontend/src/hooks/useWebSocket.ts:249-281 | At every point of every run, an open socket is without a heartbeat, and reported as disconnected, if and only if some socket has closed since the last one opened |
| SocketHook.LateCloseSilencesOpenSocket | frontend/src/hooks/useWebSocket.ts:270-319 | A fresh hook can get there: connect, open, disconnect, connect, open, and then the first socket closes |
| SocketHook.WebSocketHook.StartHeartbeat | frontend/src/hooks/useWebSocket.ts:174-184 | The interval at hand is cleared before a new one starts |
| SocketHook.WebSocketHook.StopHeartbeat | frontend/src/hooks/useWebSocket.ts:189-194 | The interval at hand is cleared and forgotten |
| SocketHook.WebSocketHook.Connect | frontend/src/hooks/useWebSocket.ts:230-288 | No second connection while one is open or under way, and none without a user; the error text says what went wrong |
| SocketHook.WebSocketHook.Opened | frontend/src/hooks/useWebSocket.ts:249-253 | Opening resets the attempts and starts the heartbeat |
| SocketHook.WebSocketHook.Errored | frontend/src/hooks/useWebSocket.ts:264-268 | An error sets the error text and stops the heartbeat |
| SocketHook.ErrorSilences | frontend/src/hooks/useWebSocket.ts:264-268 | After an error no heartbeat is left and the failure is reported with its text |
| SocketHook.WebSocketHook.Closed | frontend/src/hooks/useWebSocket.ts:270-281 | Closing stops the heartbeat and schedules a reconnect while attempts are left |
| SocketHook.WebSocketHook.Disconnect | frontend/src/hooks/useWebSocket.ts:303-319 | A manual disconnect clears the last timer, the heartbeat, the socket and the attempts |
| HandlerRegistry.Registry.Subscribe | frontend/src/hooks/useWebSocket.ts:325-329 | Subscribing adds one pair of type and handler to those in force |
| HandlerRegistry.Registry.Unsubscribe | frontend/src/hooks/useWebSocket.ts:331-340 | Unsubscribing removes that pair and never leaves a type with an empty set |
| HandlerRegistry.Registry.Route | frontend/src/hooks/useWebSocket.ts:211-221 | A message goes to exactly the handlers subscribed to its type |

## Left out

- Rendering, routing, styling, form schemas, toasts and themes: no state worth a theorem.
- The tree mode of `useResponses` on the same cache key (`frontend/src/hooks/useResponses.ts:56-58`): the cache entry is modelled as the flat list, and threading separately.
- OptimisticResponses.ResponseHooks.Success: only the list's own key is invalidated; the keys of the parent response and of discussion metadata are not modelled.
- OptimisticResponses.QuietCacheIsLastRead: a request that the server commits after the client has seen it fail counts as another user's write.
- TokenStore.AuthService.Send: headers supplied by the caller, which may override the authorization, are not modelled.
- BackfillScript.Database.LinkResponses: the automatic `updatedAt` columns are not modelled.
- BackfillScript.Database.CreateDiscussion: the fallback to the present time is not modelled, since a topic without responses never gets there; nor are the automatic time columns.
- Cache entries other than the list of responses of one discussion, such as discussion metadata.
- Inactive and garbage-collected queries beyond an eviction step, and the retry settings of `queryClient.ts`: a mutation commits at most once.
- Fields of a response that threading and the hooks only copy: they are the one field `body`. The copied fields of a node are constants, since nothing assigns them.
- The log output of the backfill.
- `AuthCallbackPage` and `ApiClient.clearAuthToken`, which write or clear one half of a pair: the register result is about the methods of the auth service.
- Signup and login requests before their answers, email verification and OAuth initiation: they do not touch the storages.
- `isAIFeedback`, sensitivity and the derived fields of the hybrid hook: settled by reading one branch.
- Changing the delay of a debouncer, and timers that fire late.
- The meaning of payload claims other than `exp`, and a `JSON.parse` result that is not an object.
- The dialog's re-synchronisation by later polls and the Continue button: the countdown is modelled from one warning on.
- Stale render state in the switch handler: the page's state is the one the user sees.
- Message payloads and handler bodies of the socket hook, and its `send`.
- Backend services, infrastructure, seeds, load tests and end-to-end fixtures.
