# Durable supervision, modelled

This project models the durable side of the supervision daemon and the pure algorithms that its
launcher and its job reviews rest on, and proves what they are for.

* `Intents.dfy`, `Canonical.dfy`: the launch-intent store, one record per manager and idempotency key,
  and the canonical text that decides whether two launch Tasks are the same.
* `Durable.dfy`: the two durable write routines on a directory that may lose power at any moment.
* `Mailbox.dfy`: the owner mailboxes, their caps, moves, retention and loss accounts.
* `Close.dfy`: what closing a pane, tab or workspace takes with it.
* `Client.dfy`: line framing and request correlation of the daemon socket.
* `Jobs.dfy`, `Bindings.dfy`, `Bounds.dfy`: a job's life under concurrent cancellation, the publication of
  supervisor bindings, and the byte budgets.
* `Gate.dfy`, `Artifact.dfy`, `Patterns.dfy`: the handoff gate over a shared sidecar, and the handoff document
  with the patterns it is read by.
* `Ranking.dfy`, `Routing.dfy`: ranking operating points, and walking the tier chains.
* `Redaction.dfy`, `Delta.dfy`: the model-boundary projection, and the new part of a pane window.
* `Chains.dfy`, `Options.dfy`, `Text.dfy`, `JsText.dfy`, `Cutting.dfy`, `Sorting.dfy`: what these share.

Where the source changes things step by step, a class holds its fields and each method is proved
equal to a function of the old state; runs, interleavings and crashes are sequences of those
functions, and the main results are about all of them.

Some expected properties do not hold of the code as it stands. The code is kept as it is: for each of
these a lemma gives the exact condition and another an input on which it fails:

* a write can both land and be counted as lost (`Mailbox.WriteAddsOrCounts`, `Mailbox.FaultAfterLinkCountsALandedFile`);
* a second acknowledgement can find nothing (`Mailbox.SecondAckAnswers`, `Mailbox.OldEventIsPrunedByItsAck`
  on a state that `Mailbox.CrowdedIsReached` reaches);
* a crash can leave more than 1,000 acknowledged files (`Mailbox.RunRetainsIff`, `Mailbox.CutAckStaysIff`,
  `Mailbox.CutAckLeavesOneTooMany`);
* a retried gap can land in two mailboxes (`Mailbox.OnePlaceIffNoneLandsTwice`, `Mailbox.GapsCanLandTwice`), and the
  clear after a retry can drop another gap (`Mailbox.HeldGapStaysIff`, `Mailbox.GapsCanBeDropped`);
* an effect can be under way although its caller was told of a failure (`Intents.EffectingIsLive`,
  `Intents.UnsureEffectReplays`);
* a close can empty a container unseen (`Close.SparesEveryCallerIff`, `Close.ListedOnlyChildEscapes`, `Close.SharedIdEscapes`);
* session teardown lets a waiting cancel call report `cancelled` over a live runner (`Jobs.CancelledIsQuietIff`,
  `Jobs.TeardownFakesTheDrain`);
* staleness of a binding is judged by its stage alone (`Bindings.CommitMeetsItsBindingIff`,
  `Bindings.StageAloneMissesAReplacement`), and rollback is not checked for it (`Bindings.StepHoldsIff`,
  `Bindings.OutOfOrderRollbackStrandsAStage`);
* a work cycle begun while an acceptance is in flight is lost (`Gate.BegunCycleHoldsIff`, `Gate.CycleLostInFlight`);
* teardown can overwrite a recorded outcome (`Gate.AgreesOverRunIff`, `Gate.TeardownKeepsOutcomeIff`,
  `Gate.StaleMirrorOverwritesOutcome`, `Gate.InFlightMirrorOverwritesOutcome`);
* new content can fail to close a cycle for good (`Gate.NewContentClosesIff`, `Gate.UnsureContentNeverCloses`);
* the comment of the artifact parser asks for level-two headings, the code reads the level off the first space
  (`Artifact.LevelTwoIff`, `Artifact.TabbedLevelOnePasses`);
* a runner found limited also silences its candidates with other quotas (`Routing.BareFilterIff`,
  `Routing.OneFailureSilencesTheRunner`);
* a candidate can land in neither chain nor exclusions (`Routing.AdmittedRoute`, `Routing.PinnedDropsAnother`);
* point ids can collide (`Routing.IdsTellPointsApartIff`, `Routing.HaikuCollides`);
* a repeated line can hide a new one (`Delta.AllNewsIff`, `Delta.RepeatedLineHidesNews`).

`dafny verify dfyconfig.toml` checks the whole project.

## Model

| member | source | states |
|---|---|---|
| `Intents.MergedSummarizes` | `src/daemon/intents.ts:293-308` | the merge by name, read back: one entry per name ever given, in order of first mention, and every field of it is the last value any entry with that name gave |
| `Intents.MergeChildren` | `src/daemon/intents.ts:293-308` | the loop over the added children computes exactly that merge |
| `Intents.RunPreserves` | `src/daemon/intents.ts:515-534` | over any interleaving of store calls and sweeps: records stay well formed, `launchId`, digest and project root never change, the state rank only rises, child names never vanish, and a `failed` record has no children and certainty `absent` |
| `Intents.AtMostOneEffect` | `src/daemon/intents.ts:581-583` | over any run from any valid disk, at most one `markEffecting` lands per (manager, key), whether it reports success or not, and none once the record has left `recorded` |
| `Intents.BindingsAreIndependent` | `src/daemon/intents.ts:515-534` | a run leaves a record alone unless some step names its (manager, key) |
| `Intents.EffectingIsLive` | `src/daemon/intents.ts:581-583` | a record found effecting was written by exactly one step of this run, a `markEffecting`, and was granted exactly when that call did not report a failure after landing |
| `Intents.SweepIsRecovered` | `src/daemon/intents.ts:657-680` | the restart sweep, defined at once, is what rewriting one effecting record after another gives, in any order of listing |
| `Intents.SweepRecovers` | `src/daemon/intents.ts:657-680` | a sweep is a run of single rewrites after which no listed record is effecting |
| `Intents.ReplayedEffectIsLive` | `src/daemon/intents.ts:537-579` | after a full sweep, a `begin` that answers `replay` with an effecting record answers for an effect written by exactly one step since the sweep, never for an interrupted one, and granted exactly when that call did not report a failure |
| `Intents.LaterBeginAnswers` | `src/daemon/intents.ts:566-576` | over any run from the `begin` that made a record, a later one for the binding is a conflict of Tasks exactly when its Task differs from the one recorded, an omitted `constraints` read as none; else a conflict of roots exactly when its root differs; else it is answered with the record, by the state that has come to |
| `Intents.FirstBeginRecords` | `src/daemon/intents.ts:546-564` | the first `begin` makes the record, field by field, under a launch id never handed out, and is to launch it |
| `Intents.MalformedBeginIsRefused` | `src/daemon/intents.ts:537-542` | a malformed `begin` is refused by its first malformed field and changes nothing |
| `Intents.ManagerKeyIff` | `src/daemon/intents.ts:168` | a manager key is 64 small hexadecimal digits |
| `Intents.IdempotencyKeyIff` | `src/daemon/intents.ts:204-208` | an idempotency key is 1 to 128 letters, digits and four signs |
| `Intents.FailureCodeIff` | `src/daemon/intents.ts:170` | which failure codes pass |
| `Intents.FailurePhaseIff` | `src/daemon/intents.ts:171` | which failure phases pass |
| `Intents.ChildIff` | `src/daemon/intents.ts:249-263` | what an observation of a child may say, bound by bound |
| `Intents.MarkEffectingWrites` | `src/daemon/intents.ts:581-583` | the record it may move, exactly what it writes, and that nothing changes otherwise |
| `Intents.RecordChildrenWrites` | `src/daemon/intents.ts:585-588` | the same, with children that hold for every name the last value ever given for each field |
| `Intents.CompleteWrites` | `src/daemon/intents.ts:590-593` | the same for completion |
| `Intents.FailWrites` | `src/daemon/intents.ts:595-624` | failed exactly when the effect is certainly absent and no child was ever named, unresolved as uncertain otherwise, and given codes replace old ones |
| `Intents.ReconcileWrites` | `src/daemon/intents.ts:626-642` | completed exactly when every child is bound or lost and there is one; the dispositions are kept in any case |
| `Intents.SweepWrites` | `src/daemon/intents.ts:657-680` | an effecting record becomes unresolved as interrupted, of unknown certainty unless one was noted |
| `Intents.UnsureEffectReplays` | `src/daemon/intents.ts:515-534` | the input on which it was not granted: the write lands, the call reports a failure, and the retry is answered `replay` |
| `Intents.IntentStore.Begin` | `src/daemon/intents.ts:537-579` | new state and reply for a fresh, a conflicting, a resumed, an unresolved and a replayed key, and for malformed input |
| `Intents.IntentStore.Transition` | `src/daemon/intents.ts:515-534` | one locked read, check of identity and state, and rewrite |
| `Intents.IntentStore.MarkEffecting` | `src/daemon/intents.ts:581-583` | only a recorded launch becomes effecting |
| `Intents.IntentStore.RecordChildren` | `src/daemon/intents.ts:585-588` | children are merged into an effecting record only |
| `Intents.IntentStore.Complete` | `src/daemon/intents.ts:590-593` | an effecting record is completed with its merged children |
| `Intents.IntentStore.Fail` | `src/daemon/intents.ts:595-624` | `failed` only with certainty `absent` and no children, `unresolved` otherwise |
| `Intents.IntentStore.Reconcile` | `src/daemon/intents.ts:626-642` | an unresolved record is completed once every child is bound or provably lost |
| `Intents.IntentStore.RecoverInterrupted` | `src/daemon/intents.ts:657-680` | the sweep of one manager or of all, and exactly the records it reports |
| `Canonical.CanonicalTextReads` | `src/daemon/intents.ts:225-232` | read by an independent reader of sections 4, 5 and 7 of RFC 8259, the canonical text gives back the value up to key order, and the reader stops right behind it |
| `Canonical.QuotedTextReads` | `src/daemon/intents.ts:228` | the string form reads back to the string, escapes, surrogate pairs and lone surrogates included |
| `Canonical.UnitIsWrittenShortest` | `src/daemon/intents.ts:228` | of all texts that read as a unit it is written as one of the shortest, but that a surrogate standing alone is escaped |
| `Canonical.EscapesAreSmall` | `src/daemon/intents.ts:228` | escapes have small digits |
| `Canonical.CanonicalTextDecidesEquality` | `src/daemon/intents.ts:225-232` | two values have the same canonical text exactly when they are equal with key order forgotten |
| `Canonical.TaskTextDecidesTask` | `src/daemon/intents.ts:244-247` | in whatever order their fields arrive, two launch Tasks have the same pre-hash text exactly when they are equal with an omitted `constraints` read as the empty list |
| `Canonical.TaskObjectIs` | `src/daemon/intents.ts:244-247` | the digested object: four fields always, six where they are given, each under its name |
| `Canonical.DeclaredOrderPresents` | `src/daemon/intents.ts:244-247` | a Task with its fields in declared order is one of those presentations |
| `JsText.SortedSetIsSorted` | `src/daemon/intents.ts:227-229` | sorting by UTF-16 code units gives each key once, ascending |
| `JsText.BelowIff` | `src/daemon/intents.ts:227-229` | one string sorts below another exactly when it is a proper prefix or has the smaller code unit where they first differ |
| `Durable.Directory.WriteIntent` | `src/daemon/intents.ts:424-468` | at every snapshot of the write a crash finds the whole old or the whole new record, and once it has returned the new one |
| `Durable.Directory.WriteEventFile` | `src/daemon/mailbox.ts:627-669` | at every snapshot a crash finds an existing final file as it was or a whole new one; a collision writes nothing |
| `Durable.CrashMidWrite` | `src/daemon/intents.ts:424-486` | power lost after any operation leaves the written name among its allowed contents, every other listed name as it was, and no temporary name in the listing |
| `Durable.TempIsNeverListed` | `src/daemon/mailbox.ts:572-611` | a leftover temporary file is neither listed nor counted |
| `Durable.ListedIff` | `src/daemon/intents.ts:480` | what is listed are the names that end in `.json` |
| `Mailbox.RunKeepsOnePlaceIff` | `src/daemon/mailbox.ts:892-1012` | over any run, interleaved retries included: in every state every id that ever landed is in exactly one place (one unread, one acknowledged or pruned) exactly when every write that lands has an id not seen before |
| `Mailbox.OnePlaceIffNoneLandsTwice` | `src/daemon/mailbox.ts:892-1012` | from the empty namespace that is so exactly when no two steps of the run land the same id |
| `Mailbox.GapsCanLandTwice` | `src/daemon/mailbox.ts:913-942` | the runs in which a held gap lands in two mailboxes: a fault behind a retry's link and then a move, and, without any fault, two retries that overlap around a move |
| `Mailbox.WriteKeepsOnePlace` | `src/daemon/mailbox.ts:717-754` | a write keeps that exactly when its id is new or does not land |
| `Mailbox.RecordedAgainChangesNothing` | `src/daemon/mailbox.ts:872-888` | what a recorded write persisted is found again, unread or handled, and not written twice |
| `Mailbox.OrderlyRunConserves` | `src/daemon/mailbox.ts:913-942` | with minted ids, and retries that go one after another, each to its end with a writable status record and no fault behind the link, whatever else comes between their steps: every event is in one place, and a pending gap has not landed unless its retry is about to clear it |
| `Mailbox.WriteAddsOrCounts` | `src/daemon/mailbox.ts:717-754` | a run event adds one file or raises exactly one loss count by one, and does just one of the two, exactly unless a fault strikes between the committing link and the return |
| `Mailbox.WriteAnswers` | `src/daemon/mailbox.ts:410-754` | which answer a write gives: no room for one file more, already there, a fault, or persisted |
| `Mailbox.LandedShows` | `src/daemon/mailbox.ts:405-751` | a write that landed shows whether a mailbox, or all of them together, is full |
| `Mailbox.RefusedShows` | `src/daemon/mailbox.ts:680-695` | a refused one shows degraded and is held or counted, with the times of the first loss and the last |
| `Mailbox.UnwritableShowsNothing` | `src/daemon/mailbox.ts:696-699` | where the status record cannot be written it stays as it is |
| `Mailbox.AckShows` | `src/daemon/mailbox.ts:405-707` | an acknowledgement shows whether one is full and leaves the losses and held gaps |
| `Mailbox.MoveShows` | `src/daemon/mailbox.ts:405-707` | so does a move |
| `Mailbox.FaultAfterLinkCountsALandedFile` | `src/daemon/mailbox.ts:632-669` | the input on which both happen |
| `Mailbox.GapIsHeldOrCounted` | `src/daemon/mailbox.ts:678-700` | a refused gap is held or counted, never dropped |
| `Mailbox.HeldGapStaysIff` | `src/daemon/mailbox.ts:808-818` | a held gap stays held in a step exactly unless another gap of the mailbox is refused and held, an older one is held again by its retry, or a clear writes back what it had read without it |
| `Mailbox.HeldGapStaysOverRunIff` | `src/daemon/mailbox.ts:678-700` | so over any run it is held throughout exactly when no step is one of these |
| `Mailbox.GapsCanBeDropped` | `src/daemon/mailbox.ts:808-818` | the run in which a clear drops a gap held after its retry landed, which is then neither held, counted nor on disk |
| `Mailbox.MovePlanSplits` | `src/daemon/mailbox.ts:820-852` | a move plan splits into moved, already there and lost |
| `Mailbox.ReplayedPlanEndsTheSame` | `src/daemon/mailbox.ts:820-852` | a plan cut short anywhere and replayed ends in the same files and reports the same losses |
| `Mailbox.MoveCountsExactlyTheLost` | `src/daemon/mailbox.ts:820-852` | a move ends in the closed form of its plan, and the source's loss count rises by exactly the ids found on neither side |
| `Mailbox.WriteRespectsCaps` | `src/daemon/mailbox.ts:405-417` | no write takes a mailbox over 500 files or 8 MiB, or all of them over 5,000 files |
| `Mailbox.OnlyMovesExceedCaps` | `src/daemon/mailbox.ts:717-754` | a mailbox that is not over a cap goes over it only by a move into it |
| `Mailbox.NoWriteLandsWhileOver` | `src/daemon/mailbox.ts:717-754` | no write lands in a mailbox that is over a cap |
| `Mailbox.OverBecauseOfAMove` | `src/daemon/mailbox.ts:820-852` | a mailbox found over a cap was put there by some move of the run and has been over it ever since |
| `Mailbox.RunStaysBounded` | `src/daemon/mailbox.ts:1025-1038` | in every reachable state, moves and crashes included, at most 5,000 unread files in all; and per mailbox at most 1,000 acknowledged, and one more for each acknowledgement cut short since one last went through |
| `Mailbox.RunRetainsIff` | `src/daemon/mailbox.ts:992-996` | over any run, a mailbox has at most 1,000 acknowledged files throughout exactly when no acknowledgement of a new id is cut short before its first pruning while it holds the full thousand |
| `Mailbox.CutAckStaysIff` | `src/daemon/mailbox.ts:992-996` | a cut acknowledgement keeps to 1,000 exactly when it acknowledges nothing new, or there is room, or it came to prune at all |
| `Mailbox.CutAckLeavesOneTooMany` | `src/daemon/mailbox.ts:992-996` | the input on which a crash between the rename and the pruning leaves 1,001 |
| `Mailbox.PruningKeepsTheNewest` | `src/daemon/mailbox.ts:1025-1038` | pruning keeps the 1,000 largest ids |
| `Mailbox.SecondAckAnswers` | `src/daemon/mailbox.ts:981-1002` | a second ack answers already-acked exactly when fewer than 1,000 newer acknowledged ids were there before the first; otherwise the event was pruned by its own ack |
| `Mailbox.OldEventIsPrunedByItsAck` | `src/daemon/mailbox.ts:981-1002` | the state on which the second ack finds nothing |
| `Mailbox.CrowdedIsReached` | `src/daemon/mailbox.ts:981-1002` | the run that reaches this state |
| `Mailbox.Mailboxes.ScanCounts` | `src/daemon/mailbox.ts:572-611` | the loops over directories and entries count files and bytes per mailbox and in all |
| `Mailbox.Mailboxes.RecordFailure` | `src/daemon/mailbox.ts:678-700` | a failure is counted or its gap held, once |
| `Mailbox.Mailboxes.PersistEvent` | `src/daemon/mailbox.ts:717-754` | the caps, the no-overwrite write and the loss account in one section |
| `Mailbox.Mailboxes.WriteRecordedEvent` | `src/daemon/mailbox.ts:872-888` | a journaled event already on disk is not written again |
| `Mailbox.Mailboxes.CheckLaunchCapacity` | `src/daemon/mailbox.ts:944-954` | a launch is refused exactly at a cap, and no file or account changes |
| `Mailbox.Mailboxes.BeginRetry` | `src/daemon/mailbox.ts:914-918` | a retry takes the gap that the status record holds when it is read |
| `Mailbox.Mailboxes.LookUnread` | `src/daemon/mailbox.ts:926-930` | the first unlocked look for the copy of a held gap, and the second in `LookAcked` |
| `Mailbox.Mailboxes.LookAcked` | `src/daemon/mailbox.ts:926-930` | the look among the acknowledged files |
| `Mailbox.Mailboxes.WriteHeldGap` | `src/daemon/mailbox.ts:934-935` | the locked write of a gap found nowhere |
| `Mailbox.Mailboxes.ReadHeldGaps` | `src/daemon/mailbox.ts:808-812` | the first half of clearing: what is held is read |
| `Mailbox.Mailboxes.ClearHeldGap` | `src/daemon/mailbox.ts:812-814` | the second half: what was read is written back without this mailbox |
| `Mailbox.Mailboxes.MoveUnread` | `src/daemon/mailbox.ts:820-852` | the loop over a plan, its outcome lists and its counted losses |
| `Mailbox.Mailboxes.PruneAcked` | `src/daemon/mailbox.ts:1025-1038` | the sorted excess is removed |
| `Mailbox.Mailboxes.Ack` | `src/daemon/mailbox.ts:981-1002` | an unread event is acknowledged and the excess pruned; otherwise already-acked or not found |
| `Close.CollectAffected` | `src/close.ts:50-91` | on every topology, cyclic ones included, the search ends with no repeats in exactly the affected keys (what hangs below the target, then up to each unvisited parent all of whose children are in), and flags exactly flawed input and a climb that runs in a circle |
| `Close.AffectedIsLeast` | `src/close.ts:65-89` | on every topology the affected keys hold the target, are closed under children, and lie in every set that is also closed under emptied containers |
| `Close.ForestAffectedIsLeast` | `src/close.ts:65-89` | on a forest they are closed under emptied containers too, so they are the least such set, and only flaws are flagged |
| `Close.Visit` | `src/close.ts:66-74` | the depth-first search visits what it reaches, each key once, and reports the node first |
| `Close.Climb` | `src/close.ts:76-89` | the upward loop gathers exactly what the climb from its starting point gathers, and says whether it met a visited parent |
| `Close.DirectChildrenAre` | `src/close.ts:33-43` | direct children are exactly the nodes that name the parent, and listed nodes |
| `Close.RefersIff` | `src/close.ts:36` | a node names its parent by id, or by kind, colon and id |
| `Close.ListedAreChildren` | `src/close.ts:38-41` | a listed child that is there is a direct child, by the first node with its id |
| `Close.ParentIsFirst` | `src/close.ts:45-48` | the lookup of a parent finds the first node named, and an empty name finds none |
| `Close.SetIsSmallerIffRepeats` | `src/close.ts:61` | the set-size test says that a child is listed twice |
| `Close.ValidateClose` | `src/close.ts:93-106` | allowed exactly when the input is not malformed and no affected key is the caller's; the ids reported are the affected ones, once each |
| `Close.ProtectedIff` | `src/close.ts:97-101` | what is protected: the pane, tab and workspace of the caller, as far as known |
| `Close.FlawedIff` | `src/close.ts:50-64` | a topology is flawed by a key given twice, a parent named but absent, or a child listed twice or absent |
| `Close.MapKeepsLast` | `src/close.ts:53-57` | the map holds the last node given under each key |
| `Close.RootIs` | `src/close.ts:64` | a close is judged on the node given, or on the bare target |
| `Close.AffectedIsTheCascade` | `src/close.ts:50-91` | on a forest the affected keys are exactly what closing the target and then removing emptied containers, in any order, takes away |
| `Close.AllowedCloseSparesCaller` | `src/close.ts:93-106` | an allowed close of a node on a forest, with any cascade of removals after it, never removes the caller's pane, tab or workspace |
| `Close.RefusedIff` | `src/close.ts:93-106` | on a forest a close of a node is refused exactly when the topology is flawed or a finished cascade takes something of the caller's, with the matching code |
| `Close.SnapshotIsForest` | `src/close.ts:129-149` | a topology with distinct non-empty ids, whatever their form, in which no parent is named by a text that is some node's key and depth grows from parents to children, is a forest |
| `Close.TabSnapshotIsForest` | `src/close.ts:140-149` | where every tab names a workspace and every pane a tab, what the tab planner builds is such a topology |
| `Close.PlainCloseSparesCaller` | `src/close.ts:129-149` | on every topology with distinct non-empty ids and no parent named by a key, panes under panes and circles of panes included, an allowed close of a node spares every caller through any cascade |
| `Close.CascadeStaysIff` | `src/close.ts:65-89` | on every topology, no cascade of removals takes anything unaffected exactly when no container is left behind with all of its children affected |
| `Close.SparesEveryCallerIff` | `src/close.ts:93-106` | on every topology without empty ids, an allowed close spares every caller through any cascade exactly when the input is malformed, so that none is allowed, or no container is left behind emptied |
| `Close.ListedOnlyChildEscapes` | `src/close.ts:45-48` | the inputs on which it does not: a workspace lists its only tab, which names no parent; closing the tab is allowed to a caller whose workspace then goes |
| `Close.SharedIdEscapes` | `src/close.ts:45-48` | the same from a snapshot: a workspace and a tab of another workspace share an id, and closing the only pane of that tab is allowed to a caller whose tab and workspace then go |
| `Close.KeyTextIsInjective` | `src/close.ts:29-31` | kind and id can be read off a key |
| `Client.ChunkingNeverMatters` | `src/daemon/client.ts:125-142` | however a stream is cut into chunks, the socket ends as if it had come at once |
| `Client.StreamMeansItsLines` | `src/daemon/client.ts:125-142` | any cutting is processed as its lines, one after another up to the first failure, and a bounded rest; overlong lines fail whether or not their end has come |
| `Client.CuttingsAgree` | `src/daemon/client.ts:125-142` | two cuttings of one text end alike |
| `Client.EachRequestSettlesOnce` | `src/daemon/client.ts:205-232` | over any run, a request is waiting or has exactly one settlement, and on a closed socket it has one |
| `Client.RepliesSettleTheirRequest` | `src/daemon/client.ts:175-187` | over any run, on an open and acknowledged socket, a reply resolves its waiting request with its result and a failure refuses it with its code, and nothing else changes |
| `Client.SettlementsHaveCauses` | `src/daemon/client.ts:94-232` | over any run, however the text was cut: every result came from a reply line for the request, every refusal from a failure line, every timeout from its deadline, and every drop from the closing with that reason |
| `Client.StrangeLinesClose` | `src/daemon/client.ts:125-188` | an overlong or unreadable line, or one no daemon sends, closes the socket and drops every waiting request, in order; a blank line is nothing |
| `Client.HandshakeLine` | `src/daemon/client.ts:153-171` | the daemon's version opens the socket exactly when it is the client's, and which failure anything else is |
| `Client.EventsDo` | `src/daemon/client.ts:190-232` | what a request, a deadline and each way of closing do |
| `Client.StartIs` | `src/daemon/client.ts:94-123` | a socket starts open and waiting unless its hello cannot be written |
| `Client.BytesAreEncoded` | `src/daemon/client.ts:129` | the measure of a line is the number of its bytes under section 3 of RFC 3629 |
| `Client.RunIsSound` | `src/daemon/client.ts:94-232` | ids are unique, waiting and settled ids are disjoint and are all that was handed out, a closed socket has no pending request, and the handshake and its promise agree |
| `Client.EventFollows` | `src/daemon/client.ts:190-202` | no settlement is ever withdrawn or changed, and nothing moves a closed socket |
| `Client.LateRepliesChangeNothing` | `src/daemon/client.ts:175-187` | over any run, the line of a reply whose request has settled, or was never made, changes nothing |
| `Client.NothingResolvesBeforeTheHandshake` | `src/daemon/client.ts:153-171` | over any run, until the handshake is acknowledged no request is resolved or refused by the daemon |
| `Client.IdTextIsInjective` | `src/daemon/client.ts:207` | counted ids never coincide |
| `Client.DaemonClientSocket.IngestChunk` | `src/daemon/client.ts:125-142` | the framing loop |
| `Client.DaemonClientSocket.ConsumeLine` | `src/daemon/client.ts:145-188` | one parsed line before and after the handshake |
| `Client.DaemonClientSocket.FailWith` | `src/daemon/client.ts:190-202` | closing rejects every pending request, once |
| `Client.DaemonClientSocket.Send` | `src/daemon/client.ts:205-232` | a request: refused when closed, rejected when it cannot be encoded, failed when the write throws |
| `Jobs.RunIsValid` | `src/job-registry.ts:1258-1309` | in every reachable state, teardown included: the gate is open exactly before cancellation and settlement, the activity count is the number of unreleased handles, settled means ended with exactly one terminal event (none for a cancelled wait), and every drain observed was true unless teardown forced it |
| `Jobs.RunFollows` | `src/job-registry.ts:1366-1391` | over every interleaving the phase and the fence never go back, terminal fields are written once, and after the gate closes progress and review never change and no activity opens |
| `Jobs.EndHasCause` | `src/job-registry.ts:1454-1485` | over any run, the end of a settled job has its cause with every field as that calls for: the outcome, match and reason of the answer its runner came back with, or `failed` with its code and partial result, or what a cancel call had seen |
| `Jobs.ConcludeDoes` | `src/job-registry.ts:1454-1485` | a running job whose runner is back is settled by its answer; any other only notes once that it came late |
| `Jobs.FinishDoes` | `src/job-registry.ts:1761-1765` | a waiting cancel call settles an unsettled job by the drain it saw |
| `Jobs.OthersDo` | `src/job-registry.ts:1366-1391` | what each other step changes, and that it changes nothing else |
| `Jobs.CancelledIsQuietIff` | `src/job-registry.ts:1739-1766` | in every run, teardown included, in which a cancel call settles `cancelled`: that call saw a drain, and from that wake on the job is quiet exactly when its runner has by then returned or been turned back; only teardown lets a drain be seen before that |
| `Jobs.CancelledMeansQuiet` | `src/job-registry.ts:1739-1766` | so without teardown a cancel call that settles `cancelled` found the runner done with no activity open, and in every later state that is still so |
| `Jobs.TeardownFakesTheDrain` | `src/job-registry.ts:1769-1781` | the run in which teardown makes a waiting cancel call report `cancelled` over a live runner |
| `Jobs.AbandonedMeansTornDown` | `src/job-registry.ts:1769-1781` | only teardown forces the runner's flag |
| `Jobs.JobRecord.Settle` | `src/job-registry.ts:1300-1309` | the one settlement gate: nothing when settled, otherwise fence, phase and terminal fields together |
| `Jobs.JobRecord.BeginRun` | `src/job-registry.ts:1439-1445` | the runner starts only from `accepted` with the gate open |
| `Jobs.JobRecord.RunnerIsDone` | `src/job-registry.ts:1446-1453` | the runner's flag is set once the runner has returned or was turned back |
| `Jobs.JobRecord.TearDown` | `src/job-registry.ts:1769-1781` | teardown closes the gate of an unsettled job, forces the flag and names its reason |
| `Jobs.JobRecord.ConcludeRun` | `src/job-registry.ts:1454-1485` | a fulfilled or rejected runner settles a running job, and is recorded as late otherwise |
| `Jobs.JobRecord.UpdateProgress` | `src/job-registry.ts:1489-1502` | progress is taken only while running behind an open gate |
| `Jobs.JobRecord.BeginActivity` | `src/job-registry.ts:1373-1376` | an activity opens only behind an open gate |
| `Jobs.JobRecord.ReleaseActivity` | `src/job-registry.ts:1377-1382` | a handle counts down once |
| `Jobs.JobRecord.PublishReview` | `src/job-registry.ts:1384-1389` | review ownership is taken only for a running wait behind an open gate |
| `Jobs.JobRecord.AskToCancel` | `src/job-registry.ts:1742-1758` | the gate closes before the request shows; a live supervised child refuses it |
| `Jobs.JobRecord.LookAgain` | `src/job-registry.ts:1722-1731` | a waiting cancel call looks once more whether the runner is done with no activity open |
| `Jobs.JobRecord.FinishCancel` | `src/job-registry.ts:1761-1765` | `cancelled` after an observed drain, `unknown` with its error otherwise, nothing when settled |
| `Bindings.ExactMeansBound` | `src/job-registry.ts:1509-1637` | with any publications prepared, committed, rolled back and published in any order, there is a target exactly in the exact stage, a committed publication put it there, and an AGY child is there only through a committed strengthening |
| `Bindings.ExactShowsWhatWasAsked` | `src/job-registry.ts:1573-1609` | over any run, an exact binding shows the pane, the agent kind and the point that one exact preparation of the run asked for |
| `Bindings.ProvisionalIsPrepared` | `src/job-registry.ts:1509-1530` | when a provisional binding is prepared, and every field of it |
| `Bindings.ExactIsPrepared` | `src/job-registry.ts:1573-1609` | when an exact binding is prepared, and every field of it |
| `Bindings.PreparationsAreRefused` | `src/job-registry.ts:1509-1609` | which preparation is refused with what |
| `Bindings.UsesDo` | `src/job-registry.ts:1610-1637` | what a commit, a rollback and a publication show, mark and refuse |
| `Bindings.OneCommitPerStage` | `src/job-registry.ts:1610-1618` | while every rollback undoes the publication that the request shows, of all publications prepared from one stage at most one is committed at a time, and the commits lead up to the present stage |
| `Bindings.ExactShutsOut` | `src/job-registry.ts:1573-1618` | once exact, nothing prepares and nothing commits until a rollback |
| `Bindings.LastInFirstOutRestores` | `src/job-registry.ts:1531-1548` | publications used last in, first out leave the request exactly as they found it, whatever was refused on the way |
| `Bindings.CommitMeetsItsBindingIff` | `src/job-registry.ts:1610-1618` | in every held state of every run, an accepted commit replaces the view its publication was prepared from exactly when that was the reserved stage or the provisional binding committed and shown now is for the same child |
| `Bindings.CommitSincePreparationIff` | `src/job-registry.ts:1610-1618` | the same by events: exactly when no commit or rollback went through since the preparation, or the last that did put the same child there |
| `Bindings.StageAloneMissesAReplacement` | `src/job-registry.ts:1610-1618` | the run in which it does not: a strengthening prepared from a replaced provisional binding still commits |
| `Bindings.StepHoldsIff` | `src/job-registry.ts:1619-1627` | in every valid state, a step ends in a stage that a committed publication holds exactly when it is an accepted commit, a rollback that does not undo a strengthening whose provisional binding is no longer committed, or any other step from such a stage |
| `Bindings.UnstrandedIsHeld` | `src/job-registry.ts:1619-1627` | a run without a rollback of that kind ends in a held stage |
| `Bindings.OutOfOrderRollbackStrandsAStage` | `src/job-registry.ts:1619-1627` | the run in which rolling back out of order leaves a stage that no publication holds |
| `Bindings.SupervisorRequest.PrepareProvisionalBinding` | `src/job-registry.ts:1509-1530` | every refusal, and the publication prepared |
| `Bindings.SupervisorRequest.PrepareExactBinding` | `src/job-registry.ts:1573-1609` | every refusal, and the publication prepared |
| `Bindings.SupervisorRequest.CommitPublication` | `src/job-registry.ts:1610-1618` | refused when committed, closed or stale; otherwise the request shows the publication |
| `Bindings.SupervisorRequest.PublishPublication` | `src/job-registry.ts:1628-1635` | refused when uncommitted, stale or not what the supervisor has installed; otherwise published, once |
| `Bindings.SupervisorRequest.RollBackPublication` | `src/job-registry.ts:1619-1627` | the request shows what the publication was prepared from |
| `Bounds.JsonBytesOfCharacters` | `src/job-registry.ts:482-484` | the JSON text of a string costs two quotes and what each code point costs |
| `Bounds.BytesAreEncoded` | `src/job-registry.ts:482-484` | the measure of a text is the number of its bytes under section 3 of RFC 3629, a lone surrogate as U+FFFD |
| `Bounds.GreedyIsLongest` | `src/job-registry.ts:490-501` | taking characters while the budget lasts gives the longest code-point prefix whose JSON text fits |
| `Bounds.FitFits` | `src/job-registry.ts:490-501` | a bound of two or more is met, a text that fits is unchanged, the result is a prefix, and fitting twice is fitting once |
| `Bounds.FitJsonString` | `src/job-registry.ts:490-501` | the binary search finds that prefix |
| `Bounds.CapsAreEnough` | `src/job-registry.ts:516-549` | the field and list caps alone keep the review's text at or under 3,394 bytes |
| `Bounds.EvictionNeverStarts` | `src/job-registry.ts:537-547` | so the eviction loop is never entered |
| `Bounds.EvictionConserves` | `src/job-registry.ts:537-547` | were it entered, kept plus omitted would still add up, and it would end within the total or empty |
| `Bounds.ReviewConserves` | `src/job-registry.ts:524-536` | the lists kept are bounded prefixes, and kept plus omitted is the source plus what was omitted before, saturating at 2^53-1 |
| `Bounds.ReviewByField` | `src/job-registry.ts:524-536` | the first 6 covered and 8 explicit entries, each text the longest fitting prefix of its tail within 128 or 64 bytes, and the counts left out, saturating |
| `Bounds.SafeCountIff` | `src/job-registry.ts:509` | a count is a whole number from 0 to 2^53-1 |
| `Bounds.DigitsRead` | `src/job-registry.ts:482-484` | a number is written in decimal digits that come to it, without leading zeros |
| `Bounds.EvictOneDrops` | `src/job-registry.ts:537-547` | an eviction drops the last entry of the list whose last entry has the longer JSON text |
| `Bounds.ReviewIsIdempotent` | `src/job-registry.ts:516-549` | bounding a bounded review changes nothing |
| `Bounds.BoundedSemanticReview` | `src/job-registry.ts:516-549` | the whole function with its loop returns the capped review, or refuses a malformed time |
| `Gate.RepairsAreBounded` | `src/handoff-gate.ts:378-389` | across hosts, restarts and failed writes, at most one repair token per artifact version and at most eight in all |
| `Gate.VersionCountsNewContent` | `src/handoff-gate.ts:349-362` | the version never drops and rises by one exactly when different content is written |
| `Gate.AcceptedWasTaken` | `src/handoff-gate.ts:349-375` | over any run, what a validation carries is content that the sidecar took at that version |
| `Gate.LockDoes` | `src/handoff-gate.ts:349-362` | a validation that succeeds carries the reading at the version the sidecar then has, stale exactly for old content in an open cycle |
| `Gate.FailedLockDoes` | `src/handoff-gate.ts:327-368` | a refused reading is concluded at once, and a write that did not land cleanly is unavailable |
| `Gate.FinishDoes` | `src/handoff-gate.ts:369-375` | what the second half shows, closes and concludes |
| `Gate.BindDoes` | `src/handoff-gate.ts:284-308` | a binding shows the sidecar, and is in an open cycle exactly while nothing was ever accepted |
| `Gate.RepairDoes` | `src/handoff-gate.ts:378-389` | when a version is fenced and a token handed out |
| `Gate.LifecycleDoes` | `src/handoff-gate.ts:267-274` | what an outcome, a mark and a teardown write and show |
| `Gate.OnlyNewContentCloses` | `src/handoff-gate.ts:323-376` | an open cycle ends only when this host finishes accepting content that was new to the sidecar |
| `Gate.OpenUntilNewContent` | `src/handoff-gate.ts:323-376` | over any run, whatever other hosts do, the cycle is still open or this host has accepted new content |
| `Gate.SameContentIsStale` | `src/handoff-gate.ts:350-355` | while the cycle is open, the sidecar's own content presented again is stale |
| `Gate.NewContentClosesIff` | `src/handoff-gate.ts:349-375` | new content closes an open cycle by its second presentation at the latest, exactly unless its first write landed and reported an error |
| `Gate.UnsureContentNeverCloses` | `src/handoff-gate.ts:349-375` | after such a write no run in which only that content is presented ever closes the cycle |
| `Gate.BegunCycleHoldsIff` | `src/handoff-gate.ts:323-376` | after `beginCycle`, no run lets the host accept old content before new content exactly when no acceptance of old content was in flight as the cycle began; one that is so accepted closes the cycle |
| `Gate.CycleLostInFlight` | `src/handoff-gate.ts:349-375` | the run in which a cycle begun between the locked section and its return is lost |
| `Gate.TeardownKeepsOutcomeIff` | `src/handoff-gate.ts:417-424` | teardown leaves a settled lifecycle alone exactly when the host has seen it settled |
| `Gate.AgreesOverRunIff` | `src/handoff-gate.ts:417-424` | over any run, a host's view of the lifecycle agrees with the sidecar throughout exactly when no change of it is another host's, or lands and reports an error, or passes a validation in flight |
| `Gate.AgreedTeardownKeepsOutcomes` | `src/handoff-gate.ts:417-424` | over a run without such a change, the teardown of a host marks only a run still awaiting its handoff |
| `Gate.InFlightMirrorOverwritesOutcome` | `src/handoff-gate.ts:417-424` | with one host and every write landed, an outcome recorded past a validation in flight is lost to teardown |
| `Gate.StaleMirrorOverwritesOutcome` | `src/handoff-gate.ts:417-424` | the run in which the teardown of one host overwrites the outcome another recorded |
| `Gate.GateOnlyNarrows` | `src/handoff-gate.ts:170-178` | a gated condition needs an acceptance and a finished raw status; the completed and terminal conditions agree but for blocked work |
| `Gate.HandoffRun.OpenCycle` | `src/handoff-gate.ts:323-325` | the cycle is open, and nothing else changes |
| `Gate.HandoffRun.ValidateLocked` | `src/handoff-gate.ts:327-368` | reading, comparing and accepting under the lock, failures included |
| `Gate.HandoffRun.ValidateFinished` | `src/handoff-gate.ts:369-375` | the verdict and the cycle after the lock |
| `Gate.HandoffRun.RecordOutcome` | `src/handoff-gate.ts:267-274` | an outcome replaces the lifecycle state and its detail, and leaves the artifact alone |
| `Gate.HandoffRun.Repair` | `src/handoff-gate.ts:378-389` | a token only after its fence is persisted |
| `Artifact.ParsesIff` | `src/handoff.ts:1027-1056` | a text is accepted with this run and these bodies exactly when it has one marker line, the expected one, before the first heading, the six headings in order, and legal bodies |
| `Artifact.LayoutParses` | `src/handoff.ts:1027-1056` | the documented layout, with any plain text around the marker, parses back to exactly its trimmed bodies |
| `Artifact.AcceptedHasTheLayout` | `src/handoff.ts:1027-1056` | the layout of an accepted text, constructed |
| `Artifact.LevelTwoIff` | `src/handoff.ts:972-1036` | a heading passes for level two exactly when it is two hashes and a space, or one hash, another blank and a space |
| `Patterns.HeadingIff` | `src/handoff.ts:972` | a line is a heading of a name exactly when the group of the pattern captures it, the blanks before it taken greedily and the name lazily |
| `Patterns.MarkerIff` | `src/handoff.ts:973` | a marker line is one that the marker pattern matches once it is trimmed |
| `Patterns.PlaceholderIff` | `src/handoff.ts:974` | a placeholder is brackets around no closing one, two dots or more, or one of five words in any letter case |
| `Patterns.NoneIff` | `src/handoff.ts:975` | `none` in any letter case |
| `Patterns.EntryIff` | `src/handoff.ts:1053` | an entry is a dash, blanks and something that is not blank |
| `Text.BlankIff` | `src/handoff.ts:972-1053` | the blanks are the 25 characters of ECMA-262 |
| `Artifact.TabbedLevelOnePasses` | `src/handoff.ts:972-1036` | a level-one heading that passes for level two |
| `Artifact.ParseHandoffArtifact` | `src/handoff.ts:1027-1056` | the parser with its index lists and loops, every refusal in order |
| `Artifact.CheckChanges` | `src/handoff.ts:1051-1054` | the changes list: None, or entries only and at least one |
| `Cutting.PlacesDelimit` | `src/handoff.ts:1033-1047` | slicing between the indexes of the headings is cutting there |
| `Cutting.ComposeCuts` | `src/handoff.ts:1033-1047` | there is one way to cut a text at its headings |
| `Text.SplitOfJoin` | `src/handoff.ts:1029` | splitting at newlines undoes joining lines that hold none |
| `Ranking.RankingIsAPermutation` | `src/routing-policy.ts:294-322` | every point is ordered or excluded with its reasons, once |
| `Ranking.BestOfEachProviderFirst` | `src/routing-policy.ts:305-319` | first one best point per provider in rank order, then the rest in rank order |
| `Ranking.FittestComeFirst` | `src/routing-policy.ts:305-319` | in both parts the fitter comes first, and of equals the one whose id sorts first; each provider's first is its fittest |
| `Ranking.TiersAdmit` | `src/routing-policy.ts:65-75` | which cost and latency classes each tier admits |
| `Ranking.ExclusionsSayWhy` | `src/routing-policy.ts:296-304` | an excluded point is listed with exactly the bounds it exceeds, cost first, in the order of ids |
| `Ranking.RankingForgetsInputOrder` | `src/routing-policy.ts:294-322` | the result does not depend on the order of the input |
| `Ranking.OrderedAreWithinTier` | `src/catalog.ts:614-617` | the ordered points are those the catalog admits to the tier |
| `Ranking.EnvelopesAgree` | `src/routing-policy.ts:65-82` | the two tests of the envelope agree, and a stronger tier admits no less |
| `Ranking.RankFallbackCandidates` | `src/routing-policy.ts:294-322` | the loops compute that order and those exclusions |
| `Sorting.OrderIsUnique` | `src/routing-policy.ts:305` | where all members compare there is one sorted order, whatever algorithm sorts |
| `Routing.SkippingAgreesWithProbing` | `src/router.ts:320-349` | skipping quotas already found exhausted gives the chain and the exclusions of probing every candidate, where the answer depends on the quota alone |
| `Routing.GeneratedPointsDecideByKey` | `src/availability.ts:599-651` | for generated points with fixed records and clock the answer does depend on the quota alone |
| `Routing.GeneratedWalkIsProbing` | `src/router.ts:320-349` | so for generated points the walk is the full probe |
| `Routing.BareFilterIff` | `src/router.ts:326-342` | the walk keeps what a bare filter on usability keeps exactly when no candidate is usable behind an earlier one that showed its runner limited |
| `Routing.OneFailureSilencesTheRunner` | `src/router.ts:326-342` | the catalog and the log on which it does not: one transport failure of a model, and another model of the runner, of which nothing is recorded, is left out |
| `Routing.WalkDivides` | `src/router.ts:319-343` | whatever the gate, a walk without a fault makes each candidate available or newly excluded, not both, and each list has the given order |
| `Routing.AdmittedRoute` | `src/router.ts:280-380` | whatever the gate, chain and exclusions have the authored order without repeats, and the selected point comes first; each authored candidate lands in exactly one of the two exactly when no operating point was asked for, or the one asked for was the only one available |
| `Routing.AuthoredIff` | `src/router.ts:280` | an id is authored exactly when a tier from the start up has it in its chain |
| `Routing.AuthoredByTier` | `src/router.ts:280` | of two authored ids the one that a weaker tier has comes first, and of one tier the earlier in its chain |
| `Routing.SelectedIsFirst` | `src/router.ts:350` | an unpinned route selects the first authored candidate that is not excluded |
| `Routing.StartRank` | `src/router.ts:276-279` | the start by ranks: the floor, a request up to one above it, or what recovery demands: the prior tier after a provider limit, one above it after any other failure |
| `Routing.RouteAnswers` | `src/router.ts:284-314` | when a route is refused before any candidate is tried, and with what |
| `Routing.WalkedAnswers` | `src/router.ts:327-380` | what the walk leads to, abstention by abstention, and the point that is offered |
| `Routing.AllLocalIff` | `src/router.ts:345-346` | nothing available is a transport failure exactly when no quota was found exhausted |
| `Routing.FaultIsOfACandidate` | `src/router.ts:326-334` | a fault is that of a candidate that was not skipped |
| `Routing.LastPointIsFound` | `src/router.ts:273` | the last point with an id is the one looked up |
| `Routing.PinnedDropsAnother` | `src/router.ts:350-365` | the input on which one lands in neither: two can start and the second is asked for |
| `Routing.AdmittedIsProbed` | `src/router.ts:315-365` | under the gate in use, the chain and the exclusions are those of probing every remaining candidate, and each authored candidate lands in one of the two exactly when no point was asked for or probing keeps only one |
| `Routing.RecoveryLeavesTheProvider` | `src/router.ts:290-299` | a recovery never selects the provider that failed |
| `Routing.EffectiveStartIsBounded` | `src/routing-policy.ts:45-49` | the start is at least the floor and the recovery minimum, and at most one tier above the floor unless the minimum says more |
| `Routing.GeneratedQuota` | `src/catalog.ts:434-459` | a generated point carries the quota key that its runner and model are admitted under |
| `Routing.QuotaIdentityIsInjective` | `src/router.ts:252-255` | different quota keys have different identities, as no field holds a NUL |
| `Routing.IdsTellPointsApartIff` | `src/catalog.ts:449-460` | ids tell generated points apart exactly when no bare model name reads as another model with one of its settings |
| `Routing.HaikuCollides` | `src/catalog.ts:449-460` | the catalog, sound by its own checks, on which they do not: a bare `haiku:high` beside `haiku` with the setting `high` |
| `Routing.ExhaustedIff` | `src/availability.ts:616-649` | known-exhausted exactly with an active quota failure of this key; a retry time is the latest of the active signals and lies ahead |
| `Routing.StatusIff` | `src/availability.ts:616-649` | the status is the first of exhausted, locally limited and degraded that the key's records show, with their times in numbers |
| `Routing.SignalIsLatest` | `src/availability.ts:616-649` | the retry time is no earlier than any signal that still counts |
| `Routing.GenerateAll` | `src/catalog.ts:449-460` | the nested loops generate those points |
| `Routing.WalkCandidates` | `src/router.ts:315-343` | the loop with its sets and lists, faults included |
| `Routing.RouteTask` | `src/router.ts:284-380` | the route from the tier chains to the selected point, with every abstention from there on |
| `Redaction.ProjectionIsClean` | `src/redaction.ts:58-97` | on every graph, cyclic or shared, the projection has no environment key over a value that holds text at any depth, and nests at most 33 containers |
| `Redaction.ProjectionHidesEnvironment` | `src/redaction.ts:58-97` | on every graph, no path of the projection through an entry under one of the six words, in any letter case, ends in a text |
| `Redaction.ProjectionKeepsTheRest` | `src/redaction.ts:74-84` | field by field and in order, what has a projection is kept exactly when its key is none of these words or no path into it ends in a text |
| `Redaction.ProjectionKeepsItems` | `src/redaction.ts:73` | items keep their places, and one without a JSON form is `null` |
| `Redaction.PartlessProject` | `src/redaction.ts:59-66` | values without parts project as JSON writes them |
| `Redaction.ListedIff` | `src/redaction.ts:6-19` | the test of a key is that of the six words in any letter case |
| `Redaction.CarriesTextIff` | `src/redaction.ts:24-29` | a value carries text exactly when some path into it ends in one |
| `Redaction.SeenIsThePath` | `src/redaction.ts:67-86` | the set added to and deleted from is always the path to the value, so a reference is marked exactly when it closes a cycle on its path, or lies below the limit |
| `Redaction.AcyclicIsNeverMarked` | `src/redaction.ts:68` | on a graph without cycles the check never fires, however much is shared |
| `Redaction.TreesProjectAsTrees` | `src/redaction.ts:58-87` | data that unfolds to a finite tree is projected as that tree |
| `Redaction.CleanDataIsUnchanged` | `src/redaction.ts:58-97` | clean data within the limit comes out unchanged |
| `Redaction.ProjectionIsIdempotent` | `src/redaction.ts:95-97` | projecting a projection again changes nothing |
| `Redaction.TaskIsUnchanged` | `src/daemon/intents.ts:244-247` | the projection with which the task digest begins is the identity on a launch Task |
| `Redaction.StrippingCleans` | `src/redaction.ts:41-56` | stripping removes every environment value, adds no text and leaves a clean record alone |
| `Redaction.StrippingHidesEnvironment` | `src/redaction.ts:41-56` | no path of a stripped record through such an entry ends in a text |
| `Redaction.StrippingKeepsTheRest` | `src/redaction.ts:41-46` | entry by entry and in order, what may stay is kept with its value stripped, and any other goes |
| `Redaction.StrippingKeepsItems` | `src/redaction.ts:42` | items keep their places, each stripped |
| `Redaction.Projector.ProjectValue` | `src/redaction.ts:58-87` | the recursion with its one mutable set, which it leaves as it found it |
| `Delta.ScrolledDeltaIsNew` | `src/transcript-delta.ts:18-30` | when the window has only scrolled, every line of the delta is new, and it is the first 100 new lines when no longer overlap misleads it |
| `Delta.DeltaIsARun` | `src/transcript-delta.ts:18-30` | on every pair of windows the delta is a run of at most 100 lines, after the longest overlap when there is one |
| `Delta.FastPathAgrees` | `src/transcript-delta.ts:20` | the fast path gives what the overlap search would |
| `Delta.AllNewsIff` | `src/transcript-delta.ts:18-30` | for every window that has only scrolled, the delta is exactly the new lines exactly when they are at most 100, no overlap is longer than the lines that stayed, and, where none stayed, the first lines differ |
| `Delta.RepeatedLineHidesNews` | `src/transcript-delta.ts:21-26` | the windows on which a repeated line makes a longer overlap and hides a new line |
| `Delta.AlignedDelta` | `src/transcript-delta.ts:18-30` | the loops compute the delta |
| `Delta.CommonPrefix` | `src/transcript-delta.ts:12-16` | the length of the common prefix |

## Left out

- `Intents.IntentStore.Begin`: does not check the launch Task against its schema, and takes the text that is hashed for the digest, the hash being injective.
- `Intents.IntentStore.Transition`: the method's write succeeds; a write that lands and then reports a failure is a step of runs only (`Intents.EffectingIsLive`), and what a crash inside a write leaves is in `Durable.Directory.WriteIntent`.
- `Intents.IntentStore.RecoverInterrupted`: reports the set of recovered records, not their order; damaged record files and the date syntax of evidence are left out.
- `Canonical.CanonicalTextReads`: JSON numbers are not values of the model, as no launch Task holds one.
- `Canonical.TaskTextDecidesTask`: the projection before hashing is the identity on a Task (`Redaction.TaskIsUnchanged`, on texts without lone surrogates).
- `Durable.CrashMidWrite`: takes every change of a directory since its last sync as possibly undone, which is weaker than most file systems are.
- `Mailbox.RunKeepsOnePlaceIff`: a retry reads one held gap when it begins; the order in which one sweep takes several is left open, and its timer is left out.
- `Mailbox.Mailboxes.PersistEvent`: the body of an event is its size; building, validating and reading bodies are left out.
- `Mailbox.Mailboxes.Ack`: the method runs to its end; an acknowledgement cut short is a step of runs only (`Mailbox.CutAckLeavesOneTooMany`).
- `Mailbox.Mailboxes.MoveUnread`: the journal of a caller that holds several mailboxes is represented by the plan it replays.
- `Close.SparesEveryCallerIff`: needs every id of the topology to be non-empty, which the reading of a snapshot enforces.
- `Client.ChunkingNeverMatters`: chunks are decoded text, so a cut inside a UTF-8 character, which the streaming decoder in front of the buffer heals, is not among the cuts; what a line parses to is a parameter.
- `Client.DaemonClientSocket.Send`: request parameters and the typed call layer above the socket are left out.
- `Jobs.JobRecord.LookAgain`: when a cancel call stops waiting is left open, so the list of waiters and the timer are not represented.
- `Jobs.CancelledMeansQuiet`: excludes teardown; `Jobs.CancelledIsQuietIff` has the condition for every run.
- `Bindings.SupervisorRequest.PublishPublication`: the comparison with the installed supervisor is a parameter.
- `Bounds.BoundedSemanticReview`: the lists and their entries are typed, so the refusals of malformed ones are left out.
- `Bounds.ReviewIsIdempotent`: takes for granted that the host package's truncation leaves a text within both its bounds alone; nothing else is assumed of it.
- `Gate.HandoffRun.ValidateLocked`: the native trace fingerprint, the watermark and the journal lines are left out, and so is the table from identities to runs; an update that fails with a foreign error is recorded as unavailable too.
- `Artifact.ParseHandoffArtifact`: reading the file and its trust checks are left out; so is the assignment text that asks for the layout.
- `Ranking.RankFallbackCandidates`: fitness values are reals, and a tier without one counts as zero.
- `Routing.RouteTask`: the reading of the model's judgments, and with it the abstentions over quality, transport, intent and tier that come before the chains, the evidence record and the compiled configuration are parameters or left out.
- `Redaction.ProjectionIsClean`: plain data only; a `toJSON` method recurses without a depth step, and finite numbers are copied.
- Locks are mutual exclusion: one locked section, or one stretch of code between awaits, is one step.
- File-system trust checks, lock processes, sockets, timers, random identifiers and hashing.
- Ownership history of a run, launching, reattaching and retiring: their members would be easy ones.
- Public job projections and listings beyond the semantic review, whose last fallbacks are never measured again.
- The tier functions over six values beyond the effective start, and the parsing of the catalog.
- Model, network and command-line transport, user interface, telemetry and notification texts.
