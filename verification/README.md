# Verified core of the collaborative AI-DLC backend

This project models, in Dafny, the parts of the repository whose correctness does
not show in any single function: protocols that interleave, git work that must
survive re-dispatch, credentials that must end on time, dispatch that must survive
park and resume, and text formats that must come back as they were written.  Each
model follows the branches, constants and error outcomes of the code, and each
main statement holds for every input, every run or every interleaving.

Check it with `dafny verify dfyconfig.toml`.

## How the parts are modelled

- **Discussion guards** (`MessageGuard`, `CreationGuard`).  Requests of
  `postMessage` and `getOrCreateDiscussion` run as interleaved atomic steps over a
  shared lock table and graph: conditional put, recheck, vertex write, completion,
  deletes, polling, clock ticks, crashes, lost replies and TTL cleanup.  One clock in
  milliseconds; rows hold whole seconds as in the code.  A request takes no step after
  its lifetime, and TTL removes only rows that have expired.
- **Git layer** (`CommitGraph`, `GitRepository`, `LaneBranch`, `FanInMerge`,
  `StageCommit`, `GitRuns`).  A commit is an id and its parents.  `GitRepository.Repo` is one
  checkout with local branches, remote-tracking refs, HEAD, an optional merge in
  progress and the remote; every git command may fail, every push is
  fast-forward-only, and other sessions may advance the remote between commands.  What
  git answers is an argument of each operation, so statements hold for all failures;
  `GitRuns` strings any calls together, with other sessions at work in between.
- **Credentials** (`CredentialSession`, `RenewalChain`, `RuntimeLeases`,
  `BedrockIam`, `InvocationAuth`).  The session is a class with the source's fields;
  `Next` says what each event does to the whole state.  Signing is ideal: a token is
  its claims and its key.  `InvocationAuth` joins the pieces: the leases that a handoff
  resolved, the session that is created from all of them or brought by the adapter of one,
  and what it still hands out.
- **Ensemble** (`Ensemble`).  One class holds a stage attempt; receipts persist across
  legs, everything else restarts.  Session outcomes, durations, lost receipt writes
  and the moment a leg is cut are chosen by an arbitrary `World`.
- **Sensors** (`DetailBudget`, `DetailShape`, `Glob`, `GlobPieces`, `ProjectScope`).
- **Environments** (`StringOrder`, `RebuildOrder`, `BaseStore`).
- **Streams and paging** (`Wrappers`, `Text`, `TerminalText`, `OutputSink`, `GitOutput`,
  `Paging`).

## Where the code and a stated promise differ

The code was kept as it is; each difference has a lemma or method with the input that
shows it, and the exact condition.

- The polling loop of `postMessage` answers without comparing payloads, and can hand
  a caller another author's message (`MessageGuard.PollingServesForeignMessage`, for any
  key and any two payloads).  It serves the caller's own message in every run exactly
  when no key arrives with two payloads (`MessageGuard.PollingServesOwnIff`).
- Git probes that fail read like missing refs.  An unanswered ancestry probe drops
  unpushed lane work, and an unread remote branch starts a lane over
  (`LaneBranch.UnansweredProbeDropsWork`, `LaneBranch.UnreadRemoteStartsOver`);
  `LaneBranch.WhatSurvives` says for every combination which heads are kept.  An unanswered
  MERGE_HEAD probe concludes without merging (`FanInMerge.ConcludesWithoutMerging`); the merged
  head is kept exactly when that probe answers (`FanInMerge.ConcludedHoldsIntentIff`).  An
  unanswered HEAD probe lets a stage exit report ok although nothing was pushed
  (`StageCommit.OkWithoutPush`; `StageCommit.DurableIff` is exact).
- A mob that is resumed in round two dispatches every support without a round-two
  receipt: exactly those that did not object (`Ensemble.ResumeDispatchesTheSilent`,
  `Ensemble.ResumedMob`).
- Session deadlines are checked before a session is prepared, so a session can end
  after the stage deadline by its preparation time (`Ensemble.LegThatOverruns`).  All
  sessions end in time exactly when preparing takes none, and within the container's life
  exactly when it takes at most the hand-off reserve (`Ensemble.SessionsEndInTimeIff`,
  `Ensemble.ContainerOutlivesSessionsIff`).
- `**/` is documented as whole path segments, but accepts any text
  (`Glob.PartOfASegment`); it means whole segments exactly when a star comes first in the
  rest of the glob (`Glob.SegmentsIff`), or behind braces that may stand for nothing
  (`Glob.SegmentsWithBracesIff`).  `*` inside braces repeats the character before it, or does
  not compile (`Glob.StarInBraces`, `Glob.CompilesIff`); braces mean their alternatives
  exactly when there is no star in them (`Glob.ListedIff`, `Glob.GlobAltsIff`).
- Project widening can depend on the order of changed paths (`ProjectScope.OrderMatters`).
  It does not exactly when every root that is left by a changed file for a root added on the
  way is affected all the same (`ProjectScope.OrderIsIrrelevantIff`), and so never while
  the changed configurations still exist (`ProjectScope.SurvivingConfigsSettleTheOrder`).
  Widening keeps every changed match exactly for configuration names without a
  directory (`ProjectScope.KeepsChangedIff`).
- Stripping terminal controls once is not always enough
  (`TerminalText.SecondPassCanStripMore`); it is exactly when no colour fragment of the
  visible text is torn apart by another one (`TerminalText.OnePassIsEnoughIff`).
- Checking a base and writing it are two steps; two racing requests can close a cycle
  (`BaseStore.RacingWritesCloseACycle`), and do exactly when each new base leads to
  the other environment (`BaseStore.RaceClosesACycleIff`).
- The other 8-bit controls, among them operating system command and device control,
  are not stripped (`TerminalText.SurvivingControlsIff`).
- The authorization ceilings are to bound an invocation's session.  A session that the
  adapter of one lease brings knows the ceiling and the end of that lease alone, while it
  hands out the variables of all (`InvocationAuth.OwnedOutlivesAnother`,
  `InvocationAuth.RenewedPastACeiling`).  No handoff is outlived exactly when no lease owns
  the session or the owning one has the least ceiling
  (`InvocationAuth.NothingPastAnyHandoffIff`), and no other lease's end exactly when no
  lease owns the session or none ends before that ceiling (`InvocationAuth.NoEndedLeaseIff`).
- An owner that releases a credential session twice disposes it under a retained
  handle (`CredentialSession.SecondOwnerReleaseDisposesEarly`;
  `CredentialSession.DisposedWithTheLastReference` is exact).

## Model

| member | source | states |
|---|---|---|
| MessageGuard.AtMostOneVertex | lambda/discussions/handlers.js:367-566 | in every interleaving with crashes, takeovers, deletes and TTL cleanup, one vertex per discussion and message id |
| MessageGuard.UniqueIffLifetimeFits | lambda/discussions/constants.js:38-56 | appends are unique in every interleaving exactly when the executor lifetime is at most the pending window |
| MessageGuard.LongerLifetimeDuplicates | lambda/discussions/constants.js:38-56 | for any longer lifetime a run that writes two vertices under one id |
| MessageGuard.ExpiredMeansDead | lambda/discussions/handlers.js:420-446 | an expired pending row belongs to a request that can take no further step |
| MessageGuard.SingleHolder | lambda/discussions/handlers.js:420-446 | two live holders of one guard are the same request |
| MessageGuard.CompleteMeetsOwnToken | lambda/discussions/data-access.js:327-352 | a live winner's completion always finds its own owner token |
| MessageGuard.RestoreDeletesOwnRow | lambda/discussions/handlers.js:448-548 | the unconditional guard delete of a live winner removes its own row and nothing else |
| MessageGuard.CompleteImpliesVertex | lambda/discussions/handlers.js:446-548 | a complete row is backed by the vertex with its author and payload, and every reply outside the polling loop serves the caller's own persisted message |
| MessageGuard.EventKeeps | lambda/discussions/handlers.js:367-566 | every enabled event keeps the guard invariant |
| MessageGuard.RunKeeps | lambda/discussions/handlers.js:367-566 | whole runs keep the guard invariant |
| MessageGuard.PollingServesForeignMessage | lambda/discussions/handlers.js:550-558 | for any key and any two payloads a run in which polling returns the other payload |
| MessageGuard.NobodyRefusedIff | lambda/discussions/handlers.js:448-535 | over all runs of a set of permitted arrivals nobody is refused as a duplicate exactly when no key is permitted with two payloads |
| MessageGuard.DuplicateMeetsAnotherPayload | lambda/discussions/handlers.js:448-535 | in every run whoever is refused as a duplicate shares its id with another payload that arrived |
| MessageGuard.PostingAlone | lambda/discussions/handlers.js:408-566 | from any state of guard and graph a request that is left alone does one atomic posting: a free guard leads to its message or its echo and a complete row, or to a refusal that gives the guard back, and a taken one to the answer that row and graph imply |
| MessageGuard.LoserEnds | lambda/discussions/handlers.js:516-566 | whoever lost the guard and finds it abandoned takes it over as that posting would, but only once |
| MessageGuard.PollerEnds | lambda/discussions/handlers.js:550-558 | the loser looks three times, and a message that is there by the third look is served |
| MessageGuard.PollingServesOwnIff | lambda/discussions/handlers.js:550-558 | over all runs of a set of permitted arrivals polling replies carry the caller's own payload exactly when no key is permitted with two payloads |
| MessageGuard.RunKeepsPermitted | lambda/discussions/handlers.js:367-566 | every vertex and every reply carries a payload that arrived under its key |
| CreationGuard.UniqueIffLifetimeFits | lambda/discussions/constants.js:38-50 | at most one thread per anchor in every interleaving, exactly for lifetimes up to and including 30 seconds |
| CreationGuard.LongerLifetimeDuplicates | lambda/discussions/handlers.js:214-301 | for any longer lifetime a run that creates two threads for one anchor |
| CreationGuard.ExpiredMeansDead | lambda/discussions/mappers.js:7 | with both sides floored to seconds, a row that is strictly past proves its writer dead, also when lifetime and window are equal |
| CreationGuard.DeleteRemovesOwnRow | lambda/discussions/handlers.js:214-301 | the unconditional delete of a live winner removes its own row and nothing else |
| CreationGuard.RepliesAgree | lambda/discussions/handlers.js:214-301 | all successful replies for one anchor name the same existing thread |
| CreationGuard.AskingAlone | lambda/discussions/handlers.js:200-301 | from any state of guard and graph a request that is left alone hands out the existing thread, or creates one and leaves no row, or is told to retry |
| CreationGuard.PrecededWinnerEnds | lambda/discussions/handlers.js:238-248 | a winner that another creator has just preceded hands that thread out and gives the guard back |
| CreationGuard.LoserEnds | lambda/discussions/handlers.js:281-300 | a loser looks three times for the thread, each of which would do, and takes an abandoned guard over once |
| CreationGuard.EventKeeps | lambda/discussions/handlers.js:214-301 | every enabled event keeps the guard invariant |
| Paging.KeyTotal | lambda/discussions/mappers.js:81-84 | the comparator orders any two keys, and strictly |
| Paging.KeyTrans | lambda/discussions/mappers.js:81-84 | the comparator is transitive |
| Paging.ToSortedSorts | lambda/discussions/mappers.js:81-84 | messages with distinct ids come out strictly ascending, and none is lost |
| Paging.RowOrderIsIrrelevant | lambda/discussions/handlers.js:324-364 | the answer does not depend on the order in which the graph returns the rows |
| Paging.RefusedIff | lambda/discussions/handlers.js:318-325 | a request is refused exactly for a cursor without two halves or for two cursors at once |
| Paging.CursorRoundTrip | lambda/discussions/mappers.js:114-119 | a printed cursor parses back exactly when both halves are non-empty and the timestamp has no comma |
| Paging.HistoryPage | lambda/discussions/handlers.js:345-360 | a history page is the last `limit` messages below the cursor, and says whether there are more |
| Paging.BackfillIsComplete | lambda/discussions/handlers.js:345-360 | following `before` cursors from any point ends and visits every older message once in order |
| Paging.WholeHistory | lambda/discussions/handlers.js:312-364 | from the seed page on a client sees exactly the discussion, in order of creation and then id, for every page size |
| Paging.ChangePage | lambda/discussions/handlers.js:335-344 | a change page is the first `limit` messages that are newer in (updatedAt, id) order |
| Paging.FollowIsComplete | lambda/discussions/handlers.js:335-344 | following `after` cursors delivers every later change once in order |
| Paging.FollowDeliversNewer | lambda/discussions/handlers.js:335-344 | following `after` cursors delivers exactly the newer messages, in order of change and then id |
| Paging.LimitGranted | lambda/discussions/handlers.js:314-316 | a requested page size is granted up to 200, and 100 stands for none |
| Paging.Limit | lambda/discussions/handlers.js:314-316 | the page size is always between 1 and 200 |
| Paging.CountUnread | lambda/discussions/mappers.js:98-112 | the early-exit loop counts min(cap, keys above the cursor) in the same order |
| CommitGraph.AncestorTransitive | lambda/agentcore/git-engine.js:1000-1030 | ancestry composes |
| CommitGraph.AncestorAntisymmetric | lambda/agentcore/git-engine.js:1000-1030 | two commits that contain each other are the same commit |
| CommitGraph.AdvancedTransitive | lambda/agentcore/git-engine.js:625-706 | fast-forward-only advances of a remote compose |
| GitRepository.PushBranch | lambda/agentcore/git-engine.js:625-706 | a pushed result has HEAD on the remote branch and took one of three tries; an empty result means no readable HEAD and no delivery; the remote only advances; a failure is named, and after a try that was sent means a remote head that does not fast-forward |
| GitRepository.Repo.PushHead | lambda/agentcore/git-engine.js:625-706 | a push moves the remote branch, as others left it, to HEAD exactly when it arrives and is a fast-forward, tells so unless its report is lost, and moves the tracking ref when it does |
| GitRepository.Repo.MergeHeadWith | lambda/agentcore/git-engine.js:1000-1091 | a merge finds its head contained, makes a commit with both parents, conflicts or does not start |
| GitRepository.Repo.Fetch | lambda/agentcore/git-engine.js:774-826 | an answered fetch makes the tracking refs those of the remote |
| GitRepository.Repo.CommitStaged | lambda/agentcore/git-engine.js:269-392 | a commit records the tree and the merge in progress on top of HEAD, or is refused |
| LaneBranch.EnsureLaneBranch | lambda/agentcore/git-engine.js:827-954 | the whole effect of a lane call: which head is chosen, what is pushed, and what every failure is called and leaves |
| LaneBranch.NeverLosesLaneWork | lambda/agentcore/git-engine.js:827-954 | a ready lane has HEAD and the remote unit branch at its sha, which contains the local and the remote head whenever they are comparable, and only a diverged local head is dropped |
| LaneBranch.WhatSurvives | lambda/agentcore/git-engine.js:827-954 | exactly when the remote and the local head survive, for every combination of answered and unanswered probes |
| LaneBranch.UnansweredProbeDropsWork | lambda/agentcore/git-engine.js:870-930 | a whole lane call that ends ready and, its ancestry probe unanswered, has dropped a commit that was strictly ahead |
| LaneBranch.UnreadRemoteStartsOver | lambda/agentcore/git-engine.js:827-954 | a whole lane call that ends ready on the intent head, its remote probe unanswered, and does not contain the remote unit head |
| LaneBranch.RedispatchIsStable | lambda/agentcore/git-engine.js:827-954 | re-dispatch ends on the remote unit head, which contains the earlier sha, and delivers nothing new |
| FanInMerge.MergeBranchNoFf | lambda/agentcore/git-engine.js:970-1091 | merged and up-to-date results have a checkout that contains both fetched heads, a merge commit has both as parents, a contained head pushes nothing, conflicts arise only from diverged heads and are listed as git lists them, and every failure is named by the first command that did not answer |
| FanInMerge.BeginConflictMerge | lambda/agentcore/git-engine.js:1105-1183 | a begun reverse merge leaves the remote alone and either contains the intent head or is merging it onto the fetched unit head; what git answers decides which, and every failure is named |
| FanInMerge.ConcludeConflictMerge | lambda/agentcore/git-engine.js:1211-1299 | only a complete resolution is committed, pushed and concluded; any obstacle is named, aborted and leaves remote and HEAD alone; a concluded merge contains the merged head exactly when the MERGE_HEAD probe answered or HEAD contained it before |
| FanInMerge.ConcludedHoldsIntentIff | lambda/agentcore/git-engine.js:1105-1299 | after a begun conflict the concluded branch holds the intent head exactly when the MERGE_HEAD probe answered; otherwise a unit branch that did not move stays diverged from it, so that RetryCannotConflict does not apply |
| FanInMerge.ConcludesWithoutMerging | lambda/agentcore/git-engine.js:1211-1299 | a begun conflict that is concluded with the unit branch as it was and the intent head not in it |
| FanInMerge.LandedMergeHoldsBothHeads | lambda/agentcore/git-engine.js:970-1091 | after a landed merge the remote intent branch contains both heads |
| FanInMerge.MergeLandsOnce | lambda/agentcore/git-engine.js:970-1091 | however far the remote advanced in between, a later call for the same unit head pushes nothing, never conflicts and answers up to date |
| FanInMerge.RetryCannotConflict | lambda/agentcore/git-engine.js:1105-1299 | after a begun and concluded reverse merge with an unmoved intent branch the next merge cannot conflict |
| GitRuns.CallAdvances | lambda/agentcore/git-engine.js:625-706 | whatever a call of the git layer does and however it fails, the remote only advances |
| GitRuns.RemoteOnlyAdvances | lambda/agentcore/git-engine.js:625-706 | over any run of these calls, with other sessions in between, a remote only advances |
| GitRuns.PushedIsKept | lambda/agentcore/git-engine.js:625-706 | what is once on a remote branch is there for the rest of the run |
| GitRuns.MergedOnceForTheRun | lambda/agentcore/git-engine.js:970-1091 | once a fan-in merge has landed, a later one of the run for the same unit head delivers nothing and cannot conflict |
| GitRuns.ReadyWorkIsKept | lambda/agentcore/git-engine.js:827-954 | the sha of a ready lane and the HEAD of an ok exit stay on the remote branch to the end of the run |
| StageCommit.CommitAll | lambda/agentcore/git-engine.js:269-392 | at most one commit, which records the whole tree; a clean verdict means a clean tree; a failure reports dirt that is there, after each of the three attempts and the one after freeing space was refused, and a failure over a recorded tree means an unacknowledged commit |
| StageCommit.NothingAheadIff | lambda/agentcore/git-engine.js:507-523 | nothing is ahead exactly when the head is contained |
| StageCommit.IsAheadOfRemote | lambda/agentcore/git-engine.js:507-523 | not ahead exactly when there is no readable HEAD or the tracking branch is known to reach all of it |
| StageCommit.CommitAndPush | lambda/agentcore/git-engine.js:1310-1419 | an ok repository has a recorded tree and, when the deciding HEAD probe answered, every commit of HEAD on the remote branch |
| StageCommit.CommitAndPushAll | lambda/agentcore/git-engine.js:1310-1419 | every repository is handled on its own; ok and committed are their conjunction and disjunction |
| StageCommit.OkMeansDurable | lambda/agentcore/git-engine.js:1310-1419 | what an ok exit promised stays durable however far the remote advances |
| StageCommit.DurableIff | lambda/agentcore/git-engine.js:1310-1419 | after an ok exit HEAD is durable exactly when the deciding HEAD probe answered, there is no HEAD, or the remote reached it before |
| StageCommit.FreshCommitIsDurableIff | lambda/agentcore/git-engine.js:1310-1419 | a fresh commit of an ok exit is durable exactly when that probe answered |
| StageCommit.OkWithoutPush | lambda/agentcore/git-engine.js:625-706 | an ok exit whose new commit is in the checkout, while the remote stayed where it was |
| StageCommit.HeadOnlyGrows | lambda/agentcore/git-engine.js:269-392 | committing never hides what HEAD reached |
| GitOutput.ParsePorcelainZ | lambda/agentcore/git-engine.js:251-267 | the index loop returns the paths of the NUL-separated fields |
| GitOutput.PorcelainRoundTrip | lambda/agentcore/git-engine.js:251-267 | a printed status list parses back to exactly its endpoints in order, also when a path looks like a status field |
| GitOutput.ParseNameStatusZ | lambda/agentcore/git-engine.js:529-543 | the index loop returns the paths of the NUL-separated rows |
| GitOutput.NameStatusRoundTrip | lambda/agentcore/git-engine.js:529-543 | a printed name-status list parses back to exactly its endpoints in order |
| CredentialSession.AbortIsPermanent | lambda/agentcore/credential-session.js:36-40 | after an abort every event sequence keeps the first reason and no timer armed |
| CredentialSession.ExpiryTimerArmed | lambda/agentcore/credential-session.js:55-65 | in every run that is not aborted and has a finite deadline the expiry timer is armed for the deadline or 1 ms after arming |
| CredentialSession.PromptTimersCancel | lambda/agentcore/credential-session.js:55-65 | when no due timer is left waiting, a session past its deadline is aborted for good |
| CredentialSession.RenewalMovesTheDeadlineAhead | lambda/agentcore/credential-session.js:109-140 | an accepted renewal re-arms strictly ahead and cannot spin |
| CredentialSession.EndsWhen | lambda/agentcore/credential-session.js:36-174 | which events end a session, under what condition and with which reason, for every state of every run |
| CredentialSession.AfterRefresh | lambda/agentcore/credential-session.js:109-140 | a refresh that comes back to a session that goes on: a good answer is taken and the main timer set for its end, any other is retried after the pause and changes nothing else |
| CredentialSession.RenewalStep | lambda/agentcore/credential-session.js:109-174 | exactly when a renewal starts and is under way, and that only an answer or the disposal changes the variables and their end |
| CredentialSession.TakingStep | lambda/agentcore/credential-session.js:141-155 | resources and handles are taken exactly while the session goes on, in order |
| CredentialSession.MainTimerAtStart | lambda/agentcore/credential-session.js:55-78 | the main timer renews ahead of the end by the margin, or cancels at the end that is the authorization's own |
| CredentialSession.CeilingHolds | lambda/agentcore/credential-session.js:96-107 | once the authorization ceiling is reached nothing is available again, whatever was or is renewed |
| CredentialSession.DisposedWithTheLastReference | lambda/agentcore/credential-session.js:141-174 | disposed exactly when the owner released more often than handles are out; for one owner release exactly when the last reference goes; what is gone are the latest resources, the latest first |
| CredentialSession.SecondOwnerReleaseDisposesEarly | lambda/agentcore/credential-session.js:156-174 | two owner releases dispose a session that a handle retains |
| CredentialSession.DisposalOnlyAdvances | lambda/agentcore/credential-session.js:156-174 | the resources of a disposed session are fixed and go one after the other, the latest first, each at most once |
| CredentialSession.EverythingIsDisposed | lambda/agentcore/credential-session.js:164-173 | once every disposer has settled all resources are gone, the latest first |
| CredentialSession.RunKeeps | lambda/agentcore/credential-session.js:36-182 | all event sequences keep timers, reference count, single-flight refresh and disposal consistent |
| CredentialSession.Session.constructor | lambda/agentcore/credential-session.js:11-35 | a new session holds one reference and has its timers scheduled |
| CredentialSession.Session.Env | lambda/agentcore/credential-session.js:88-107 | variables are handed out exactly while available, strictly before both bounds, and a refusal aborts |
| CredentialSession.Session.ScheduleTimers | lambda/agentcore/credential-session.js:55-78 | the whole effect of scheduling on both timers |
| CredentialSession.Session.StartRenewal | lambda/agentcore/credential-session.js:109-114 | a renewal under way is shared; an unavailable session is cancelled instead |
| CredentialSession.Session.RefreshComesBack | lambda/agentcore/credential-session.js:114-140 | the whole effect of a refresh that was rejected, came too late, was refused, retried or accepted |
| CredentialSession.Session.OnTimer | lambda/agentcore/credential-session.js:67-77 | the main timer renews or cancels, and only when due |
| CredentialSession.Session.OnExpiryTimer | lambda/agentcore/credential-session.js:61-64 | the expiry timer cancels when due |
| CredentialSession.Session.Own | lambda/agentcore/credential-session.js:141-144 | a resource is taken only while available |
| CredentialSession.Session.Retain | lambda/agentcore/credential-session.js:145-155 | a new handle and one more reference, only while available |
| CredentialSession.Session.ReleaseByOwner | lambda/agentcore/credential-session.js:156-174 | one reference less, and disposal at zero |
| CredentialSession.Session.ReleaseHandle | lambda/agentcore/credential-session.js:147-154 | a handle releases once however often it is called |
| RenewalChain.VerifyInvertsSign | lambda/shared/agent-credential-grants.js:171-226 | a signed token verifies to what was signed exactly when key, audience and times agree |
| RenewalChain.SignableIff | lambda/shared/agent-credential-grants.js:25-138 | exactly which claims are signed: named, one binding a backend, of this space, of the version of their bindings; they are signed as they are, bindings in provider order |
| RenewalChain.VerifyIff | lambda/shared/agent-credential-grants.js:171-226 | for any token at all: taken exactly if this key signed such claims for this audience, no longer than the lifetime, begun within the skew and not over; and which of them have expired |
| RenewalChain.NormalizedIsStable | lambda/shared/agent-credential-grants.js:76-138 | normalizing signed claims again changes nothing, so tokens keep verifying |
| RenewalChain.LoadsIff | lambda/credential-broker/agent-provider-registry.js:138-166 | loading succeeds exactly when all providers are valid and no two clash, and the registry answers for all of them |
| RenewalChain.BuildRegistry | lambda/credential-broker/agent-provider-registry.js:138-166 | the load-time loop computes that registry or stops at the first refusal |
| RenewalChain.LoadedIsSound | lambda/credential-broker/agent-provider-registry.js:138-166 | in a loaded registry every renewal action has its own audience, none the grants' |
| RenewalChain.RenewalCanBeSigned | lambda/credential-broker/agent-credential-renewal.js:12-22 | every version 2 binding of a verified grant can be given its renewal token |
| RenewalChain.RenewalOpensIff | lambda/credential-broker/agent-credential-renewal.js:24-38 | a token opens a renewal exactly if it verifies under the action's policy for one version 2 connection that the action's provider owns, and is not for a check |
| RenewalChain.GrantOpensIff | lambda/credential-broker/agent-provider-registry.js:227-286 | a grant opens exactly if it verifies and, when it is for a check, its connection's owner verifies connections |
| RenewalChain.NormalizesIff | lambda/shared/agent-credential-lease.js:5-43 | a lease is valid exactly with positive safe times and, when it can be renewed, with both of them in order |
| RenewalChain.AdapterGives | lambda/credential-broker/agent-provider-registry.js:115-125 | an adapter may answer material and its end, alone or in a lease, but no renewal and no ceiling |
| RenewalChain.ComposedResolve | lambda/credential-broker/agent-credential-renewal.js:42-71 | a resolved lease ends at issuedAt plus the policy lifetime, its material no later, with a token only when there is material |
| RenewalChain.ComposedLater | lambda/credential-broker/agent-credential-renewal.js:42-71 | a renewed lease keeps the presented token and its claims' end; a verification lease carries none |
| RenewalChain.HandoffFixesTheCeiling | lambda/credential-broker/agent-provider-registry.js:227-274 | the first lease of a renewable connection carries a token for that binding that ends at (issuedAt + ttlSeconds) × 1000 |
| RenewalChain.RenewalKeepsTheCeiling | lambda/credential-broker/agent-credential-renewal.js:24-71 | a renewal under whatever is then deployed keeps token and ceiling and happens only before the ceiling |
| RenewalChain.RenewalAcceptedIff | lambda/credential-broker/agent-credential-renewal.js:12-38 | a renewal token is honoured exactly when audience and owner match, the deployed lifetime covers the token's and its time is not over |
| RenewalChain.RenewalServes | lambda/credential-broker/agent-provider-registry.js:177-196 | a renewal that opens is served until the sooner of the material's expiry and the ceiling |
| RenewalChain.TokenHasOneUse | lambda/credential-broker/agent-provider-registry.js:238-254 | a token opens one action only: grants never renew, renewal tokens never resolve |
| RenewalChain.VerificationIsNotRenewable | lambda/credential-broker/agent-provider-registry.js:255-286 | a connection check ends with its grant within five minutes and carries no renewal |
| RenewalChain.ChainKeepsTheCeiling | lambda/credential-broker/agent-credential-renewal.js:40-71 | along any chain of renewals token and ceiling are the handoff's |
| RenewalChain.HandoffBoundsEveryLease | lambda/credential-broker/agent-provider-registry.js:177-196 | from handoff to the last renewal every lease is bounded by (issuedAt + ttlSeconds) × 1000 |
| RuntimeLeases.LeaseHolder.Prepare | lambda/agentcore/credential-lease-adapters.js:41-82 | ready exactly when every lease with material is unexpired and adaptable; the bounds are the earliest over all leases |
| RuntimeLeases.LeaseHolder.Refresh | lambda/agentcore/credential-lease-adapters.js:84-117 | all leases are replaced together or none, no reply moves a ceiling, and ready exactly when all came and are good |
| RuntimeLeases.RenewedIff | lambda/agentcore/credential-lease-adapters.js:84-117 | an entry is renewed exactly by a reply to this invocation about its binding alone, and keeps its boundary; one that cannot be renewed stays |
| RuntimeLeases.ReadyIff | lambda/agentcore/credential-lease-adapters.js:41-82 | ready exactly when all material is adaptable and neither its end nor its boundary has come |
| RuntimeLeases.RenewedKeepsCeilings | lambda/agentcore/credential-lease-adapters.js:106-112 | renewed entries keep binding and authorization boundary, in order |
| RuntimeLeases.RenewedStaysUnder | lambda/agentcore/credential-lease-adapters.js:89-112 | a genuine renewal leaves the entry under the same handoff token |
| RuntimeLeases.RefreshMany | lambda/agentcore/credential-lease-adapters.js:84-117 | over any number of refreshes the session is given the first authorization boundary |
| BedrockIam.HandedOutInTime | lambda/agentcore/bedrock-iam.js:82-91 | in every run a credential that is handed out has not ended and the ceiling is not reached |
| InvocationAuth.OpensIff | lambda/agentcore/credential-lease-adapters.js:84-150 | a session opens exactly if every lease is good and adaptable, no two own it, and an owning one is authorized and brings a credential beyond now |
| InvocationAuth.SessionSettings | lambda/agentcore/http-server.js:278-287 | how far ahead the session renews and whether it can, with and without an owning lease |
| InvocationAuth.RefusedRenewalEnds | lambda/agentcore/credential-lease-adapters.js:84-117 | the invocation's own session does not survive a renewal that is refused or brings leases that are not good |
| InvocationAuth.HandoffSetsTheCeiling | lambda/credential-broker/agent-provider-registry.js:227-274 | a lease that came from a handoff bounds its entry at (issuedAt + ttlSeconds) × 1000 |
| InvocationAuth.AfterKeeps | lambda/agentcore/credential-lease-adapters.js:84-117 | through any events and replies the ceilings stay, and where no lease owns the session its end is the earliest of the leases behind its variables |
| InvocationAuth.VariablesAreKept | lambda/agentcore/credential-lease-adapters.js:119-150 | an owned session keeps the variables that it started with, made from all leases as they first came, through all its renewals, and ends no later than its credential |
| InvocationAuth.UsableIff | lambda/agentcore/credential-session.js:96-107 | after any events and replies variables are handed out exactly while the session is not cancelled and now is ahead of its bounds: those of all leases behind the variables, or those of the owning lease alone |
| InvocationAuth.OwnedNothingFromIff | lambda/agentcore/bedrock-iam.js:44-59 | an owned session hands out nothing from some time on, in any run, exactly when that time is not before the owning lease's ceiling |
| InvocationAuth.NothingPastAHandoffIff | lambda/agentcore/http-server.js:270-287 | from a handoff's ceiling on nothing is handed out in any run exactly when no lease owns the session or the owning one has no later ceiling |
| InvocationAuth.NothingPastAnyHandoffIff | lambda/agentcore/http-server.js:270-287 | no handoff's ceiling is outlived in any run exactly when no lease owns the session or the owning one's handoff is the first to end |
| InvocationAuth.UsableUntilTheLeastHandoff | lambda/agentcore/http-server.js:270-287 | where all leases came from handoffs, their ceilings and the leases' ends decide, or the owning one's ceiling and the session's end |
| InvocationAuth.NoEndedLeaseIff | lambda/agentcore/credential-lease-adapters.js:119-150 | variables of a lease that has ended are handed out in no run exactly when no lease owns the session or no other lease ends before the owning one's ceiling |
| InvocationAuth.RenewedPastACeiling | lambda/agentcore/bedrock-iam.js:70-81 | while all leases are good an owned session renews its credential beyond another lease's ceiling, and then still hands out that lease's variables |
| InvocationAuth.OwnedOutlivesAnother | lambda/agentcore/credential-lease-adapters.js:119-150 | two leases, one owning the session for eight hours and another for one hour, whose variables are handed out at its ceiling |
| InvocationAuth.NoCredentialPastItsHandoff | lambda/agentcore/bedrock-iam-material.js:12-24 | the session that owns an inference credential hands out none from its handoff's ceiling on |
| InvocationAuth.OwnedCredentialInTime | lambda/agentcore/bedrock-iam.js:82-91 | in the invocation's own runs a credential is handed out only ahead of its end and of its handoff's ceiling |
| InvocationAuth.InvocationContext.Common | lambda/agentcore/http-server.js:278-287 | without an owning lease the session is created from what was prepared of all leases |
| InvocationAuth.InvocationContext.Owned | lambda/agentcore/credential-lease-adapters.js:119-150 | with one the session is the adapter's, under that lease's ceiling and with the variables of all |
| InvocationAuth.InvocationContext.RefreshReturns | lambda/agentcore/credential-lease-adapters.js:84-117 | the whole effect of the brokers' replies on leases and session, owned or not |
| InvocationAuth.InvocationContext.Env | lambda/agentcore/credential-session.js:88-107 | variables exactly while the session is available |
| InvocationAuth.Resolve | lambda/agentcore/credential-lease-adapters.js:84-150 | a session exactly when the leases are ready, at most one of them owns it, and an owning one is authorized and brings a good credential |
| BedrockIam.RunKeeps | lambda/agentcore/bedrock-iam.js:44-91 | the cached credential always outlasts the session's own expiry, because renewals start only near its end |
| BedrockIam.RenewsNearTheEnd | lambda/agentcore/bedrock-iam.js:70-91 | a request starts a renewal exactly with five minutes left or less, and an answer is taken exactly with more |
| BedrockIam.IamSession.RequestCredential | lambda/agentcore/bedrock-iam.js:82-88 | asks for a renewal exactly when the cached credential has at most five minutes left |
| BedrockIam.IamSession.HandOut | lambda/agentcore/bedrock-iam.js:89-91 | the second assertion decides what is handed out |
| BedrockIam.IamSession.TakeBrokerAnswer | lambda/agentcore/bedrock-iam.js:70-80 | the old credential stays until the new one is validated |
| Ensemble.RoundComesBackIff | lambda/agentcore/ensemble-runner.js:123-130 | the round is readable from the ordinal exactly for positions below the base |
| Ensemble.OrdinalsAreUnique | lambda/agentcore/ensemble-runner.js:123-130 | on every admitted topology (round, position) and ordinal determine each other |
| Ensemble.StageDeadline | lambda/agentcore/ensemble-runner.js:113-120 | the earlier of the leg's budget and the container's life less the hand-off reserve |
| Ensemble.NeverAgain | lambda/agentcore/ensemble-runner.js:1149-1153 | once an ordinal has its receipt no later session and no later receipt is for it, in any leg |
| Ensemble.OverrunIsPreparation | lambda/agentcore/ensemble-runner.js:742-780 | a session ends after the deadline by no more than preparing takes |
| Ensemble.SessionsEndInTimeIff | lambda/agentcore/ensemble-runner.js:742-780 | over all worlds that prepare within p, every session ends by the deadline exactly when p is zero |
| Ensemble.ContainerOutlivesSessionsIff | lambda/agentcore/ensemble-runner.js:92-120 | and no session outlives the container exactly when p is at most the hand-off reserve |
| Ensemble.LegThatOverruns | lambda/agentcore/ensemble-runner.js:742-790 | a leg whose first session ends p after the deadline, for every p |
| Ensemble.Stage.RunPersona | lambda/agentcore/ensemble-runner.js:733-790 | at most two sessions of this role and ordinal, a second one only after a failure and fewer only when the next does not fit; ok exactly when the last of them succeeded |
| Ensemble.Stage.Serve | lambda/agentcore/ensemble-runner.js:951-985 | a persona's receipt says gapped exactly when none of its sessions succeeded |
| Ensemble.Stage.PutReceipt | lambda/agentcore/ensemble-runner.js:669-688 | a receipt is added for an ordinal that has none, or its write is lost |
| Ensemble.Stage.DispatchSupports | lambda/agentcore/ensemble-runner.js:1133-1255 | exactly the targets without a receipt for the round are dispatched, each once, the first of them at once; exactly those that gapped are listed |
| Ensemble.Stage.IntegrateAndTriage | lambda/agentcore/ensemble-runner.js:1098-1128 | rounds stay within two and integrations within the rounds that are left; undisturbed it leaves the receipts of the objectors' second round |
| Ensemble.Stage.TriageDissent | lambda/agentcore/ensemble-runner.js:1102-1124 | another round exactly when some support objects and a round is left, and then for those that object; whoever gaps in it is listed |
| Ensemble.Stage.RunHubAndSpoke | lambda/agentcore/ensemble-runner.js:993-1131 | a leg integrates at most as often as rounds are left and first dispatches whoever lacks the current round's receipt; undisturbed it leaves exactly the receipts of its rounds |
| Ensemble.Stage.RunPipeline | lambda/agentcore/ensemble-runner.js:906-989 | a pipeline leg that ends leaves every link with a receipt or a lost write, and adds exactly the names of those that gapped |
| Ensemble.ReceiptsTell | lambda/agentcore/ensemble-runner.js:733-780 | in any history a receipt speaks of at most two sessions just before it, of which the last succeeded exactly when it says done |
| Ensemble.ReceiptsInWorld | lambda/agentcore/ensemble-runner.js:733-780 | in terms of the world: a leg's receipt says done exactly when its last session succeeds there, and where nobody succeeds everybody gaps |
| Ensemble.Stage.RestoreGaps | lambda/agentcore/ensemble-runner.js:823-836 | exactly the gaps of earlier legs reach the evidence of this leg |
| Ensemble.Stage.RunLeg | lambda/agentcore/ensemble-runner.js:792-884 | a leg keeps the receipt discipline however it ends, runs one session at a time, dispatches nobody when receipts cannot be read, and lists exactly who gapped: in a pipeline in it or before, else in it, apart from the integrator |
| Ensemble.RunLegs | lambda/agentcore/ensemble-runner.js:792-900 | any number of legs, each cut anywhere, keep one orderly history whose receipts are exactly the kept ones and whose sessions are those of the legs' worlds and deadlines |
| Ensemble.LatestOf | lambda/agentcore/ensemble-runner.js:1012-1019 | the round is the greatest of all receipts' rounds, or one |
| Ensemble.LatestIsAdmitted | lambda/agentcore/ensemble-runner.js:1012-1019 | on an admitted topology that maximum is within two, and above one only for a mob |
| Ensemble.MissingIff | lambda/agentcore/ensemble-runner.js:1150-1153 | a leg first dispatches exactly the supports without a receipt for its round |
| Ensemble.ResumeDispatchesTheSilent | lambda/agentcore/ensemble-runner.js:1012-1128 | after an undisturbed leg of a mob with objectors, a resumed leg dispatches exactly the supports that did not object |
| Ensemble.ResumedMob | lambda/agentcore/ensemble-runner.js:1012-1128 | the two legs: whoever did not object is dispatched for round two by the second |
| DetailBudget.AccountIsExact | lambda/agentcore/sensor-runner.js:391-429 | the constant-time account is the UTF-8 length of the JSON text that is stored |
| DetailBudget.QuoteReads | lambda/agentcore/sensor-runner.js:405-429 | a quoted string reads back by section 7 of RFC 8259, whatever follows it |
| DetailBudget.FewestBytes | lambda/agentcore/sensor-runner.js:405-429 | a character counts as the fewest bytes of UTF-8 whose payload holds it |
| DetailBudget.DecimalReads | lambda/agentcore/sensor-runner.js:405-429 | numbers are written in base ten without leading zeros |
| DetailBudget.SummarizedDetailByteLength | lambda/agentcore/sensor-runner.js:405-429 | the running property count amounts to the closed form of the account |
| DetailBudget.GroupResults | lambda/agentcore/sensor-runner.js:437-466 | one group a key in first-seen order with the exact number of its failures and its first five files; all results are grouped or kept |
| DetailBudget.KeysAreDistinct | lambda/agentcore/sensor-runner.js:444-455 | every failure has its key and no key has two groups |
| DetailBudget.IncludeWhenBounded | lambda/agentcore/sensor-runner.js:469-500 | the loop includes exactly the entries with which the real text fits |
| DetailBudget.LastIncludedFits | lambda/agentcore/sensor-runner.js:479-500 | whatever was included last, the final text fits |
| DetailBudget.BudgetHoldsIff | lambda/agentcore/sensor-runner.js:380-511 | the stored text is within 120000 bytes for every input, except exactly a bare omission count of more than 119945 digits |
| DetailBudget.BareDetail | lambda/agentcore/sensor-runner.js:502-510 | a detail without entries takes 55 bytes and the digits of the count |
| DetailBudget.ItemsInOrder | lambda/agentcore/sensor-runner.js:462-498 | groups compete for the budget before files, each for all its files |
| DetailBudget.SummarizeFileResults | lambda/agentcore/sensor-runner.js:437-511 | represented and omitted files make up all results, and the text fits |
| DetailShape.DetailSpelled | lambda/agentcore/sensor-runner.js:498-511 | the stored detail as JSON, property by property: groups, other results and what was omitted with its reason, each if there is any |
| DetailShape.GroupSpelled | lambda/agentcore/sensor-runner.js:446-455 | a group as JSON: reason, result, exit code, stderr, number of files and samples |
| DetailShape.FileSpelled | lambda/agentcore/sensor-runner.js:457-464 | any other result as JSON, with its diagnostic if it has one |
| DetailShape.HarnessFailureIff | lambda/agentcore/sensor-runner.js:440-443 | exactly the results with one of the two harness reasons are grouped |
| DetailShape.SameKeyIff | lambda/agentcore/sensor-runner.js:444-445 | failures are grouped together exactly if they agree in reason, exit code and stderr, a missing one being the same as an empty one |
| DetailBudget.PlainText | lambda/agentcore/sensor-runner.js:391-400 | plain text is unescaped in JSON and takes two bytes more |
| Glob.GlobToRegExp | lambda/agentcore/sensor-runner.js:103-134 | the index loop emits the pattern of the glob's tokens between anchors |
| Glob.PatternReads | lambda/agentcore/sensor-runner.js:103-134 | read by section 22.2 of ECMA-262 the pattern is the intended expression, and compiles exactly when every star in braces has something to repeat |
| Glob.GlobMeans | lambda/agentcore/sensor-runner.js:103-134 | for every glob and string the compiled pattern accepts exactly what the glob's tokens denote |
| GlobPieces.GlobReads | lambda/agentcore/sensor-runner.js:103-134 | the tokens of a written glob are the pieces it was written from: letters, stars, `**/` and alternatives between commas |
| GlobPieces.EveryGlobIsWritten | lambda/agentcore/sensor-runner.js:103-134 | every glob is written from such pieces |
| GlobPieces.WrittenGlobMeans | lambda/agentcore/sensor-runner.js:103-134 | from the text of a glob to the strings its compiled pattern accepts: those that divide into one stretch for every piece |
| GlobPieces.Compile | lambda/agentcore/sensor-runner.js:103-134 | the same of the pattern that the loop returns |
| GlobPieces.Ending | lambda/agentcore/sensor-runner.js:99-101 | `**/*.{ts,tsx}` accepts every file with one of the two extensions, in any directory |
| Glob.PlainAlternation | lambda/agentcore/sensor-runner.js:115-126 | an alternation without stars denotes just its alternatives |
| Glob.ListedIff | lambda/agentcore/sensor-runner.js:115-126 | an alternation that compiles denotes just its alternatives exactly when there is no star in them |
| Glob.GlobAltsIff | lambda/agentcore/sensor-runner.js:115-126 | and denotes them as globs exactly then as well |
| Glob.CompilesIff | lambda/agentcore/sensor-runner.js:115-126 | an alternative compiles exactly without a leading or doubled star |
| Glob.StarInBraces | lambda/agentcore/sensor-runner.js:115-126 | a star in braces repeats a character instead of standing for text |
| Glob.WholeSegments | lambda/agentcore/sensor-runner.js:107-111 | whole path segments are accepted before anything that the rest of the glob accepts |
| Glob.PartOfASegment | lambda/agentcore/sensor-runner.js:107-111 | part of a segment is accepted as well |
| Glob.SegmentsIff | lambda/agentcore/sensor-runner.js:107-111 | before a rest that does not begin with braces, `**/` means whole segments exactly when the rest begins with a star |
| Glob.SegmentsWithBracesIff | lambda/agentcore/sensor-runner.js:107-126 | before any rest that leaves some character unnamed and has no line break in braces, exactly when a star comes first or behind braces that may stand for nothing |
| ProjectScope.ProjectRootOf | lambda/agentcore/sensor-runner.js:235-241 | the loop finds the owner of a file |
| ProjectScope.RootOfIsDeepest | lambda/agentcore/sensor-runner.js:235-241 | the owner is the deepest root above the file, in any order of roots |
| ProjectScope.DeepestIsUnique | lambda/agentcore/sensor-runner.js:235-241 | the deepest owner is unique |
| ProjectScope.ExpandToAffectedProjects | lambda/agentcore/sensor-runner.js:246-272 | the loops select the matches whose owner is affected once all changes are known |
| ProjectScope.ChangedIsAffected | lambda/agentcore/sensor-runner.js:255-267 | every changed file ends under an affected root although roots grow on the way |
| ProjectScope.WideningKeepsChanged | lambda/agentcore/sensor-runner.js:243-272 | widening keeps every changed match, keeps the order and is closed under project |
| ProjectScope.KeepsChangedIff | lambda/agentcore/sensor-runner.js:246-272 | no changed match is ever lost exactly when the configuration name has no directory |
| ProjectScope.DirectoryInNameLosesAChange | lambda/agentcore/sensor-runner.js:247-253 | for every name with a directory a changed match that is lost |
| ProjectScope.OrderMatters | lambda/agentcore/sensor-runner.js:255-267 | two orders of the same changes select different files |
| ProjectScope.SelectionTells | lambda/agentcore/sensor-runner.js:278-313 | what is unknown widens to every match, and what is known and complete selects, by file, just the changed matches in their order and decides applicability |
| ProjectScope.OrderIsIrrelevantIff | lambda/agentcore/sensor-runner.js:246-272 | the selection depends only on the set of changed paths exactly when every root that owns a changed file at first is affected in the end by a configuration or by a file it still owns |
| ProjectScope.SurvivingConfigsSettleTheOrder | lambda/agentcore/sensor-runner.js:246-272 | the order is irrelevant when the root of every changed configuration is already known |
| ProjectScope.NotApplicableMeansUntouched | lambda/agentcore/sensor-runner.js:278-313 | not applicable implies known provenance, complete enumeration and no changed match, and for exact scope is implied by them |
| StringOrder.LessIff | lambda/environments/fixed-tool-recipe.js:606-609 | a string is below another exactly when it ends, or has the smaller character, where they first differ |
| StringOrder.SortedAscends | lambda/environments/fixed-tool-recipe.js:606-609 | sorting gives a strictly ascending list |
| RebuildOrder.OrderRebuilds | lambda/environments/fixed-tool-recipe.js:596-625 | throws exactly when the selected bases have a cycle, and otherwise returns the lexicographically least order with every base first |
| RebuildOrder.GreedyIsLeast | lambda/environments/fixed-tool-recipe.js:610-620 | taking the least ready id each time gives the least of all orders |
| RebuildOrder.StuckMeansCycle | lambda/environments/fixed-tool-recipe.js:621-623 | environments that never become ready contain a cycle |
| RebuildOrder.OrderMeansNoCycle | lambda/environments/fixed-tool-recipe.js:621-623 | where an order exists there is no cycle |
| RebuildOrder.Drain | lambda/environments/fixed-tool-recipe.js:610-620 | the loop over the ready list produces the greedy order and stops only when nothing is ready |
| BaseStore.AssertAcyclicBase | lambda/environments/index.js:94-112 | the walk passes exactly when the chain of bases ends without meeting the id |
| BaseStore.CheckIsExact | lambda/environments/index.js:94-112 | the check passes exactly when writing the base keeps the store acyclic |
| BaseStore.WantedIff | lambda/environments/index.js:463-536 | which base a request asks for: its own or the standard one for new environments, the recipe's for known ones, none for the standard one |
| BaseStore.Handle | lambda/environments/index.js:463-536 | a request writes its base exactly when that closes no cycle, and keeps the store acyclic |
| BaseStore.RunStaysAcyclic | lambda/environments/index.js:463-536 | no sequence of atomic requests makes a cycle |
| BaseStore.RebuildNeverThrows | lambda/environments/index.js:794-813 | no reachable store makes the rebuild order throw on any selection |
| BaseStore.RacingWritesCloseACycle | lambda/environments/index.js:463-536 | any two environments created on the standard one: each request alone is written, both checked before both written close a cycle |
| BaseStore.RaceClosesACycleIff | lambda/environments/index.js:94-112 | two writes that passed their checks on one acyclic store close a cycle exactly when each new base leads to the other environment |
| TerminalText.ScanVisible | lambda/agentcore/output-normalizer.js:47-76 | the index scan drops exactly the control sequences and control characters |
| TerminalText.CharacterStays | lambda/agentcore/output-normalizer.js:47-79 | which characters come through: all but the controls, of which tab, line feed and carriage return do |
| TerminalText.CommandVanishes | lambda/agentcore/output-normalizer.js:54-64 | an operating system command vanishes up to its BEL or ESC with a backslash, and one without an end takes all that follows with it |
| TerminalText.SequenceVanishes | lambda/agentcore/output-normalizer.js:66-73 | a control sequence, opened in seven or eight bits, vanishes up to its final byte, and one without it takes all that follows with it |
| TerminalText.ColourReads | lambda/agentcore/output-normalizer.js:79-82 | every written colour fragment is taken for one, whatever follows it |
| TerminalText.FragmentIsColour | lambda/agentcore/output-normalizer.js:79-82 | and nothing else is: what is removed is a fragment with parameters of one to three digits |
| TerminalText.StrippedIsHarmless | lambda/agentcore/output-normalizer.js:47-81 | no 7-bit control but tab, line feed and carriage return survives, and no 8-bit CSI |
| TerminalText.SurvivingControlsIff | lambda/agentcore/output-normalizer.js:47-76 | the controls that can survive are exactly those three and the 8-bit ones except CSI |
| TerminalText.UntouchedIff | lambda/agentcore/output-normalizer.js:47-81 | text is unchanged exactly when it has neither controls nor colour fragments |
| TerminalText.SecondPassCanStripMore | lambda/agentcore/output-normalizer.js:78-81 | stripping is not idempotent |
| TerminalText.LeavesFragmentIff | lambda/agentcore/output-normalizer.js:78-81 | removing colour fragments leaves one exactly when one was torn apart by whole ones, which a single scan decides |
| TerminalText.OnePassIsEnoughIff | lambda/agentcore/output-normalizer.js:47-81 | a second pass changes nothing exactly when no fragment of the visible text is torn |
| OutputSink.FieldsOfMore | lambda/agentcore/output-normalizer.js:571-577 | later text only continues the last field, also between CR and LF |
| OutputSink.PrintedLinesComeBack | lambda/agentcore/output-normalizer.js:571-577 | printed lines come back whichever way each was ended |
| OutputSink.PartsIff | lambda/agentcore/output-normalizer.js:526-566 | exactly which tool parts of a line count: uses the assistant names, results the user side answers, each with an id |
| OutputSink.ResultSays | lambda/agentcore/output-normalizer.js:526-566 | a result for an open call is reported with that call and rendered, except for output that was sent already |
| OutputSink.DiagnosticSays | lambda/agentcore/output-normalizer.js:509-525 | text that is no event is emitted with its line end once it is cleaned |
| OutputSink.NothingEmpty | lambda/agentcore/output-normalizer.js:505-584 | nothing empty is ever emitted |
| OutputSink.Sink.Write | lambda/agentcore/output-normalizer.js:571-577 | complete lines are consumed in order and the rest waits |
| OutputSink.Sink.Flush | lambda/agentcore/output-normalizer.js:578-582 | what waits is consumed as the last line |
| OutputSink.Sink.ConsumeLine | lambda/agentcore/output-normalizer.js:509-568 | the log and the map of started tools stay those of the lines read |
| OutputSink.Stream | lambda/agentcore/output-normalizer.js:505-584 | for any chunking the log, the tools and the lines are those of the whole stream |
| OutputSink.SameStreamSameLog | lambda/agentcore/output-normalizer.js:505-584 | two chunkings of one stream are not distinguishable in the log |
| OutputSink.StreamReportsOncePerStart | lambda/agentcore/output-normalizer.js:526-566 | a tool id is reported at most once per start |
| OutputSink.ReportedOncePerStart | lambda/agentcore/output-normalizer.js:526-566 | an open call is one that was started and not reported yet |
| Text.SplitAtFirst | lambda/agentcore/git-engine.js:251-254 | the first separator ends the first field |

## Left out

- `assistDiscussion`, redaction, resolve and reopen: further writers of discussions; messages are taken as not redacted.
- Cryptography: SHA-256 payload hashes are injective and HMAC signatures cannot be forged; token encoding and the token size limit are not modelled.
- Clocks: all requests of a guard protocol share one clock, and an executor takes no step after its lifetime.
- `MessageGuard` and `CreationGuard`: the graph client sends a write of one request once; a write that it repeats by itself after a lost answer is not modelled.
- `MessageGuard` and `CreationGuard`: a graph lookup returns the oldest match; anchors of threads do not change.
- File contents: a working tree is clean or dirty, the scan for conflict markers is a git answer, and authors, sleeps between retries and disk healing are outside the model.
- `GitRepository.PushBranch`: a credential helper that fails after a push has arrived; the code then reports the push as failed for want of a credential, as it does for one that fails before.
- Branch deletion and forced pushes by others: a remote branch only advances.
- The provenance of changed files (`aheadFiles`) and workspace-relative paths.
- `CredentialSession`: `setTimeout` delays above 2^31 ms; a caller's own timers; promise steps between a failed refresh and the next event are one step.
- `BedrockIam`: the cached credential is not cleared on disposal, since nothing is available then; the HTTP endpoint around it is not part of the model.
- `RenewalChain`: redemption against stored connections (revocation, pinned definitions) and provider error codes; strings in claims are taken as trimmed.
- `BedrockIam`: a request that finds its credential within a minute of its end waits for the renewal; the model also lets it be answered before.
- `InvocationAuth`: brokers' replies and what is prepared of them reach the session at one time; what the adapters write into the variables, and adapters that refuse their material, are parameters or left out; a session-owning adapter is the one for inference credentials, whose decoding is a parameter; commands work on a copy of the variables and start children only while the session is available.
- `RuntimeLeases`: environment variables that adapters write, and which of several failures is reported.
- `Ensemble`: two legs of one stage at the same time; briefs, findings, dissent texts and withdrawn questions; supports have distinct references, as the plan lists them.
- `DetailBudget`: redaction happens before; details arrive as their JSON text, and `timedOut` is always present.
- `Glob`: the reader covers the syntax that can occur in emitted patterns, without flags; `RegExp` works on UTF-16 units, the model on characters.
- `RebuildOrder` and `StringOrder`: environment ids are distinct, and strings are compared by character, which differs from UTF-16 order only above the basic plane.
- `BaseStore`: builds, revisions other than the published one, and retirement, which write no base.
- `OutputSink`: JSON decoding, usage metrics and the rendering of tool calls are parameters; callbacks do not throw; the Codex, OpenCode and Kiro parsers.
- `Paging`: authorization and the fetch of rows; fractional page sizes behave as their floor.
- `lambda/agentcore/release-script-closure.js`, the gate evaluator and the receipt and environment stores are not part of this model.
- Recipe text, Dockerfiles, model precedence, route tables and the frontend: single-branch code that would only add easy members.
