/** The stage-exit hook: commit the whole tree of every repository and push what
    the remote does not have (`commitAll`, `isAheadOfRemote`,
    `commitAndPushAll`). */
module StageCommit {
  import opened CommitGraph
  import opened GitRepository
  import opened Wrappers

  // ------------------------------------------------------------- commitAll

  const COMMIT_ATTEMPTS: nat := 3

  datatype AttemptScript = AttemptScript(add: bool, status: bool, commit: CommitAnswer)

  /** `heal` is the one more attempt after a full disk freed something. */
  datatype CommitScript = CommitScript(tries: nat -> AttemptScript, heal: Option<AttemptScript>, dirtyProbe: bool)

  datatype Attempt = NewCommitMade | CleanTree | AddFailed | CommitFailed

  datatype CommitResult = DidCommit | WasClean | Failed(reason: Attempt, reportedDirty: bool)

  /** Nothing but the checked-out branch and the tree can change, and the branch
      moves by at most one commit, which records everything. */
  ghost predicate AtMostOneCommit(s: Snapshot, t: Snapshot) {
    && t.remote == s.remote && t.tracking == s.tracking && t.delivered == s.delivered && t.head == s.head
    && ((t.local == s.local && t.merging == s.merging && t.dirty == s.dirty) || OneCommit(s, t))
  }

  ghost predicate OneCommit(s: Snapshot, t: Snapshot) {
    && (s.dirty || s.merging.Some?)
    && t.head == s.head && t.head in t.local && t.local == s.local[t.head := t.local[t.head]]
    && t.local[t.head] == NewCommit(s, t.local[t.head].id)
    && t.merging == None && !t.dirty
  }

  method AttemptOnce(repo: Repo, git: AttemptScript, ghost s: Snapshot) returns (r: Attempt)
    requires AtMostOneCommit(s, repo.State())
    requires Behind(repo.State())
    modifies repo
    ensures AtMostOneCommit(s, repo.State()) && Behind(repo.State())
    ensures r.NewCommitMade? ==> OneCommit(s, repo.State())
    ensures r.AddFailed? <==> !git.add
    ensures r.CleanTree? <==> !old(repo.dirty) && FindsClean(git)
    ensures r.NewCommitMade? <==> !Refusing(git) && !r.CleanTree? && old(repo.dirty || repo.merging.Some?)
    ensures repo.dirty <==> old(repo.dirty) && (!git.add || git.commit.Refused?)
    ensures !r.NewCommitMade? && repo.State() != old(repo.State()) ==> git.add && git.commit.CommittedUnacknowledged?
    ensures old(OneCommit(s, repo.State())) ==> OneCommit(s, repo.State())
  {
    if !git.add { return AddFailed; }
    if git.status && !repo.dirty { return CleanTree; }
    var committed := repo.CommitStaged(git.commit);
    return if committed then NewCommitMade else CommitFailed;
  }

  predicate Refusing(git: AttemptScript) { !git.add || !git.commit.Committed? }

  predicate FindsClean(git: AttemptScript) { git.add && git.status }

  /** The attempts of one call, as far as it gets. */
  function Attempts(git: CommitScript): seq<AttemptScript> {
    [git.tries(1), git.tries(2), git.tries(3)] + (if git.heal.Some? then [git.heal.value] else [])
  }

  /** A new commit and a clean verdict both mean that the tree is recorded; a
      failure never claims a clean tree over uncommitted work, leaves such work
      only when every attempt was refused, and is named by the last attempt.  Work
      that a failed call did record was committed without the command saying so. */
  ghost predicate CommitSpec(s: Snapshot, t: Snapshot, git: CommitScript, r: CommitResult) {
    var all := Attempts(git);
    && AtMostOneCommit(s, t) && Behind(t)
    && (r.DidCommit? ==> OneCommit(s, t) && exists a | a in all :: !Refusing(a))
    && (r.WasClean? ==> !t.dirty && exists a | a in all :: FindsClean(a))
    && (s.dirty && !Refusing(all[0]) ==> r.DidCommit?)
    && (!s.dirty && FindsClean(all[0]) ==> r.WasClean?)
    && (r.Failed? ==>
          && r.reason == (if all[|all| - 1].add then CommitFailed else AddFailed)
          && r.reportedDirty == (!git.dirtyProbe || t.dirty)
          && (t.dirty ==> forall a | a in all :: Refusing(a))
          && (!t.dirty && s.dirty ==> exists a | a in all :: a.add && a.commit.CommittedUnacknowledged?)
          && (!t.dirty ==> FindsClean(all[|all| - 1]) ==> all[|all| - 1].commit.CommittedUnacknowledged?)
          && (!s.dirty ==> forall a | a in all :: !FindsClean(a)))
  }

  /** What attempts that neither committed nor found a clean tree leave behind. */
  ghost predicate Tried(s: Snapshot, t: Snapshot, done: seq<AttemptScript>) {
    && AtMostOneCommit(s, t) && Behind(t)
    && (done == [] ==> t == s)
    && (t.dirty ==> s.dirty && forall a | a in done :: Refusing(a))
    && (s.dirty && !t.dirty ==> exists a | a in done :: a.add && a.commit.CommittedUnacknowledged?)
    && (done != [] && s.dirty ==> Refusing(done[0]))
    && (done != [] && !t.dirty && FindsClean(done[|done| - 1]) ==> done[|done| - 1].commit.CommittedUnacknowledged?)
    && (!s.dirty ==> forall a | a in done :: !FindsClean(a))
  }

  method CommitAll(repo: Repo, git: CommitScript) returns (r: CommitResult)
    requires Behind(repo.State())
    modifies repo
    ensures CommitSpec(old(repo.State()), repo.State(), git, r)
  {
    ghost var s := repo.State();
    ghost var all := Attempts(git);
    var last := AddFailed;
    var attempt := 1;
    while attempt <= COMMIT_ATTEMPTS
      invariant 1 <= attempt <= COMMIT_ATTEMPTS + 1
      invariant Tried(s, repo.State(), all[..attempt - 1])
      invariant attempt > 1 ==> last == if all[attempt - 2].add then CommitFailed else AddFailed
    {
      last := AttemptOnce(repo, git.tries(attempt), s);
      assert git.tries(attempt) == all[attempt - 1] && all[..attempt] == all[..attempt - 1] + [all[attempt - 1]];
      if last.NewCommitMade? { return DidCommit; }
      if last.CleanTree? { return WasClean; }
      attempt := attempt + 1;
    }
    if git.heal.Some? {
      last := AttemptOnce(repo, git.heal.value, s);
      assert all == all[..3] + [git.heal.value];
      if last.NewCommitMade? { return DidCommit; }
      if last.CleanTree? { return WasClean; }
    }
    var reportedDirty := if git.dirtyProbe then repo.dirty else true;
    return Failed(last, reportedDirty);
  }

  // ------------------------------------------------------ isAheadOfRemote

  /** `rev-list --count a..b` is zero exactly when everything reachable from `b`
      is reachable from `a`, which is to say when `b` is. */
  lemma NothingAheadIff(a: Commit, b: Commit)
    ensures (forall c :: Ancestor(c, b) ==> Ancestor(c, a)) <==> Ancestor(b, a)
  {
    if Ancestor(b, a) {
      forall c | Ancestor(c, b) ensures Ancestor(c, a) { AncestorTransitive(c, b, a); }
    } else {
      AncestorOfItself(b);
    }
  }

  datatype AheadScript = AheadScript(head: bool, tracking: bool, count: bool)

  method IsAheadOfRemote(repo: Repo, branch: string, git: AheadScript) returns (ahead: bool)
    ensures !ahead <==>
              || HeadOf(repo.State()).None? || !git.head
              || (git.tracking && git.count && branch in repo.tracking
                  && forall c :: Ancestor(c, HeadOf(repo.State()).value) ==> Ancestor(c, repo.tracking[branch]))
  {
    var head := repo.RevParseHead(git.head);
    if head.None? { return false; }
    if branch !in repo.tracking || !git.tracking { return true; }
    if !git.count { return true; }
    NothingAheadIff(repo.tracking[branch], head.value);
    return !Ancestor(head.value, repo.tracking[branch]);
  }

  // ----------------------------------------------------- commitAndPushAll

  datatype ExitScript = ExitScript(commit: CommitScript, ahead: AheadScript, push: PushScript)

  datatype PushState = Landed | Neutral | UpToDate | Unpushed

  datatype RepoResult = RepoResult(committed: bool, pushed: PushState)

  predicate Ok(r: RepoResult) { !r.pushed.Unpushed? }

  /** The HEAD probe that decided: of the push, when one was due, else of the
      check that found nothing to push. */
  predicate HeadAnswered(git: ExitScript, r: RepoResult) {
    if r.pushed.UpToDate? then git.ahead.head else git.push.headAnswered
  }

  /** Everything reachable from HEAD is reachable from the remote branch. */
  ghost predicate HeadIsDurable(s: Snapshot, branch: string) {
    HeadOf(s).Some? ==>
      branch in s.remote && forall c :: Ancestor(c, HeadOf(s).value) ==> Ancestor(c, s.remote[branch])
  }

  /** One repository.  An ok result means a recorded tree and, when the deciding
      HEAD probe answered, a durable HEAD; when it went unanswered the result is
      ok although this call has pushed nothing. */
  ghost predicate ExitSpec(s: Snapshot, t: Snapshot, branch: string, git: ExitScript, r: RepoResult) {
    && Advanced(s.remote, t.remote) && Behind(t)
    && (forall c | HeadOf(s) == Some(c) :: HeadOf(t).Some? && Ancestor(c, HeadOf(t).value))
    && (Ok(r) ==> !t.dirty)
    && (Ok(r) && HeadAnswered(git, r) ==> HeadIsDurable(t, branch))
    && (Ok(r) && !HeadAnswered(git, r) ==> !r.pushed.Landed? && t.delivered == s.delivered && t.remote == s.remote)
    && (s.dirty && !Refusing(git.commit.tries(1)) ==> r.committed)
    && (r.committed && branch != "" ==> (r.pushed.Neutral? <==> !git.push.headAnswered))
    && (r.committed ==> OneCommit(s, t.(remote := s.remote, tracking := s.tracking, delivered := s.delivered)))
    && (!Ok(r) && !t.dirty && branch != "" && Sends(git.push) && HeadOf(t).Some? ==>
          || !(r.committed || (!s.dirty && git.commit.tries(1).add && git.commit.tries(1).status))
          || (branch in t.remote && !Ancestor(t.remote[branch], HeadOf(t).value)))
  }

  method CommitAndPush(repo: Repo, branch: string, git: ExitScript) returns (r: RepoResult)
    requires Behind(repo.State())
    modifies repo
    ensures ExitSpec(old(repo.State()), repo.State(), branch, git, r)
  {
    ghost var s := repo.State();
    AdvancedReflexive(repo.remote);
    var commit := CommitAll(repo, git.commit);
    ghost var u := repo.State();
    HeadOnlyGrows(s, u);
    if commit.Failed? { return RepoResult(false, Unpushed); }
    var ahead := false;
    if !commit.DidCommit? { ahead := IsAheadOfRemote(repo, branch, git.ahead); }
    if !commit.DidCommit? && !ahead {
      if git.ahead.head && HeadOf(u).Some? {
        NothingAheadIff(u.tracking[branch], HeadOf(u).value);
        AncestorTransitive(HeadOf(u).value, u.tracking[branch], u.remote[branch]);
        NothingAheadIff(u.remote[branch], HeadOf(u).value);
      }
      return RepoResult(false, UpToDate);
    }
    var push := PushBranch(repo, branch, git.push);
    if push.Pushed? { NothingAheadIff(repo.remote[branch], push.sha); }
    return RepoResult(commit.DidCommit?, if push.Pushed? then Landed else if push.Empty? then Neutral else Unpushed);
  }

  /** A commit never hides what HEAD already reached. */
  lemma HeadOnlyGrows(s: Snapshot, t: Snapshot)
    requires AtMostOneCommit(s, t)
    ensures forall c | HeadOf(s) == Some(c) :: HeadOf(t).Some? && Ancestor(c, HeadOf(t).value)
  {
    if HeadOf(s).Some? {
      var c := HeadOf(s).value;
      AncestorOfItself(c);
      if OneCommit(s, t) {
        ParentsAreAncestors(t.local[t.head]);
        assert c == t.local[t.head].parents[0];
      }
    }
  }

  method CommitAndPushAll(repos: seq<Repo>, branch: string, git: seq<ExitScript>)
    returns (ok: bool, committed: bool, results: seq<RepoResult>)
    requires |git| == |repos|
    requires forall i, j :: 0 <= i < j < |repos| ==> repos[i] != repos[j]
    requires forall i :: 0 <= i < |repos| ==> Behind(repos[i].State())
    modifies repos
    ensures |results| == |repos|
    ensures forall i :: 0 <= i < |repos| ==> ExitSpec(old(repos[i].State()), repos[i].State(), branch, git[i], results[i])
    ensures ok <==> forall i :: 0 <= i < |repos| ==> Ok(results[i])
    ensures committed <==> exists i :: 0 <= i < |repos| && results[i].committed
  {
    results := [];
    ok, committed := true, false;
    for i := 0 to |repos|
      invariant |results| == i
      invariant forall j :: 0 <= j < i ==> ExitSpec(old(repos[j].State()), repos[j].State(), branch, git[j], results[j])
      invariant forall j :: i <= j < |repos| ==> repos[j].State() == old(repos[j].State())
      invariant ok <==> forall j :: 0 <= j < i ==> Ok(results[j])
      invariant committed <==> exists j :: 0 <= j < i && results[j].committed
    {
      var r := CommitAndPush(repos[i], branch, git[i]);
      results := results + [r];
      ok := ok && Ok(r);
      committed := committed || r.committed;
    }
  }

  /** The durability promise of an ok stage exit, and its exact gap: with every
      deciding HEAD probe answered, every tree is recorded and every HEAD durable;
      and it stays durable however far the remote advances afterwards. */
  lemma OkMeansDurable(s: Snapshot, t: Snapshot, later: Snapshot, branch: string, git: ExitScript, r: RepoResult)
    requires ExitSpec(s, t, branch, git, r) && Ok(r) && HeadAnswered(git, r)
    requires later.local == t.local && later.head == t.head && Advanced(t.remote, later.remote)
    ensures !t.dirty && HeadIsDurable(later, branch)
    ensures HeadOf(s).Some? ==> OnRemote(later, branch, HeadOf(s).value)
  {
    if HeadOf(t).Some? {
      var h := HeadOf(t).value;
      NothingAheadIff(t.remote[branch], h);
      AncestorTransitive(h, t.remote[branch], later.remote[branch]);
      NothingAheadIff(later.remote[branch], h);
      if HeadOf(s).Some? { AncestorTransitive(HeadOf(s).value, h, later.remote[branch]); }
    }
  }

  lemma DurableMeansOnRemote(t: Snapshot, branch: string)
    requires HeadOf(t).Some?
    ensures HeadIsDurable(t, branch) <==> OnRemote(t, branch, HeadOf(t).value)
  {
    var head := HeadOf(t).value;
    AncestorOfItself(head);
    if OnRemote(t, branch, head) {
      forall c | Ancestor(c, head) ensures Ancestor(c, t.remote[branch]) { AncestorTransitive(c, head, t.remote[branch]); }
    }
  }

  /** An ok exit is durable exactly when the deciding HEAD probe answered, or there
      was nothing to push: no HEAD, or one that was on the remote before the call. */
  lemma DurableIff(s: Snapshot, t: Snapshot, branch: string, git: ExitScript, r: RepoResult)
    requires ExitSpec(s, t, branch, git, r) && Ok(r)
    ensures HeadIsDurable(t, branch) <==>
              HeadAnswered(git, r) || HeadOf(t).None? || (branch in s.remote && Ancestor(HeadOf(t).value, s.remote[branch]))
  {
    if HeadOf(t).Some? {
      var head := HeadOf(t).value;
      if branch in s.remote && Ancestor(head, s.remote[branch]) {
        AncestorTransitive(head, s.remote[branch], t.remote[branch]);
      }
      DurableMeansOnRemote(t, branch);
    }
  }

  /** So with a commit that is new to the remote, the answer of that probe alone
      decides whether ok means durable. */
  lemma FreshCommitIsDurableIff(s: Snapshot, t: Snapshot, branch: string, git: ExitScript, r: RepoResult)
    requires ExitSpec(s, t, branch, git, r) && Ok(r) && r.committed
    requires branch in s.remote ==> !Ancestor(NewCommit(s, t.local[t.head].id), s.remote[branch])
    ensures HeadIsDurable(t, branch) <==> HeadAnswered(git, r)
  {
    DurableIff(s, t, branch, git, r);
  }

  /** The gap is real: with the HEAD probe of the push unanswered, a stage that
      just committed new work to a repository whose remote stays put reports ok,
      and the new commit is nowhere but in the checkout. */
  method OkWithoutPush(base: Commit, never: nat -> Delivery) returns (repo: Repo, r: RepoResult)
    ensures r.committed && Ok(r)
    ensures repo.delivered == [] && repo.local.Keys == {"b"} && repo.remote == map["b" := base]
    ensures repo.local["b"].parents == [base] && !HeadIsDurable(repo.State(), "b")
  {
    repo := new Repo(map["b" := base], map["b" := base], "b", true);
    AdvancedReflexive(repo.remote);
    var commit := CommitScript((n: nat) => AttemptScript(true, true, Committed(7)), None, true);
    var git := ExitScript(commit, AheadScript(true, true, true), PushScript(false, true, true, never));
    assert !Refusing(git.commit.tries(1));
    ghost var s := repo.State();
    r := CommitAndPush(repo, "b", git);
    assert repo.local == s.local["b" := repo.local["b"]];
    if Ancestor(repo.local["b"], base) {
      ParentsAreAncestors(repo.local["b"]);
      AncestorAntisymmetric(repo.local["b"], base);
    }
    DurableIff(s, repo.State(), "b", git, r);
  }
}
