/** The fan-in merge of a lane into the intent branch, and the reverse merge that
    a conflict-resolution stage runs in the lane: `mergeBranchNoFf`,
    `beginConflictMerge` and `concludeConflictMerge`. */
module FanInMerge {
  import opened CommitGraph
  import opened GitRepository
  import opened Wrappers

  // ------------------------------------------------------- mergeBranchNoFf

  datatype MergeScript = MergeScript(
    fetch: bool, unitProbe: bool, intentProbe: bool, checkout: bool, ancestorProbe: bool,
    merge: MergeAnswer, conflictList: bool, abort: bool, headAnswered: bool, push: PushScript)

  datatype MergeResult =
    | Merged(sha: Option<Commit>)
    | UpToDate(intentHead: Commit)
    | NotMerged(reason: string, conflicts: seq<string>)

  /** Everything but pushing answers. */
  predicate MergeAnswers(git: MergeScript) {
    git.fetch && git.unitProbe && git.intentProbe && git.checkout && git.ancestorProbe
  }

  ghost predicate MergeFrame(s: Snapshot, t: Snapshot, intent: string, fetched: Refs) {
    && Advanced(s.remote, fetched) && Advanced(fetched, t.remote) && Advanced(s.remote, t.remote)
    && Behind(t)
    && (forall b | b != intent :: (b in t.local <==> b in s.local) && (b in s.local ==> t.local[b] == s.local[b]))
    && (t.delivered == s.delivered
        || (intent in t.local && t.delivered == s.delivered + [Update(intent, t.local[intent])]))
  }

  /** Both heads were fetched and the checkout is on a commit of the intent branch
      that contains both and that is the fetched intent head or one merge on it. */
  ghost predicate HoldsBoth(t: Snapshot, unit: string, intent: string, fetched: Refs) {
    && unit in fetched && intent in fetched
    && t.head == intent && intent in t.local
    && Ancestor(fetched[unit], t.local[intent]) && Ancestor(fetched[intent], t.local[intent])
    && (if Ancestor(fetched[unit], fetched[intent]) then t.local[intent] == fetched[intent]
        else t.local[intent].parents == [fetched[intent], fetched[unit]])
  }

  /** What keeps a merge from being tried. */
  function MergeObstacle(unit: string, intent: string, git: MergeScript, fetched: Refs): Option<string> {
    if unit == "" || intent == "" then Some("missing_branch")
    else if !git.fetch then Some("fetch_failed")
    else if !git.unitProbe || unit !in fetched then Some("unit_branch_missing")
    else if !git.intentProbe || intent !in fetched then Some("intent_branch_missing")
    else if !git.checkout then Some("checkout_failed")
    else None
  }

  /** Every failure has its own name, and conflicts are listed as git lists them. */
  ghost predicate MergeNamed(t: Snapshot, unit: string, intent: string, git: MergeScript, r: MergeResult, fetched: Refs) {
    var obstacle := MergeObstacle(unit, intent, git, fetched);
    if obstacle.Some? then r == NotMerged(obstacle.value, [])
    else if Ancestor(fetched[unit], fetched[intent]) then (git.ancestorProbe ==> r.UpToDate?)
    else if !Comparable(fetched[unit], fetched[intent]) && git.merge.ConflictIn? && git.merge.paths != [] && git.conflictList then
      r == NotMerged("merge_conflict", git.merge.paths) && (git.abort ==> t.merging == None)
    else if git.merge.Clean? then Pushing(intent, git.push, r)
    else !r.UpToDate? && (r.NotMerged? ==> r.conflicts == [] && (r.reason == "merge_failed" || Pushing(intent, git.push, r)))
  }

  predicate Pushing(intent: string, push: PushScript, r: MergeResult) {
    r.NotMerged? ==> r == NotMerged(if push.headAnswered && !push.credential then "credential_unavailable" else "push_failed", [])
  }

  ghost predicate MergeSpec(s: Snapshot, t: Snapshot, unit: string, intent: string,
                            git: MergeScript, r: MergeResult, fetched: Refs) {
    && MergeFrame(s, t, intent, fetched) && MergeNamed(t, unit, intent, git, r, fetched)
    && (r.Merged? ==>
          && HoldsBoth(t, unit, intent, fetched) && OnRemote(t, intent, t.local[intent])
          && r.sha == (if git.headAnswered then Some(t.local[intent]) else None))
    && (r.UpToDate? ==>
          && HoldsBoth(t, unit, intent, fetched) && t.local[intent] == fetched[intent] && r.intentHead == fetched[intent]
          && t.delivered == s.delivered)
    && (unit in fetched && intent in fetched && Ancestor(fetched[unit], fetched[intent]) ==>
          && t.delivered == s.delivered
          && (unit != "" && intent != "" && MergeAnswers(git) ==> r.UpToDate?))
    && (r.NotMerged? && r.conflicts != [] ==>
          && r.reason == "merge_conflict"
          && unit in fetched && intent in fetched && !Comparable(fetched[unit], fetched[intent])
          && Lookup(t.local, intent) == Some(fetched[intent]) && t.delivered == s.delivered
          && (git.abort ==> t.merging == None))
    && (r.NotMerged? && r.conflicts == [] && unit != "" && intent != "" && MergeAnswers(git) && git.merge.Clean?
        && git.push.headAnswered && Sends(git.push) ==>
          || unit !in fetched || intent !in fetched
          || (HoldsBoth(t, unit, intent, fetched) && intent in t.remote && !Ancestor(t.remote[intent], t.local[intent])))
  }

  /** The last step: the merged checkout is pushed to the intent branch. */
  method PushMerged(repo: Repo, intent: string, unit: string, git: MergeScript, ghost s: Snapshot)
    returns (r: MergeResult)
    requires Behind(repo.State()) && intent != ""
    requires HoldsBoth(repo.State(), unit, intent, repo.remote)
    requires MergeFrame(s, repo.State(), intent, repo.remote) && repo.delivered == s.delivered
    modifies repo
    ensures MergeFrame(s, repo.State(), intent, old(repo.remote))
    ensures repo.head == old(repo.head) && repo.local == old(repo.local)
    ensures !r.UpToDate?
    ensures r.Merged? ==>
              && OnRemote(repo.State(), intent, repo.local[intent])
              && r.sha == (if git.headAnswered then Some(repo.local[intent]) else None)
    ensures r.NotMerged? ==> r.conflicts == []
    ensures Pushing(intent, git.push, r)
    ensures r.NotMerged? && git.push.headAnswered && Sends(git.push) ==>
              intent in repo.remote && !Ancestor(repo.remote[intent], repo.local[intent])
    ensures repo.local[intent] == old(repo.remote)[intent] ==> repo.delivered == s.delivered
  {
    var sha := repo.RevParseHead(git.headAnswered);
    AncestorOfItself(repo.local[intent]);
    var push := PushBranch(repo, intent, git.push);
    AdvancedTransitive(s.remote, old(repo.remote), repo.remote);
    if !push.Pushed? { return NotMerged(if push.Empty? then "push_failed" else push.reason, []); }
    return Merged(sha);
  }

  /** A merge that made no commit is aborted, and its conflicts are listed. */
  method GiveUp(repo: Repo, intent: string, unit: string, git: MergeScript, paths: seq<string>, ghost s: Snapshot)
    returns (r: MergeResult)
    requires Behind(repo.State()) && unit != "" && intent != ""
    requires git.fetch && git.unitProbe && git.intentProbe && git.checkout && !git.merge.Clean?
    requires unit in repo.remote && intent in repo.remote && !Ancestor(repo.remote[unit], repo.remote[intent])
    requires repo.head == intent && Lookup(repo.local, intent) == Some(repo.remote[intent])
    requires MergeFrame(s, repo.State(), intent, repo.remote) && repo.delivered == s.delivered
    requires if !Comparable(repo.remote[unit], repo.remote[intent]) && git.merge.ConflictIn? then paths == git.merge.paths else paths == []
    modifies repo`merging
    ensures MergeSpec(s, repo.State(), unit, intent, git, r, repo.remote)
  {
    var conflicts := if git.conflictList then paths else [];
    repo.AbortMerge(git.abort);
    return NotMerged(if conflicts != [] then "merge_conflict" else "merge_failed", conflicts);
  }

  /** From a checkout that was just reset onto the fetched intent head. */
  method MergeFetched(repo: Repo, intent: string, unit: string, git: MergeScript, ghost s: Snapshot)
    returns (r: MergeResult)
    requires Behind(repo.State()) && unit != "" && intent != ""
    requires repo.tracking == repo.remote && unit in repo.remote && intent in repo.remote
    requires repo.head == intent && Lookup(repo.local, intent) == Some(repo.remote[intent]) && repo.merging == None
    requires MergeFrame(s, repo.State(), intent, repo.remote) && repo.delivered == s.delivered
    requires git.fetch && git.unitProbe && git.intentProbe && git.checkout
    modifies repo
    ensures MergeSpec(s, repo.State(), unit, intent, git, r, old(repo.remote))
  {
    ghost var fetched := repo.remote;
    AncestorOfItself(fetched[intent]);
    if git.ancestorProbe && Ancestor(repo.tracking[unit], repo.local[intent]) {
      return UpToDate(repo.local[intent]);
    }
    var outcome, paths := repo.MergeHeadWith(repo.tracking[unit], git.merge);
    if outcome.Conflicted? || outcome.NotStarted? {
      r := GiveUp(repo, intent, unit, git, paths, s);
    } else {
      if outcome.MergeCommit? {
        ParentsAreAncestors(repo.local[intent]);
        assert fetched[intent] in repo.local[intent].parents && fetched[unit] in repo.local[intent].parents;
      }
      r := PushMerged(repo, intent, unit, git, s);
    }
  }

  method MergeBranchNoFf(repo: Repo, intent: string, unit: string, git: MergeScript)
    returns (r: MergeResult, ghost fetched: Refs)
    requires Behind(repo.State())
    modifies repo
    ensures MergeSpec(old(repo.State()), repo.State(), unit, intent, git, r, fetched)
  {
    ghost var s := repo.State();
    fetched := repo.remote;
    AdvancedReflexive(repo.remote);
    if unit == "" || intent == "" { return NotMerged("missing_branch", []), fetched; }
    repo.Fetch(git.fetch);
    fetched := repo.remote;
    AdvancedReflexive(repo.remote);
    if !git.fetch { return NotMerged("fetch_failed", []), fetched; }

    var remoteUnit := repo.RevParse(repo.tracking, unit, git.unitProbe);
    if remoteUnit.None? { return NotMerged("unit_branch_missing", []), fetched; }
    var remoteIntent := repo.RevParse(repo.tracking, intent, git.intentProbe);
    if remoteIntent.None? { return NotMerged("intent_branch_missing", []), fetched; }

    repo.CheckoutReset(intent, remoteIntent.value, git.checkout);
    if !git.checkout { return NotMerged("checkout_failed", []), fetched; }
    r := MergeFetched(repo, intent, unit, git, s);
  }

  // ------------------------------------------------- the reverse merge

  datatype BeginScript = BeginScript(
    fetch: bool, checkout: bool, ancestorProbe: bool, merge: MergeAnswer,
    conflictList: bool, abort: bool, headAnswered: bool)

  datatype BeginResult =
    | InConflict(conflicts: seq<string>)
    | CleanlyMerged(sha: Option<Commit>)
    | AlreadyContained
    | BeginFailed(error: string)

  predicate Begun(r: BeginResult) { !r.BeginFailed? }

  /** A begun reverse merge never touches the remote.  In a conflict the fetched
      intent head is what is being merged, onto exactly the fetched unit head;
      otherwise the unit branch already contains it. */
  ghost predicate BeginSpec(s: Snapshot, t: Snapshot, unit: string, intent: string,
                            git: BeginScript, r: BeginResult, fetched: Refs) {
    && Advanced(s.remote, fetched) && t.remote == fetched
    && Behind(t) && t.delivered == s.delivered
    && (forall b | b != unit :: (b in t.local <==> b in s.local) && (b in s.local ==> t.local[b] == s.local[b]))
    && (Begun(r) ==>
          && t.head == unit && unit in t.local && unit in fetched && intent in fetched
          && Ancestor(fetched[unit], t.local[unit]))
    && (r.InConflict? ==>
          && r.conflicts != [] && t.merging == Some(fetched[intent])
          && t.local[unit] == fetched[unit] && !Comparable(fetched[unit], fetched[intent]))
    && (r.CleanlyMerged? || r.AlreadyContained? ==> t.merging == None && Ancestor(fetched[intent], t.local[unit]))
    && (r.AlreadyContained? ==> t.local[unit] == fetched[unit])
    && (r.CleanlyMerged? && !Ancestor(fetched[intent], fetched[unit]) ==>
          t.local[unit].parents == [fetched[unit], fetched[intent]])
    && (unit != "" && intent != "" && git.fetch && git.checkout && unit in fetched && intent in fetched
        && !Comparable(fetched[unit], fetched[intent]) && git.merge.ConflictIn? && git.merge.paths != [] && git.conflictList ==>
          r.InConflict?)
    && (r.BeginFailed? && git.abort && t.head == unit && r.error == "merge_failed" ==> t.merging == None)
    && BeginNamed(t, unit, intent, git, r, fetched)
  }

  /** Every failure has its own name; everything else begins. */
  ghost predicate BeginNamed(t: Snapshot, unit: string, intent: string, git: BeginScript, r: BeginResult, fetched: Refs) {
    if unit == "" || intent == "" then r == BeginFailed("missing_branch")
    else if !git.fetch then r == BeginFailed("fetch_failed")
    else if unit !in fetched || !git.checkout then r == BeginFailed("checkout_failed")
    else if intent !in fetched then r == BeginFailed("merge_failed")
    else if Ancestor(fetched[intent], fetched[unit]) then
      if git.ancestorProbe then r == AlreadyContained else r == CleanlyMerged(if git.headAnswered then Some(fetched[unit]) else None)
    else if git.merge.Clean? then
      var merged := Commit(git.merge.id, [fetched[unit], fetched[intent]]);
      Lookup(t.local, unit) == Some(merged) && r == CleanlyMerged(if git.headAnswered then Some(merged) else None)
    else if !Comparable(fetched[unit], fetched[intent]) && git.merge.ConflictIn? && git.merge.paths != [] then
      r == if git.conflictList then InConflict(git.merge.paths) else BeginFailed("merge_failed")
    else r.BeginFailed? ==> r.error == "merge_failed"
  }

  /** A merge that made no commit is left for the conflict stage if git lists conflicts,
      and aborted otherwise. */
  method ListConflicts(repo: Repo, unit: string, intent: string, git: BeginScript, paths: seq<string>, ghost s: Snapshot)
    returns (r: BeginResult)
    requires Behind(repo.State()) && unit != "" && intent != "" && git.fetch && git.checkout && !git.merge.Clean?
    requires repo.head == unit && unit in repo.remote && intent in repo.remote && !Ancestor(repo.remote[intent], repo.remote[unit])
    requires repo.local == s.local[unit := repo.remote[unit]] && repo.delivered == s.delivered && Advanced(s.remote, repo.remote)
    requires !Comparable(repo.remote[unit], repo.remote[intent]) && git.merge.ConflictIn? ==> paths == git.merge.paths
    requires paths != [] ==> repo.merging == Some(repo.remote[intent]) && !Comparable(repo.remote[unit], repo.remote[intent])
    modifies repo`merging
    ensures BeginSpec(s, repo.State(), unit, intent, git, r, repo.remote)
  {
    AncestorOfItself(repo.local[unit]);
    var conflicts := if git.conflictList then paths else [];
    if conflicts == [] {
      repo.AbortMerge(git.abort);
      return BeginFailed("merge_failed");
    }
    return InConflict(conflicts);
  }

  /** From a checkout that was just reset onto the fetched unit head. */
  method MergeIntent(repo: Repo, unit: string, intent: string, git: BeginScript, ghost s: Snapshot) returns (r: BeginResult)
    requires Behind(repo.State()) && unit != "" && intent != "" && git.fetch && git.checkout
    requires repo.tracking == repo.remote && unit in repo.remote && repo.head == unit && repo.merging == None
    requires repo.local == s.local[unit := repo.remote[unit]] && repo.delivered == s.delivered && Advanced(s.remote, repo.remote)
    modifies repo
    ensures BeginSpec(s, repo.State(), unit, intent, git, r, old(repo.remote))
  {
    ghost var fetched := repo.remote;
    AncestorOfItself(repo.local[unit]);
    if intent in repo.tracking && git.ancestorProbe && Ancestor(repo.tracking[intent], repo.local[unit]) {
      return AlreadyContained;
    }
    if intent !in repo.tracking {
      repo.AbortMerge(git.abort);
      return BeginFailed("merge_failed");
    }
    var outcome, paths := repo.MergeHeadWith(repo.tracking[intent], git.merge);
    if outcome.MergeCommit? || outcome.AlreadyUpToDate? {
      if outcome.MergeCommit? {
        ParentsAreAncestors(repo.local[unit]);
        assert fetched[intent] in repo.local[unit].parents && fetched[unit] in repo.local[unit].parents;
      }
      var sha := repo.RevParseHead(git.headAnswered);
      return CleanlyMerged(sha);
    }
    r := ListConflicts(repo, unit, intent, git, paths, s);
  }

  method BeginConflictMerge(repo: Repo, unit: string, intent: string, git: BeginScript)
    returns (r: BeginResult, ghost fetched: Refs)
    requires Behind(repo.State())
    modifies repo
    ensures BeginSpec(old(repo.State()), repo.State(), unit, intent, git, r, fetched)
  {
    ghost var s := repo.State();
    fetched := repo.remote;
    AdvancedReflexive(repo.remote);
    if unit == "" || intent == "" { return BeginFailed("missing_branch"), fetched; }
    repo.Fetch(git.fetch);
    fetched := repo.remote;
    if !git.fetch { return BeginFailed("fetch_failed"), fetched; }
    if unit !in repo.tracking || !git.checkout { return BeginFailed("checkout_failed"), fetched; }
    repo.CheckoutReset(unit, repo.tracking[unit], true);
    r := MergeIntent(repo, unit, intent, git, s);
  }

  datatype ConcludeScript = ConcludeScript(
    markersRemain: bool, mergeHeadProbe: bool, add: bool, unmergedLeft: bool,
    commit: CommitAnswer, abort: bool, headAnswered: bool, push: PushScript)

  datatype ConcludeResult = Concluded(sha: Option<Commit>) | NotConcluded(reason: string)

  /** The resolution is complete: no marker is left, and a merge in progress is staged
      without unmerged paths and committed. */
  predicate Resolved(s: Snapshot, git: ConcludeScript) {
    && !git.markersRemain
    && (git.mergeHeadProbe && s.merging.Some? ==> git.add && !git.unmergedLeft && git.commit.Committed?)
  }

  function Obstacle(git: ConcludeScript): string {
    if git.markersRemain then "markers_remain" else if !git.add then "add_failed"
    else if git.unmergedLeft then "markers_remain" else "commit_failed"
  }

  /** Only a complete resolution is committed, pushed and concluded; any other leaves
      remote and HEAD alone, is aborted and named.  A concluded merge is on the remote unit
      branch.  It contains the commit that was being merged exactly when the probe of
      MERGE_HEAD answered, or when HEAD contained it anyway. */
  ghost predicate ConcludeSpec(s: Snapshot, t: Snapshot, unit: string, git: ConcludeScript, r: ConcludeResult) {
    && Advanced(s.remote, t.remote) && Behind(t) && t.head == s.head
    && (r.Concluded? ==>
          && Resolved(s, git)
          && s.head in s.local && s.head in t.local && OnRemote(t, unit, t.local[s.head])
          && r.sha == (if git.headAnswered then Some(t.local[s.head]) else None)
          && Ancestor(s.local[s.head], t.local[s.head])
          && (s.merging == None || !git.mergeHeadProbe ==> t.local == s.local)
          && (s.merging.Some? ==>
                && (Ancestor(s.merging.value, t.local[s.head])
                    <==> git.mergeHeadProbe || Ancestor(s.merging.value, s.local[s.head]))
                && (git.mergeHeadProbe ==>
                      t.local[s.head].parents == [s.local[s.head], s.merging.value] && t.merging == None)))
    && (s.head in s.local && !Resolved(s, git) ==>
          && r == NotConcluded(Obstacle(git)) && t.remote == s.remote && t.delivered == s.delivered
          && (git.markersRemain || !git.add || git.unmergedLeft || git.commit.Refused? ==> t.local == s.local)
          && (git.abort ==> t.merging == None)
          && (!git.abort && (git.markersRemain || !git.add || git.unmergedLeft || git.commit.Refused?) ==> t.merging == s.merging))
    && (s.head in s.local && Resolved(s, git) ==>
          && (s.merging.Some? && git.mergeHeadProbe ==> t.local == s.local[s.head := NewCommit(s, git.commit.id)])
          && (s.merging == None || !git.mergeHeadProbe ==> t.local == s.local)
          && (r.NotConcluded? ==>
                r.reason == (if unit == "" then "no_branch" else if git.push.headAnswered && !git.push.credential then "credential_unavailable" else "push_failed"))
          && (r.NotConcluded? && unit != "" && git.push.headAnswered && Sends(git.push) ==>
                unit in t.remote && !Ancestor(t.remote[unit], t.local[s.head])))
  }

  method ConcludeConflictMerge(repo: Repo, unit: string, git: ConcludeScript) returns (r: ConcludeResult)
    requires Behind(repo.State()) && repo.head in repo.local
    modifies repo
    ensures ConcludeSpec(old(repo.State()), repo.State(), unit, git, r)
  {
    AdvancedReflexive(repo.remote);
    if git.markersRemain {
      repo.AbortMerge(git.abort);
      return NotConcluded("markers_remain");
    }
    var inProgress := git.mergeHeadProbe && repo.merging.Some?;
    if inProgress {
      if !git.add {
        repo.AbortMerge(git.abort);
        return NotConcluded("add_failed");
      }
      if git.unmergedLeft {
        repo.AbortMerge(git.abort);
        return NotConcluded("markers_remain");
      }
      var committed := repo.CommitStaged(git.commit);
      if !committed {
        repo.AbortMerge(git.abort);
        return NotConcluded("commit_failed");
      }
      ParentsAreAncestors(repo.local[repo.head]);
      assert repo.local[repo.head].parents == [old(repo.local[repo.head]), old(repo.merging).value];
      assert old(repo.local[repo.head]) in repo.local[repo.head].parents;
      assert old(repo.merging).value in repo.local[repo.head].parents;
    } else {
      AncestorOfItself(repo.local[repo.head]);
    }
    var sha := repo.RevParseHead(git.headAnswered);
    var push := PushBranch(repo, unit, git.push);
    if !push.Pushed? { return NotConcluded(if push.Empty? then "push_failed" else push.reason); }
    return Concluded(sha);
  }

  // ---------------------------------------------------------- whole runs

  /** A landed merge: the remote intent branch contains both heads as they were
      fetched, and hence everything that was on either branch before the call. */
  lemma LandedMergeHoldsBothHeads(s: Snapshot, t: Snapshot, unit: string, intent: string,
                                  git: MergeScript, r: MergeResult, fetched: Refs)
    requires MergeSpec(s, t, unit, intent, git, r, fetched) && r.Merged?
    ensures OnRemote(t, intent, fetched[unit]) && OnRemote(t, intent, fetched[intent])
    ensures unit in s.remote ==> OnRemote(t, intent, s.remote[unit])
    ensures intent in s.remote ==> OnRemote(t, intent, s.remote[intent])
  {
    AncestorTransitive(fetched[unit], t.local[intent], t.remote[intent]);
    AncestorTransitive(fetched[intent], t.local[intent], t.remote[intent]);
    if unit in s.remote { AncestorTransitive(s.remote[unit], fetched[unit], t.remote[intent]); }
    if intent in s.remote { AncestorTransitive(s.remote[intent], fetched[intent], t.remote[intent]); }
  }

  /** Once merged, always merged: from any later state of the remote, a call that
      fetches the same unit head delivers nothing, never reports a conflict, and
      answers `up_to_date` as soon as its git commands answer. */
  lemma MergeLandsOnce(unit: string, intent: string,
                       s: Snapshot, t: Snapshot, git: MergeScript, r: MergeResult, f: Refs,
                       s': Snapshot, t': Snapshot, git': MergeScript, r': MergeResult, f': Refs)
    requires MergeSpec(s, t, unit, intent, git, r, f) && r.Merged? && Advanced(t.remote, s'.remote)
    requires MergeSpec(s', t', unit, intent, git', r', f') && unit in f' && f'[unit] == f[unit]
    ensures t'.delivered == s'.delivered
    ensures !(r'.NotMerged? && r'.conflicts != [])
    ensures unit != "" && intent != "" && MergeAnswers(git') ==> r'.UpToDate?
  {
    LandedMergeHoldsBothHeads(s, t, unit, intent, git, r, f);
    AdvancedTransitive(t.remote, s'.remote, f');
    AncestorTransitive(f[unit], t.remote[intent], f'[intent]);
  }

  /** The agent's turn between begin and conclude: it edits files, nothing else. */
  ghost predicate EditsOnly(s: Snapshot, t: Snapshot) {
    && t.local == s.local && t.head == s.head && t.merging == s.merging && t.tracking == s.tracking
    && Advanced(s.remote, t.remote) && t.delivered == s.delivered
  }

  /** After a begun and concluded reverse merge, a later fan-in merge that finds
      the intent branch unmoved cannot conflict, because the intent head is an
      ancestor of the unit head; and it lands as soon as its commands answer and
      nobody else pushes in between. */
  lemma RetryCannotConflict(s0: Snapshot, s1: Snapshot, s2: Snapshot, s3: Snapshot, s4: Snapshot, s5: Snapshot,
                            unit: string, intent: string,
                            git1: BeginScript, r1: BeginResult, f1: Refs,
                            git2: ConcludeScript, r2: ConcludeResult,
                            git3: MergeScript, r3: MergeResult, f3: Refs)
    requires BeginSpec(s0, s1, unit, intent, git1, r1, f1) && Begun(r1)
    requires EditsOnly(s1, s2)
    requires ConcludeSpec(s2, s3, unit, git2, r2) && r2.Concluded? && git2.mergeHeadProbe
    requires Advanced(s3.remote, s4.remote)
    requires MergeSpec(s4, s5, unit, intent, git3, r3, f3)
    requires intent in f3 && f3[intent] == f1[intent]
    ensures unit in f3 && Ancestor(f3[intent], f3[unit])
    ensures !(r3.NotMerged? && r3.conflicts != [])
  {
    var m := s3.local[unit];
    assert Ancestor(f1[intent], m) by {
      if !r1.InConflict? { AncestorTransitive(f1[intent], s2.local[unit], m); }
    }
    AdvancedTransitive(s3.remote, s4.remote, f3);
    AncestorTransitive(f1[intent], m, s3.remote[unit]);
    AncestorTransitive(f1[intent], s3.remote[unit], f3[unit]);
  }

  /** A concluded conflict holds the intent head exactly when the MERGE_HEAD probe
      answered: an unanswered one pushes the unit head as it was. */
  lemma ConcludedHoldsIntentIff(s0: Snapshot, s1: Snapshot, s2: Snapshot, s3: Snapshot, unit: string, intent: string,
                                git1: BeginScript, r1: BeginResult, f1: Refs, git2: ConcludeScript, r2: ConcludeResult)
    requires BeginSpec(s0, s1, unit, intent, git1, r1, f1) && r1.InConflict?
    requires EditsOnly(s1, s2)
    requires ConcludeSpec(s2, s3, unit, git2, r2) && r2.Concluded?
    ensures Ancestor(f1[intent], s3.local[unit]) <==> git2.mergeHeadProbe
    ensures OnRemote(s3, unit, s3.local[unit])
    ensures !git2.mergeHeadProbe && s3.remote[unit] == f1[unit] ==> !Comparable(s3.remote[unit], f1[intent])
  {
  }

  /** A run of it: two diverged heads, a conflict begun and, with the probe of
      MERGE_HEAD unanswered, concluded, while nobody else pushes.  The pushed unit
      head lacks the intent head, and the next merge meets the same diverged heads. */
  method ConcludesWithoutMerging(base: Commit, unit: string, intent: string, tries: nat -> Delivery)
    returns (repo: Repo, r1: BeginResult, r2: ConcludeResult)
    requires unit != "" && intent != "" && unit != intent && tries(1).Sent?
    ensures var u, v := Commit(1, [base]), Commit(2, [base]);
            repo.remote == map[unit := u, intent := v] ==>
              && r1.InConflict? && r2.Concluded?
              && Lookup(repo.local, unit) == Some(u) && !Comparable(u, v) && OnRemote(repo.State(), unit, u)
  {
    var u, v := Commit(1, [base]), Commit(2, [base]);
    SiblingsDiverge(u, v, base);
    repo := new Repo(map[unit := u, intent := v], map[unit := u], unit, false);
    ghost var start := repo.remote;
    ghost var fetched;
    r1, fetched := BeginConflictMerge(repo, unit, intent, BeginScript(true, true, true, ConflictIn(["file"]), true, true, true));
    ghost var begun := repo.remote;
    var git := ConcludeScript(false, false, true, false, Refused, true, true, PushScript(true, true, true, tries));
    if repo.head in repo.local {
      r2 := ConcludeConflictMerge(repo, unit, git);
      if repo.remote == start { Unmoved(start, begun, repo.remote); }
      AncestorOfItself(u);
    } else {
      r2 := NotConcluded("push_failed");
    }
  }

  lemma SiblingsDiverge(u: Commit, v: Commit, base: Commit)
    requires u.parents == [base] && v.parents == [base] && u != v
    ensures !Comparable(u, v)
  {
    if Ancestor(u, v) { ProperAncestorIsLower(u, v); }
    if Ancestor(v, u) { ProperAncestorIsLower(v, u); }
  }

  /** A remote that only advances and ends where it began never moved. */
  lemma Unmoved(first: Refs, middle: Refs, last: Refs)
    requires Advanced(first, middle) && Advanced(middle, last) && first == last
    ensures middle == first
  {
    forall b | b in middle ensures b in first && middle[b] == first[b] {
      AncestorAntisymmetric(first[b], middle[b]);
    }
  }
}
