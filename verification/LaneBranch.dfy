/** `ensureLaneBranch`: put the checkout and the remote on the unit branch of a
    lane, without losing work that was committed there before. */
module LaneBranch {
  import opened CommitGraph
  import opened GitRepository
  import opened Wrappers

  /** What the git commands of one call answer. */
  datatype Script = Script(
    fetch: bool, remoteProbe: bool, localProbe: bool, ancestorProbe: bool,
    intentProbe: bool, checkout: bool, push: PushScript)

  datatype Result = Ready(created: bool, sha: Commit) | NotReady(reason: string)

  predicate Honest(git: Script) {
    git.remoteProbe && git.localProbe && git.ancestorProbe && git.intentProbe
  }

  /** The head a lane is put on, from its local head, its remote head and the
      intent branch, as far as the probes could read them. */
  function Choose(git: Script, mine: Option<Commit>, theirs: Option<Commit>, intent: Option<Commit>): Option<Commit> {
    var l := if git.localProbe then mine else None;
    var r := if git.remoteProbe then theirs else None;
    if r.Some? then
      if l.Some? && git.ancestorProbe && Ancestor(r.value, l.value) then l else r
    else if l.Some? then l
    else if git.intentProbe then intent else None
  }

  /** What every call keeps, whatever its result. */
  ghost predicate LaneFrame(s: Snapshot, t: Snapshot, unit: string, fetched: Refs) {
    && Advanced(s.remote, fetched) && Advanced(fetched, t.remote) && Advanced(s.remote, t.remote)
    && Behind(t)
    && (forall b | b != unit :: (b in t.local <==> b in s.local) && (b in s.local ==> t.local[b] == s.local[b]))
    && (t.delivered == s.delivered
        || (unit in t.local && t.delivered == s.delivered + [Update(unit, t.local[unit])]))
  }

  ghost predicate LaneReady(s: Snapshot, t: Snapshot, unit: string, git: Script, created: bool, sha: Commit, fetched: Refs) {
    && created == (unit !in fetched || !git.remoteProbe)
    && t.head == unit && t.local == s.local[unit := sha] && t.merging == None
    && (git.push.headAnswered ==> OnRemote(t, unit, sha))
    && (!created && sha == fetched[unit] ==> OnRemote(t, unit, sha) && t.delivered == s.delivered)
  }

  /** What keeps a lane from being put on any commit. */
  function LaneObstacle(unit: string, intent: string, git: Script, choice: Option<Commit>): Option<string> {
    if unit == "" || intent == "" then Some("missing_branch")
    else if !git.fetch then Some("fetch_failed")
    else if choice.None? then Some("intent_branch_missing")
    else if !git.checkout then Some("checkout_failed")
    else None
  }

  /** `fetched` are the remote refs as the fetch of this call saw them.  A call
      that is not ready although every command answered and the first push was
      delivered lost against a remote unit branch that moved elsewhere. */
  ghost predicate LaneSpec(s: Snapshot, t: Snapshot, unit: string, intent: string, git: Script, r: Result, fetched: Refs) {
    var choice := Choose(git, Lookup(s.local, unit), Lookup(fetched, unit), Lookup(fetched, intent));
    && LaneFrame(s, t, unit, fetched)
    && (r.Ready? ==>
          && unit != "" && intent != "" && git.fetch && git.checkout && Some(r.sha) == choice
          && LaneReady(s, t, unit, git, r.created, r.sha, fetched))
    && (unit != "" && intent != "" && git.fetch && git.checkout && choice.Some? ==>
          && (!git.push.headAnswered ==> r.Ready?)
          && (git.remoteProbe && choice == Lookup(fetched, unit) ==> r.Ready?))
    && (r.NotReady? ==>
          && (unit in s.local && (git.localProbe || (git.remoteProbe && unit in fetched)) ==> t.local == s.local)
          && (unit != "" && intent != "" && git.fetch && git.checkout && Sends(git.push) ==>
                choice.Some? ==> unit in t.remote && !Ancestor(t.remote[unit], choice.value))
          && r.reason == match LaneObstacle(unit, intent, git, choice)
                         case Some(reason) => reason
                         case None => if git.push.credential then "push_failed" else "credential_unavailable")
  }

  /** The common end of three branches: the checkout is on `sha`; publish it. */
  method Publish(repo: Repo, unit: string, created: bool, sha: Commit, git: Script, ghost s: Snapshot)
    returns (r: Result)
    requires Behind(repo.State()) && unit != "" && git.checkout
    requires repo.head == unit && repo.local == s.local[unit := sha] && repo.merging == None
    requires Advanced(s.remote, repo.remote) && repo.delivered == s.delivered
    requires created == (unit !in repo.remote || !git.remoteProbe)
    requires !created ==> sha != repo.remote[unit]
    modifies repo
    ensures LaneFrame(s, repo.State(), unit, old(repo.remote))
    ensures repo.local == old(repo.local)
    ensures r.Ready? ==> r == Ready(created, sha) && LaneReady(s, repo.State(), unit, git, created, sha, old(repo.remote))
    ensures !git.push.headAnswered ==> r.Ready?
    ensures r.NotReady? ==> r.reason == if git.push.credential then "push_failed" else "credential_unavailable"
    ensures r.NotReady? && Sends(git.push) ==>
              unit in repo.remote && !Ancestor(repo.remote[unit], sha)
  {
    var push := PushBranch(repo, unit, git.push);
    AdvancedTransitive(s.remote, old(repo.remote), repo.remote);
    if !push.Pushed? && !push.Empty? { return NotReady(push.reason); }
    return Ready(created, sha);
  }

  /** The remote head was read: the lane takes it, unless the local head is ahead of it. */
  method EnsurePublished(repo: Repo, unit: string, intent: string, remoteUnit: Commit, localUnit: Option<Commit>, git: Script,
                         ghost s: Snapshot)
    returns (r: Result)
    requires Behind(repo.State()) && unit != "" && intent != "" && git.fetch && git.remoteProbe
    requires Lookup(repo.remote, unit) == Some(remoteUnit)
    requires localUnit == if git.localProbe then Lookup(repo.local, unit) else None
    requires repo.local == s.local && repo.delivered == s.delivered && Advanced(s.remote, repo.remote)
    modifies repo
    ensures LaneSpec(s, repo.State(), unit, intent, git, r, old(repo.remote))
  {
    AdvancedReflexive(repo.remote);
    if localUnit.Some? && localUnit.value != remoteUnit {
      if git.ancestorProbe && Ancestor(remoteUnit, localUnit.value) {
        repo.Checkout(unit, git.checkout);
        if !git.checkout { return NotReady("checkout_failed"); }
        r := Publish(repo, unit, false, localUnit.value, git, s);
        return;
      }
    }
    repo.CheckoutReset(unit, remoteUnit, git.checkout);
    if !git.checkout { return NotReady("checkout_failed"); }
    return Ready(false, remoteUnit);
  }

  /** No remote head was read: the lane starts on its local head, or on the intent branch. */
  method EnsureUnpublished(repo: Repo, unit: string, intent: string, localUnit: Option<Commit>, git: Script, ghost s: Snapshot)
    returns (r: Result)
    requires Behind(repo.State()) && unit != "" && intent != "" && git.fetch && repo.tracking == repo.remote
    requires git.remoteProbe ==> unit !in repo.remote
    requires localUnit == if git.localProbe then Lookup(repo.local, unit) else None
    requires repo.local == s.local && repo.delivered == s.delivered && Advanced(s.remote, repo.remote)
    modifies repo
    ensures LaneSpec(s, repo.State(), unit, intent, git, r, old(repo.remote))
  {
    AdvancedReflexive(repo.remote);
    if localUnit.Some? {
      repo.Checkout(unit, git.checkout);
      if !git.checkout { return NotReady("checkout_failed"); }
      r := Publish(repo, unit, true, localUnit.value, git, s);
      return;
    }
    var remoteIntent := repo.RevParse(repo.tracking, intent, git.intentProbe);
    if remoteIntent.None? { return NotReady("intent_branch_missing"); }
    repo.CheckoutReset(unit, remoteIntent.value, git.checkout);
    if !git.checkout { return NotReady("checkout_failed"); }
    r := Publish(repo, unit, true, remoteIntent.value, git, s);
  }

  method EnsureLaneBranch(repo: Repo, unit: string, intent: string, git: Script)
    returns (r: Result, ghost fetched: Refs)
    requires Behind(repo.State())
    modifies repo
    ensures LaneSpec(old(repo.State()), repo.State(), unit, intent, git, r, fetched)
  {
    ghost var s := repo.State();
    fetched := repo.remote;
    AdvancedReflexive(repo.remote);
    if unit == "" || intent == "" { return NotReady("missing_branch"), fetched; }
    repo.Fetch(git.fetch);
    fetched := repo.remote;
    AdvancedReflexive(repo.remote);
    if !git.fetch { return NotReady("fetch_failed"), fetched; }

    var remoteUnit := repo.RevParse(repo.tracking, unit, git.remoteProbe);
    var localUnit := repo.RevParse(repo.local, unit, git.localProbe);
    if remoteUnit.Some? {
      r := EnsurePublished(repo, unit, intent, remoteUnit.value, localUnit, git, s);
      return r, fetched;
    }
    r := EnsureUnpublished(repo, unit, intent, localUnit, git, s);
    return r, fetched;
  }

  /** Which committed work survives, for every combination of answered and
      unanswered probes.  `read` is whether the remote head was seen at all. */
  lemma WhatSurvives(git: Script, mine: Option<Commit>, theirs: Option<Commit>, intent: Option<Commit>)
    requires Choose(git, mine, theirs, intent).Some?
    ensures var c := Choose(git, mine, theirs, intent).value;
            var seenMine := git.localProbe && mine.Some?;
            var read := git.remoteProbe && theirs.Some?;
            && (theirs.Some? ==>
                  (Ancestor(theirs.value, c) <==>
                     || git.remoteProbe
                     || (seenMine && Ancestor(theirs.value, mine.value))
                     || (!seenMine && intent.Some? && Ancestor(theirs.value, intent.value))))
            && (mine.Some? ==>
                  (Ancestor(mine.value, c) <==>
                     || (read && Ancestor(mine.value, theirs.value))
                     || (read && git.localProbe && git.ancestorProbe && Ancestor(theirs.value, mine.value))
                     || (!read && git.localProbe)
                     || (!read && intent.Some? && Ancestor(mine.value, intent.value))))
  {
  }

  /** With answering probes, committed lane work is never lost: the lane ends on a
      commit that contains the local and the remote head whenever the two are
      comparable, and only a truly diverged local head is dropped.  HEAD and the
      remote unit branch are both there. */
  lemma NeverLosesLaneWork(s: Snapshot, t: Snapshot, unit: string, intent: string, git: Script, r: Result, fetched: Refs)
    requires LaneSpec(s, t, unit, intent, git, r, fetched) && r.Ready?
    requires Honest(git) && git.push.headAnswered
    ensures HeadOf(t) == Some(r.sha) && t.head == unit && OnRemote(t, unit, r.sha)
    ensures unit in fetched ==> Ancestor(fetched[unit], r.sha)
    ensures unit in s.remote ==> unit in fetched && Ancestor(s.remote[unit], r.sha)
    ensures unit in s.local && unit in fetched ==> (Ancestor(s.local[unit], r.sha) <==> Comparable(s.local[unit], fetched[unit]))
    ensures unit in s.local && unit !in fetched ==> r.sha == s.local[unit]
    ensures unit !in s.local && unit !in fetched ==> intent in fetched && r.sha == fetched[intent]
  {
    WhatSurvives(git, Lookup(s.local, unit), Lookup(fetched, unit), Lookup(fetched, intent));
    if unit in s.remote { AncestorTransitive(s.remote[unit], fetched[unit], r.sha); }
  }

  /** One unanswered ancestry probe is enough to drop unpushed commits: the local
      head is one commit ahead of the remote, and the call is ready with the lane
      reset to the remote head, although nobody else pushed. */
  method UnansweredProbeDropsWork(base: Commit, unit: string, intent: string, push: PushScript)
    returns (repo: Repo, r: Result, ghost fetched: Refs)
    requires unit != "" && intent != ""
    ensures LaneSpec(Snapshot(map[unit := base], map[], map[unit := Commit(0, [base])], unit, None, false, []),
                     repo.State(), unit, intent, Script(true, true, true, false, true, true, push), r, fetched)
    ensures unit in fetched && r == Ready(false, fetched[unit]) && repo.local == map[unit := fetched[unit]]
    ensures fetched == map[unit := base] ==> r.sha == base && !Ancestor(Commit(0, [base]), base)
  {
    var ahead := Commit(0, [base]);
    NotInItsPast(ahead, base);
    repo := new Repo(map[unit := base], map[unit := ahead], unit, false);
    r, fetched := EnsureLaneBranch(repo, unit, intent, Script(true, true, true, false, true, true, push));
  }

  lemma NotInItsPast(c: Commit, base: Commit)
    requires base in c.parents
    ensures Ancestor(base, c) && !Ancestor(c, base)
  {
    ParentsAreAncestors(c);
    if Ancestor(c, base) {
      AncestorAntisymmetric(c, base);
      ProperOfItself(c);
    }
  }

  /** No commit is its own parent. */
  lemma ProperOfItself(c: Commit)
    ensures c !in c.parents
  {
  }

  /** An unread remote head can be passed over as well: with neither that probe nor
      the HEAD probe of the push answered, the lane starts over from the intent
      branch and is ready, on a commit that lacks the work on the remote. */
  method UnreadRemoteStartsOver(base: Commit, unit: string, intent: string, credential: bool, tries: nat -> Delivery)
    returns (repo: Repo, r: Result, ghost fetched: Refs)
    requires unit != "" && intent != "" && unit != intent
    ensures intent in fetched && r == Ready(true, fetched[intent]) && repo.local == map[unit := fetched[intent]]
    ensures fetched == map[unit := Commit(0, [base]), intent := base] ==>
              r.sha == base && !Ancestor(fetched[unit], r.sha)
  {
    var work := Commit(0, [base]);
    NotInItsPast(work, base);
    var git := Script(true, false, true, true, true, true, PushScript(false, credential, true, tries));
    repo := new Repo(map[unit := work, intent := base], map[], intent, false);
    r, fetched := EnsureLaneBranch(repo, unit, intent, git);
  }

  /** Re-dispatch: from the state a ready call left behind, with no one else
      moving the unit branch, the next ready call ends on the remote unit head, which
      contains the earlier sha, and delivers nothing new. */
  lemma RedispatchIsStable(s: Snapshot, t: Snapshot, u: Snapshot, unit: string, intent: string,
                           git: Script, git': Script, r: Result, r': Result, f: Refs, f': Refs)
    requires LaneSpec(s, t, unit, intent, git, r, f) && r.Ready? && git.push.headAnswered
    requires LaneSpec(t, u, unit, intent, git', r', f') && r'.Ready? && Honest(git')
    requires unit in f' && f'[unit] == t.remote[unit]
    ensures Ancestor(r.sha, r'.sha) && r'.sha == t.remote[unit]
    ensures !r'.created && u.delivered == t.delivered
  {
    AncestorAntisymmetricIf(r.sha, t.remote[unit]);
  }

  lemma AncestorAntisymmetricIf(a: Commit, b: Commit)
    ensures Ancestor(a, b) && Ancestor(b, a) ==> a == b
  {
    if Ancestor(a, b) && Ancestor(b, a) { AncestorAntisymmetric(a, b); }
  }
}
