/** One repository as one session sees it: the checkout (local branches, HEAD, an
    in-progress merge, uncommitted work), the remote-tracking refs, and the
    remote itself.  Each method is one git command; what the command answers is
    part of the arguments, so every step may fail.  Other sessions may move the
    remote before any network command, but only forward. */
module GitRepository {
  import opened CommitGraph
  import opened Wrappers

  /** A push reaches the remote, reaches it but reports failure, or does not. */
  datatype Delivery = Sent | SentUnacknowledged | Unsent

  /** What a three-way merge would answer; see `Repo.MergeHeadWith`. */
  datatype MergeAnswer = Clean(id: nat) | ConflictIn(paths: seq<string>) | MergeError

  datatype MergeOutcome = AlreadyUpToDate | MergeCommit | Conflicted | NotStarted

  datatype Update = Update(branch: string, to: Commit)

  datatype Snapshot = Snapshot(
    remote: Refs, tracking: Refs, local: Refs, head: string,
    merging: Option<Commit>, dirty: bool, delivered: seq<Update>)

  /** Tracking refs are past values of the remote, which only advances, and a
      merge in progress has a HEAD to be merged into. */
  ghost predicate Behind(s: Snapshot) {
    Advanced(s.tracking, s.remote) && (s.merging.Some? ==> s.head in s.local)
  }

  /** A commit may be made although the command reports failure. */
  datatype CommitAnswer = Committed(id: nat) | CommittedUnacknowledged(id: nat) | Refused

  function Lookup(refs: Refs, branch: string): Option<Commit> {
    if branch in refs then Some(refs[branch]) else None
  }

  /** The commit that `git commit` records on top of HEAD and MERGE_HEAD. */
  function NewCommit(s: Snapshot, id: nat): Commit {
    Commit(id, (if s.head in s.local then [s.local[s.head]] else []) + (if s.merging.Some? then [s.merging.value] else []))
  }

  function HeadOf(s: Snapshot): Option<Commit> {
    if s.head in s.local then Some(s.local[s.head]) else None
  }

  ghost predicate SameCheckout(s: Snapshot, t: Snapshot) {
    t.local == s.local && t.head == s.head && t.merging == s.merging && t.dirty == s.dirty
  }

  /** Commit `c` is on the remote branch. */
  ghost predicate OnRemote(s: Snapshot, branch: string, c: Commit) {
    branch in s.remote && Ancestor(c, s.remote[branch])
  }

  class Repo {
    var remote: Refs
    var tracking: Refs
    var local: Refs
    var head: string
    var merging: Option<Commit>
    var dirty: bool
    /** The ref updates this session's own pushes made on the remote. */
    ghost var delivered: seq<Update>

    constructor (remote: Refs, local: Refs, head: string, dirty: bool)
      ensures State() == Snapshot(remote, map[], local, head, None, dirty, [])
    {
      this.remote, this.tracking, this.local := remote, map[], local;
      this.head, this.merging, this.dirty := head, None, dirty;
      delivered := [];
    }

    ghost function State(): Snapshot
      reads this
    {
      Snapshot(remote, tracking, local, head, merging, dirty, delivered)
    }

    /** Other sessions push, without force. */
    method Others()
      modifies this`remote
      ensures Advanced(old(remote), remote)
    {
      var next: Refs := *;
      if Advanced(remote, next) { remote := next; }
    }

    /** `git rev-parse HEAD`; an unborn branch and a failed command look alike. */
    method RevParseHead(answered: bool) returns (r: Option<Commit>)
      ensures r == if answered then HeadOf(State()) else None
    {
      if answered && head in local { r := Some(local[head]); } else { r := None; }
    }

    /** `git fetch origin --prune`. */
    method Fetch(answered: bool)
      requires Behind(State())
      modifies this`remote, this`tracking
      ensures Behind(State()) && Advanced(old(remote), remote)
      ensures answered ==> tracking == remote
      ensures !answered ==> tracking == old(tracking)
    {
      ghost var was := remote;
      Others();
      if answered {
        tracking := remote;
        forall b | b in tracking ensures Ancestor(tracking[b], remote[b]) {}
      } else {
        AdvancedTransitive(tracking, was, remote);
      }
    }

    /** `git rev-parse --verify refs/...`: a missing ref and a failed command
        look alike. */
    method RevParse(refs: Refs, branch: string, answered: bool) returns (r: Option<Commit>)
      ensures r == if answered then Lookup(refs, branch) else None
    {
      if answered && branch in refs { r := Some(refs[branch]); } else { r := None; }
    }

    /** `git checkout -B branch target`; leaves no merge in progress. */
    method CheckoutReset(branch: string, target: Commit, answered: bool)
      modifies this`local, this`head, this`merging
      ensures answered ==> local == old(local)[branch := target] && head == branch && merging == None
      ensures !answered ==> local == old(local) && head == old(head) && merging == old(merging)
    {
      if answered { local, head, merging := local[branch := target], branch, None; }
    }

    /** `git checkout branch`. */
    method Checkout(branch: string, answered: bool)
      requires branch in local
      modifies this`head, this`merging
      ensures answered ==> head == branch && merging == None
      ensures !answered ==> head == old(head) && merging == old(merging)
    {
      if answered { head, merging := branch, None; }
    }

    /** `git merge --abort`, best effort. */
    method AbortMerge(answered: bool)
      modifies this`merging
      ensures merging == if answered then None else old(merging)
    {
      if answered { merging := None; }
    }

    /** `git commit` of whatever is staged or merging; refuses an empty commit. */
    method CommitStaged(answer: CommitAnswer) returns (exitZero: bool)
      modifies this`local, this`merging, this`dirty
      ensures exitZero <==> answer.Committed? && old(dirty || merging.Some?)
      ensures !answer.Refused? && old(dirty || merging.Some?) ==>
                local == old(local)[head := NewCommit(old(State()), answer.id)] && merging == None && !dirty
      ensures answer.Refused? || !old(dirty || merging.Some?) ==>
                local == old(local) && merging == old(merging) && dirty == old(dirty)
    {
      var some := dirty || merging.Some?;
      exitZero := some && answer.Committed?;
      if some && !answer.Refused? {
        var parents := (if head in local then [local[head]] else []) + (if merging.Some? then [merging.value] else []);
        local := local[head := Commit(answer.id, parents)];
        merging, dirty := None, false;
      }
    }

    /** `git push origin HEAD:refs/heads/branch`, without force, to the remote as others
        have left it. */
    method PushHead(branch: string, delivery: Delivery) returns (exitZero: bool, ghost found: Refs)
      requires Behind(State()) && head in local
      modifies this`remote, this`tracking, this`delivered
      ensures Behind(State()) && Advanced(old(remote), remote)
      ensures Advanced(old(remote), found) && Advanced(found, remote)
      ensures var h, forward := local[head], branch !in found || Ancestor(found[branch], local[head]);
              && (exitZero <==> delivery.Sent? && forward)
              && remote == (if !delivery.Unsent? && forward then found[branch := h] else found)
              && delivered == (if !delivery.Unsent? && forward && Lookup(found, branch) != Some(h) then old(delivered) + [Update(branch, h)] else old(delivered))
              && tracking == (if exitZero then old(tracking)[branch := h] else old(tracking))
      ensures exitZero ==> delivery.Sent? && OnRemote(State(), branch, local[head])
      ensures !exitZero && delivery.Sent? ==> branch in remote && !Ancestor(remote[branch], local[head])
      ensures delivered == old(delivered)
              || (delivered == old(delivered) + [Update(branch, local[head])] && OnRemote(State(), branch, local[head]))
      ensures old(OnRemote(State(), branch, local[head])) ==> delivered == old(delivered)
      ensures forall b | b in tracking && b != branch :: b in old(tracking) && tracking[b] == old(tracking[b])
      ensures forall b | b in old(tracking) :: b in tracking
      ensures branch in tracking ==> tracking[branch] == local[head] || (branch in old(tracking) && tracking[branch] == old(tracking[branch]))
    {
      ghost var before, h := remote, local[head];
      Others();
      ghost var was := remote;
      found := was;
      AdvancedReflexive(was);
      AdvancedTransitive(tracking, before, was);
      exitZero := delivery.Sent? && (branch !in remote || Ancestor(remote[branch], local[head]));
      if !delivery.Unsent? && (branch !in remote || Ancestor(remote[branch], local[head])) {
        if branch !in remote || remote[branch] != local[head] {
          delivered := delivered + [Update(branch, local[head])];
          if branch in before && Ancestor(h, before[branch]) {
            AncestorTransitive(h, before[branch], was[branch]);
            AncestorAntisymmetric(h, was[branch]);
          }
        }
        remote := remote[branch := local[head]];
        assert Ancestor(h, h);
        assert Advanced(was, remote) by {
          forall b | b in was ensures b in remote && Ancestor(was[b], remote[b]) {
            assert Ancestor(was[b], was[b]);
          }
        }
        AdvancedTransitive(before, was, remote);
        AdvancedTransitive(tracking, was, remote);
        if exitZero { tracking := tracking[branch := local[head]]; }
      }
    }

    /** `git merge --no-ff other`.  A conflict needs two sides that each have
        something of their own: git cannot report one when HEAD is already
        contained in `other`. */
    method MergeHeadWith(other: Commit, answer: MergeAnswer) returns (r: MergeOutcome, paths: seq<string>)
      requires head in local
      modifies this`local, this`merging
      ensures head in local && (r.AlreadyUpToDate? <==> Ancestor(other, old(local[head])))
      ensures r.MergeCommit? ==> local == old(local)[head := local[head]] && local[head].parents == [old(local[head]), other]
      ensures answer.Clean? && !r.AlreadyUpToDate? ==> r.MergeCommit? && local == old(local)[head := Commit(answer.id, [old(local[head]), other])]
      ensures !r.MergeCommit? ==> local == old(local)
      ensures r.Conflicted? ==> answer == ConflictIn(paths) && merging == Some(other) && paths != [] && !Ancestor(old(local[head]), other)
      ensures !r.Conflicted? ==> merging == old(merging) && paths == []
      ensures answer.ConflictIn? && answer.paths != [] && !Comparable(other, old(local[head])) ==> r.Conflicted?
      ensures r.NotStarted? ==> answer.MergeError? || answer == ConflictIn([])
    {
      paths := [];
      var h := local[head];
      if Ancestor(other, h) { return AlreadyUpToDate, []; }
      match answer
      case Clean(id) =>
        local := local[head := Commit(id, [h, other])];
        r := MergeCommit;
      case ConflictIn(ps) =>
        if ps == [] { return NotStarted, []; }
        if Ancestor(h, other) {
          local := local[head := Commit(0, [h, other])];
          r := MergeCommit;
        } else {
          merging := Some(other);
          r, paths := Conflicted, ps;
        }
      case MergeError => r := NotStarted;
    }
  }

  // ------------------------------------------------------------ pushBranch

  const PUSH_ATTEMPTS: nat := 3

  datatype PushScript = PushScript(headAnswered: bool, credential: bool, lsRemote: bool, tries: nat -> Delivery)

  datatype PushResult = Empty | Pushed(sha: Commit, verified: bool) | NotPushed(reason: string)

  /** One of the three tries is delivered unless the remote has moved elsewhere. */
  ghost predicate Sends(git: PushScript) { git.credential && exists n :: 1 <= n <= 3 && git.tries(n).Sent? }

  /** What every try keeps. */
  ghost predicate PushedSoFar(s: Snapshot, t: Snapshot, branch: string) {
    && (t.delivered == s.delivered
        || (HeadOf(s).Some? && t.delivered == s.delivered + [Update(branch, HeadOf(s).value)]
            && OnRemote(t, branch, HeadOf(s).value)))
    && (HeadOf(s).Some? && OnRemote(s, branch, HeadOf(s).value) ==> t.delivered == s.delivered)
    && (forall b | b in t.tracking && b != branch :: b in s.tracking && t.tracking[b] == s.tracking[b])
    && (forall b | b in s.tracking :: b in t.tracking)
    && (branch in t.tracking && (branch !in s.tracking || t.tracking[branch] != s.tracking[branch]) ==>
          HeadOf(s) == Some(t.tracking[branch]))
  }

  /** What a push promises.  Only a failed HEAD probe or an unborn HEAD gives the
      neutral `Empty`; a reported push is on the remote; a failed one of which
      a try was delivered lost against a remote that moved elsewhere. */
  ghost predicate PushSpec(s: Snapshot, t: Snapshot, branch: string, git: PushScript, r: PushResult) {
    && SameCheckout(s, t)
    && Advanced(s.remote, t.remote)
    && Behind(t)
    && (r.Empty? <==> branch != "" && (HeadOf(s).None? || !git.headAnswered))
    && (r.Empty? ==> t == s)
    && (r.Pushed? ==>
          && branch != "" && HeadOf(s) == Some(r.sha) && OnRemote(t, branch, r.sha) && Sends(git)
          && (r.verified <==> git.lsRemote && t.remote[branch] == r.sha)
          && t.tracking == s.tracking[branch := r.sha])
    && (r.NotPushed? ==>
          && r.reason == (if branch == "" then "no_branch" else if !git.credential then "credential_unavailable" else "push_failed")
          && (branch == "" || !git.credential ==> t == s) && t.tracking == s.tracking)
    && (r.NotPushed? && branch != "" && Sends(git) ==>
          HeadOf(s).Some? && branch in t.remote && !Ancestor(t.remote[branch], HeadOf(s).value))
    && PushedSoFar(s, t, branch)
  }

  lemma OnRemoteStays(s: Snapshot, t: Snapshot, branch: string, c: Commit)
    requires OnRemote(s, branch, c) && Advanced(s.remote, t.remote)
    ensures OnRemote(t, branch, c)
  {
    AncestorTransitive(c, s.remote[branch], t.remote[branch]);
  }

  method PushBranch(repo: Repo, branch: string, git: PushScript) returns (r: PushResult)
    requires Behind(repo.State())
    modifies repo
    ensures PushSpec(old(repo.State()), repo.State(), branch, git, r)
  {
    ghost var s := repo.State();
    forall b | b in s.remote ensures Ancestor(s.remote[b], s.remote[b]) {}
    if branch == "" { return NotPushed("no_branch"); }
    var localHead := repo.RevParseHead(git.headAnswered);
    if localHead.None? { return Empty; }
    if !git.credential { return NotPushed("credential_unavailable"); }
    var attempt := 1;
    while attempt <= PUSH_ATTEMPTS
      invariant 1 <= attempt <= PUSH_ATTEMPTS + 1
      invariant PushedSoFar(s, repo.State(), branch) && repo.tracking == s.tracking
      invariant forall n :: 1 <= n < attempt && git.tries(n).Sent? ==> branch in repo.remote && !Ancestor(repo.remote[branch], localHead.value)
      invariant SameCheckout(s, repo.State()) && Behind(repo.State()) && Advanced(s.remote, repo.remote)
    {
      ghost var u := repo.State();
      var exitZero, _ := repo.PushHead(branch, git.tries(attempt));
      PushStep(s, u, repo.State(), branch, localHead.value);
      if exitZero {
        var verified := false;
        ghost var v := repo.State();
        if git.lsRemote {
          repo.Others();
          OnRemoteStays(v, repo.State(), branch, localHead.value);
          AdvancedTransitive(s.remote, v.remote, repo.remote);
          AdvancedTransitive(repo.tracking, v.remote, repo.remote);
          verified := branch in repo.remote && repo.remote[branch] == localHead.value;
        }
        return Pushed(localHead.value, verified);
      }
      attempt := attempt + 1;
    }
    return NotPushed("push_failed");
  }

  /** How one more try composes with the tries before it. */
  lemma PushStep(s: Snapshot, u: Snapshot, t: Snapshot, branch: string, h: Commit)
    requires HeadOf(s) == Some(h)
    requires Advanced(s.remote, u.remote) && Advanced(u.remote, t.remote)
    ensures Advanced(s.remote, t.remote)
    ensures OnRemote(s, branch, h) ==> OnRemote(u, branch, h)
    ensures OnRemote(u, branch, h) ==> OnRemote(t, branch, h)
    ensures branch in u.remote && !Ancestor(u.remote[branch], h) ==> branch in t.remote && !Ancestor(t.remote[branch], h)
  {
    AdvancedTransitive(s.remote, u.remote, t.remote);
    if OnRemote(s, branch, h) { OnRemoteStays(s, u, branch, h); }
    if OnRemote(u, branch, h) { OnRemoteStays(u, t, branch, h); }
    if branch in u.remote && Ancestor(t.remote[branch], h) {
      AncestorTransitive(u.remote[branch], t.remote[branch], h);
    }
  }
}
