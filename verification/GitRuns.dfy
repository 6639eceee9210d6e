/** Whole runs of the git layer: any sequence of its calls on one repository, with
    other sessions pushing in between. */
module GitRuns {
  import opened CommitGraph
  import opened GitRepository
  import opened LaneBranch
  import opened FanInMerge
  import opened StageCommit
  import opened Wrappers

  /** One call with what git answered and what it returned; or the work of an agent
      and of other sessions in between. */
  datatype Call =
    | EnsureLane(unit: string, intent: string, lane: Script, laneResult: Result, fetched: Refs)
    | Merge(unit: string, intent: string, merge: MergeScript, mergeResult: MergeResult, fetched: Refs)
    | Begin(unit: string, intent: string, begin: BeginScript, beginResult: BeginResult, fetched: Refs)
    | Conclude(unit: string, conclude: ConcludeScript, concludeResult: ConcludeResult)
    | Exit(branch: string, exit: ExitScript, exitResult: RepoResult)
    | Between

  /** The call took the repository from `s` to `t`. */
  ghost predicate Did(call: Call, s: Snapshot, t: Snapshot) {
    match call
    case EnsureLane(unit, intent, git, r, fetched) => LaneSpec(s, t, unit, intent, git, r, fetched)
    case Merge(unit, intent, git, r, fetched) => MergeSpec(s, t, unit, intent, git, r, fetched)
    case Begin(unit, intent, git, r, fetched) => BeginSpec(s, t, unit, intent, git, r, fetched)
    case Conclude(unit, git, r) => ConcludeSpec(s, t, unit, git, r)
    case Exit(branch, git, r) => ExitSpec(s, t, branch, git, r)
    case Between => Advanced(s.remote, t.remote)
  }

  /** `states` are the snapshots before, between and after the calls. */
  ghost predicate IsRun(calls: seq<Call>, states: seq<Snapshot>) {
    |states| == |calls| + 1 && forall i :: 0 <= i < |calls| ==> Did(calls[i], states[i], states[i + 1])
  }

  /** Whatever a call does and however it fails, the remote only advances. */
  lemma CallAdvances(call: Call, s: Snapshot, t: Snapshot)
    requires Did(call, s, t)
    ensures Advanced(s.remote, t.remote)
  {
  }

  lemma {:induction false} RemoteOnlyAdvances(calls: seq<Call>, states: seq<Snapshot>, i: nat, j: nat)
    requires IsRun(calls, states) && i <= j < |states|
    ensures Advanced(states[i].remote, states[j].remote)
    decreases j - i
  {
    if i == j {
      AdvancedReflexive(states[i].remote);
    } else {
      RemoteOnlyAdvances(calls, states, i, j - 1);
      CallAdvances(calls[j - 1], states[j - 1], states[j]);
      AdvancedTransitive(states[i].remote, states[j - 1].remote, states[j].remote);
    }
  }

  /** What is once on a remote branch is there for the rest of the run. */
  lemma PushedIsKept(calls: seq<Call>, states: seq<Snapshot>, i: nat, j: nat, branch: string, c: Commit)
    requires IsRun(calls, states) && i <= j < |states| && OnRemote(states[i], branch, c)
    ensures OnRemote(states[j], branch, c)
  {
    RemoteOnlyAdvances(calls, states, i, j);
    OnRemoteStays(states[i], states[j], branch, c);
  }

  lemma MergeDone(calls: seq<Call>, states: seq<Snapshot>, i: nat)
    requires IsRun(calls, states) && i < |calls| && calls[i].Merge?
    ensures MergeSpec(states[i], states[i + 1], calls[i].unit, calls[i].intent, calls[i].merge, calls[i].mergeResult, calls[i].fetched)
  {}

  /** Two fan-in merges of one run: after the first has landed, the second, for the
      same unit head, delivers nothing and cannot conflict, whatever ran between. */
  lemma MergedOnceForTheRun(calls: seq<Call>, states: seq<Snapshot>, i: nat, j: nat)
    requires IsRun(calls, states) && i < j < |calls| && calls[i].Merge? && calls[j].Merge?
    requires calls[i].unit == calls[j].unit && calls[i].intent == calls[j].intent && calls[i].mergeResult.Merged?
    requires Lookup(calls[j].fetched, calls[j].unit) == Lookup(calls[i].fetched, calls[i].unit)
    ensures states[j + 1].delivered == states[j].delivered
    ensures !(calls[j].mergeResult.NotMerged? && calls[j].mergeResult.conflicts != [])
    ensures calls[j].unit != "" && calls[j].intent != "" && MergeAnswers(calls[j].merge) ==> calls[j].mergeResult.UpToDate?
  {
    var a, b := calls[i], calls[j];
    MergeDone(calls, states, i);
    MergeDone(calls, states, j);
    RemoteOnlyAdvances(calls, states, i + 1, j);
    MergeLandsOnce(a.unit, a.intent, states[i], states[i + 1], a.merge, a.mergeResult, a.fetched,
                   states[j], states[j + 1], b.merge, b.mergeResult, b.fetched);
  }

  /** The committed work of a lane that was ready stays on the remote unit branch, and
      the one of a stage exit on its branch, to the end of the run. */
  lemma ReadyWorkIsKept(calls: seq<Call>, states: seq<Snapshot>, i: nat, j: nat)
    requires IsRun(calls, states) && i < j < |states|
    ensures calls[i].EnsureLane? && calls[i].laneResult.Ready? && calls[i].lane.push.headAnswered ==>
              OnRemote(states[j], calls[i].unit, calls[i].laneResult.sha)
    ensures calls[i].Exit? && Ok(calls[i].exitResult) && HeadAnswered(calls[i].exit, calls[i].exitResult) && HeadOf(states[i + 1]).Some? ==>
              OnRemote(states[j], calls[i].branch, HeadOf(states[i + 1]).value)
  {
    var call, t := calls[i], states[i + 1];
    if call.EnsureLane? && call.laneResult.Ready? && call.lane.push.headAnswered {
      PushedIsKept(calls, states, i + 1, j, call.unit, call.laneResult.sha);
    }
    if call.Exit? && Ok(call.exitResult) && HeadAnswered(call.exit, call.exitResult) && HeadOf(t).Some? {
      DurableMeansOnRemote(t, call.branch);
      PushedIsKept(calls, states, i + 1, j, call.branch, HeadOf(t).value);
    }
  }
}
