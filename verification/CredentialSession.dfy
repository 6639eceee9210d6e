/** One invocation's credential session: timers, renewal, cancellation, reference
    counting and disposal.  `Next` says what every event does to the whole state;
    class `Session` does it step by step, and the properties hold over all runs. */
module CredentialSession {
  import opened Wrappers

  // ------------------------------------------------------------- moments

  /** A bound in milliseconds; a JavaScript number need not be one. */
  datatype Moment = Unset | At(ms: int) | PlusInfinity | MinusInfinity | NotANumber

  function Max(a: int, b: int): int { if a < b then b else a }

  /** `Math.min(a ?? Infinity, b ?? Infinity)`; `Unset` and +Infinity are alike. */
  function Earlier(a: Moment, b: Moment): Moment {
    if a.NotANumber? || b.NotANumber? then NotANumber
    else if a.MinusInfinity? || b.MinusInfinity? then MinusInfinity
    else if a.At? && b.At? then (if a.ms < b.ms then a else b)
    else if a.At? then a
    else if b.At? then b
    else PlusInfinity
  }

  /** A bound that still lets the session be used. */
  predicate Ahead(m: Moment, now: int) { m.Unset? || (m.At? && now < m.ms) }

  predicate Reached(m: Moment, now: int) { m.MinusInfinity? || (m.At? && m.ms <= now) }

  // --------------------------------------------------------------- state

  type Variables = map<string, string>

  datatype Environment = Environment(env: Variables, credentials: Variables)

  /** What the session is created with and never changes. */
  datatype Config = Config(
    authorizationExpiresAt: Moment, refreshable: bool,
    refreshBeforeMs: int, refreshRetryMs: nat,
    expirationCode: string, authorizationExpirationCode: string)

  /** The main timer renews or cancels when it fires. */
  datatype Timer = Off | RenewAt(at: int) | CancelAt(at: int)

  datatype State = State(
    now: int, references: int, disposed: bool, aborted: Option<string>,
    timer: Timer, expiryTimer: Option<int>, armedAt: int,
    renewing: bool, refreshCalls: nat, refreshReturns: nat,
    expiresAt: Moment, environment: Environment,
    resources: seq<int>, disposing: seq<int>, gone: seq<int>,
    handles: seq<bool>, ownerReleases: nat)

  datatype Fresh = Fresh(expiresAt: Moment, env: Option<Variables>, credentials: Option<Variables>)

  /** How a refresh ends: rejected, or with an answer that may be empty. */
  datatype Reply = Rejected | Answered(answer: Option<Fresh>)

  datatype Event =
    | Tick(ms: nat)
    | TimerFires
    | ExpiryFires
    | Use
    | Cancelled(reason: string)
    | RenewCalled
    | RefreshReturned(reply: Reply, retry: bool)
    | Owned(resource: int)
    | Retained
    | OwnerReleased
    | HandleReleased(handle: nat)
    | DisposerSettled

  // --------------------------------------------------- what each step does

  predicate Available(c: Config, s: State) {
    !s.disposed && s.aborted.None? && Ahead(s.expiresAt, s.now) && Ahead(c.authorizationExpiresAt, s.now)
  }

  function ExpiryReason(c: Config, now: int): string {
    if Reached(c.authorizationExpiresAt, now) then c.authorizationExpirationCode else c.expirationCode
  }

  function Cancel(s: State, reason: string): State {
    s.(aborted := if s.aborted.Some? then s.aborted else Some(reason), timer := Off, expiryTimer := None)
  }

  function Asserted(c: Config, s: State): State {
    if Available(c, s) then s else Cancel(s, ExpiryReason(c, s.now))
  }

  function Deadline(c: Config, s: State): Moment { Earlier(s.expiresAt, c.authorizationExpiresAt) }

  predicate CanRefresh(c: Config, deadline: int) {
    c.refreshable && (c.authorizationExpiresAt.At? && c.authorizationExpiresAt.ms != 0 ==> deadline < c.authorizationExpiresAt.ms)
  }

  function Schedule(c: Config, s: State): State {
    var cleared := s.(timer := Off, expiryTimer := None, armedAt := s.now);
    if s.disposed || s.aborted.Some? then cleared
    else match Deadline(c, s)
      case At(deadline) =>
        cleared.(
          expiryTimer := Some(Max(deadline, s.now + 1)),
          timer := if CanRefresh(c, deadline) then RenewAt(Max(deadline - c.refreshBeforeMs, s.now + 1)) else CancelAt(Max(deadline, s.now + 1)))
      case _ => cleared
  }

  function ScheduleRetry(c: Config, s: State): State {
    if s.disposed || s.aborted.Some? then s else s.(timer := RenewAt(s.now + c.refreshRetryMs))
  }

  /** A renewal that is under way is shared. */
  function Renew(c: Config, s: State): State {
    if s.renewing then s
    else if !Available(c, s) then Cancel(Cancel(s, ExpiryReason(c, s.now)), "credential_refresh_failed")
    else if !c.refreshable then s
    else s.(renewing := true, refreshCalls := s.refreshCalls + 1)
  }

  /** The answer must outlive the renewal margin. */
  predicate Good(c: Config, s: State, answer: Option<Fresh>) {
    answer.Some? && answer.value.expiresAt.At? && answer.value.expiresAt.ms > s.now + c.refreshBeforeMs
  }

  function Or<T>(o: Option<T>, default: T): T { if o.Some? then o.value else default }

  function Accept(s: State, answer: Fresh): State {
    s.(expiresAt := answer.expiresAt,
       environment := Environment(Or(answer.env, s.environment.env), Or(answer.credentials, s.environment.credentials)))
  }

  function Returned(s: State): State { s.(renewing := false, refreshReturns := s.refreshReturns + 1) }

  function FinishRenewal(c: Config, s: State, reply: Reply, retry: bool): State {
    if s.renewing then Settled(c, Returned(s), reply, retry) else s
  }

  /** A rejection is not checked against the bounds; the expiry timer does that. */
  function Settled(c: Config, s: State, reply: Reply, retry: bool): State {
    if reply.Rejected? then Failed(c, s, retry)
    else if !Available(c, s) then Asserted(c, s)
    else if Good(c, s, reply.answer) then Schedule(c, Accept(s, reply.answer.value))
    else Failed(c, s, retry)
  }

  function Failed(c: Config, s: State, retry: bool): State {
    if !s.disposed && s.aborted.None? && retry then ScheduleRetry(c, s) else Cancel(s, "credential_refresh_failed")
  }

  function Reversed(s: seq<int>): (r: seq<int>)
    ensures |r| == |s| && forall i :: 0 <= i < |s| ==> r[i] == s[|s| - 1 - i]
  {
    if s == [] then [] else [s[|s| - 1]] + Reversed(s[..|s| - 1])
  }

  /** `gone` are the last of the resources, the last one first. */
  predicate LastFirst(gone: seq<int>, resources: seq<int>) {
    |gone| <= |resources| && forall i :: 0 <= i < |gone| ==> gone[i] == resources[|resources| - 1 - i]
  }

  /** The next disposer is called; it runs until it settles. */
  function DisposeNext(s: State): State {
    if s.disposing == [] then s else s.(gone := s.gone + [s.disposing[0]], disposing := s.disposing[1..])
  }

  function Dispose(s: State): State {
    DisposeNext(Cancel(s.(disposed := true), "credential_session_disposed").(
      environment := Environment(map[], map[]), disposing := Reversed(s.resources)))
  }

  function Release(s: State): State {
    var less := s.(references := s.references - 1);
    if less.references > 0 || s.disposed then less else Dispose(less)
  }

  function Fire(c: Config, s: State): State {
    if s.timer.Off? || s.now < s.timer.at then s
    else if s.timer.RenewAt? then Renew(c, s.(timer := Off))
    else Cancel(s, ExpiryReason(c, s.now))
  }

  function Own(c: Config, s: State, resource: int): State {
    if Available(c, s) then s.(resources := s.resources + [resource]) else Asserted(c, s)
  }

  function Elapse(s: State, ms: nat): State { s.(now := s.now + ms) }

  function Expire(c: Config, s: State): State {
    if s.expiryTimer.None? || s.now < s.expiryTimer.value then s else Cancel(s, ExpiryReason(c, s.now))
  }

  function Retain(c: Config, s: State): State {
    if Available(c, s) then s.(references := s.references + 1, handles := s.handles + [false]) else Asserted(c, s)
  }

  function ReleaseHandle(s: State, h: nat): State {
    if h < |s.handles| && !s.handles[h] then Release(s.(handles := s.handles[h := true])) else s
  }

  function Next(c: Config, s: State, e: Event): State {
    match e
    case Tick(ms) => Elapse(s, ms)
    case TimerFires => Fire(c, s)
    case ExpiryFires => Expire(c, s)
    case Use => Asserted(c, s)
    case Cancelled(reason) => Cancel(s, reason)
    case RenewCalled => Renew(c, s)
    case RefreshReturned(reply, retry) => FinishRenewal(c, s, reply, retry)
    case Owned(resource) => Own(c, s, resource)
    case Retained => Retain(c, s)
    case OwnerReleased => Release(s.(ownerReleases := s.ownerReleases + 1))
    case HandleReleased(h) => ReleaseHandle(s, h)
    case DisposerSettled => DisposeNext(s)
  }

  function Start(c: Config, now: int, expiresAt: Moment, environment: Environment): State {
    Schedule(c, State(now, 1, false, None, Off, None, now, false, 0, 0, expiresAt, environment, [], [], [], [], 0))
  }

  function Run(c: Config, s: State, events: seq<Event>): State
    decreases |events|
  {
    if events == [] then s else Run(c, Next(c, s, events[0]), events[1..])
  }

  // ----------------------------------------------------------- invariant

  /** Handles of `retain` that have not been released. */
  function Outstanding(handles: seq<bool>): nat {
    if handles == [] then 0 else Outstanding(handles[..|handles| - 1]) + if handles[|handles| - 1] then 0 else 1
  }

  ghost predicate TimersKept(c: Config, s: State) {
    && s.armedAt <= s.now
    && (s.aborted.Some? ==> s.timer.Off? && s.expiryTimer.None?)
    && (s.aborted.None? ==>
          s.expiryTimer == match Deadline(c, s) case At(d) => Some(Max(d, s.armedAt + 1)) case _ => None)
    && (s.timer.RenewAt? ==> c.refreshable)
    && (s.renewing ==> c.refreshable)
    && s.refreshCalls == s.refreshReturns + (if s.renewing then 1 else 0)
  }

  ghost predicate ReferencesKept(s: State) {
    && s.references == 1 - s.ownerReleases + Outstanding(s.handles)
    && (s.disposed <==> s.references <= 0)
    && (s.disposed ==> s.aborted.Some?)
  }

  ghost predicate DisposalKept(s: State) {
    if s.disposed then s.gone + s.disposing == Reversed(s.resources) && (s.gone == [] ==> s.resources == [])
    else s.gone == [] && s.disposing == []
  }

  ghost predicate Inv(c: Config, s: State) { TimersKept(c, s) && ReferencesKept(s) && DisposalKept(s) }

  lemma OutstandingAppend(handles: seq<bool>)
    ensures Outstanding(handles + [false]) == Outstanding(handles) + 1
  {
    assert (handles + [false])[..|handles|] == handles;
  }

  lemma {:induction false} OutstandingRelease(handles: seq<bool>, h: nat)
    requires h < |handles| && !handles[h]
    ensures Outstanding(handles[h := true]) == Outstanding(handles) - 1
  {
    var n := |handles| - 1;
    if h < n {
      assert handles[h := true][..n] == handles[..n][h := true];
      OutstandingRelease(handles[..n], h);
    } else {
      assert handles[h := true][..n] == handles[..n];
    }
  }

  lemma DisposeKeeps(c: Config, s: State)
    requires TimersKept(c, s) && DisposalKept(s) && !s.disposed
    requires s.references == 1 - s.ownerReleases + Outstanding(s.handles) <= 0
    ensures Inv(c, Dispose(s))
  {
    var r := Reversed(s.resources);
    if r != [] { assert [r[0]] + r[1..] == r; }
  }

  lemma ReleaseKeeps(c: Config, s: State)
    requires TimersKept(c, s) && DisposalKept(s)
    requires s.references - 1 == 1 - s.ownerReleases + Outstanding(s.handles)
    requires (s.disposed <==> s.references <= 0) && (s.disposed ==> s.aborted.Some?)
    ensures Inv(c, Release(s))
  {
    var less := s.(references := s.references - 1);
    if less.references <= 0 && !s.disposed { DisposeKeeps(c, less); }
  }

  lemma CancelKeeps(c: Config, s: State, reason: string)
    requires Inv(c, s)
    ensures Inv(c, Cancel(s, reason))
  {}

  lemma ScheduleKeeps(c: Config, s: State)
    requires ReferencesKept(s) && DisposalKept(s)
    requires (s.renewing ==> c.refreshable) && s.refreshCalls == s.refreshReturns + (if s.renewing then 1 else 0)
    ensures Inv(c, Schedule(c, s))
  {}

  lemma RenewKeeps(c: Config, s: State)
    requires Inv(c, s)
    ensures Inv(c, Renew(c, s))
  {}

  lemma ReturnKeeps(c: Config, s: State)
    requires Inv(c, s) && s.renewing
    ensures Inv(c, Returned(s))
  {}

  lemma FinishKeeps(c: Config, s: State, reply: Reply, retry: bool)
    requires Inv(c, s)
    ensures Inv(c, FinishRenewal(c, s, reply, retry))
  {
    if s.renewing {
      ReturnKeeps(c, s);
      SettleKeeps(c, Returned(s), reply, retry);
    }
  }

  lemma SettleKeeps(c: Config, s: State, reply: Reply, retry: bool)
    requires Inv(c, s) && c.refreshable
    ensures Inv(c, Settled(c, s, reply, retry))
  {
    if reply.Answered? && Available(c, s) && Good(c, s, reply.answer) {
      ScheduleKeeps(c, Accept(s, reply.answer.value));
    } else {
      CancelKeeps(c, s, ExpiryReason(c, s.now));
      CancelKeeps(c, s, "credential_refresh_failed");
    }
  }

  lemma FireKeeps(c: Config, s: State)
    requires Inv(c, s)
    ensures Inv(c, Fire(c, s))
  {
    if s.timer.RenewAt? && s.timer.at <= s.now {
      assert Inv(c, s.(timer := Off));
      RenewKeeps(c, s.(timer := Off));
    }
  }

  lemma RetainKeeps(c: Config, s: State)
    requires Inv(c, s)
    ensures Inv(c, Retain(c, s))
  {
    var t := Retain(c, s);
    if Available(c, s) {
      OutstandingAppend(s.handles);
      assert TimersKept(c, t);
      assert DisposalKept(t);
    }
  }

  lemma DisposeNextKeeps(c: Config, s: State)
    requires Inv(c, s)
    ensures Inv(c, DisposeNext(s))
  {
    if s.disposing != [] {
      assert s.gone + s.disposing == s.gone + [s.disposing[0]] + s.disposing[1..];
    }
  }

  lemma HandleKeeps(c: Config, s: State, h: nat)
    requires Inv(c, s)
    ensures Inv(c, ReleaseHandle(s, h))
  {
    if h < |s.handles| && !s.handles[h] {
      OutstandingRelease(s.handles, h);
      ReleaseKeeps(c, s.(handles := s.handles[h := true]));
    }
  }

  lemma BoundsKeep(c: Config, s: State, ms: nat, resource: int)
    requires Inv(c, s)
    ensures Inv(c, Elapse(s, ms))
    ensures Inv(c, Expire(c, s))
    ensures Inv(c, Asserted(c, s))
    ensures Inv(c, Own(c, s, resource))
  {
    CancelKeeps(c, s, ExpiryReason(c, s.now));
  }

  lemma StepKeeps(c: Config, s: State, e: Event)
    requires Inv(c, s)
    ensures Inv(c, Next(c, s, e))
  {
    match e {
      case Tick(ms) => BoundsKeep(c, s, ms, 0);
      case TimerFires => FireKeeps(c, s);
      case ExpiryFires => BoundsKeep(c, s, 0, 0);
      case Use => BoundsKeep(c, s, 0, 0);
      case Cancelled(reason) => CancelKeeps(c, s, reason);
      case RenewCalled => RenewKeeps(c, s);
      case RefreshReturned(reply, retry) => FinishKeeps(c, s, reply, retry);
      case Owned(resource) => BoundsKeep(c, s, 0, resource);
      case Retained => RetainKeeps(c, s);
      case OwnerReleased => OwnerKeeps(c, s);
      case HandleReleased(h) => HandleKeeps(c, s, h);
      case DisposerSettled => DisposeNextKeeps(c, s);
    }
  }

  lemma OwnerKeeps(c: Config, s: State)
    requires Inv(c, s)
    ensures Inv(c, Release(s.(ownerReleases := s.ownerReleases + 1)))
  {
    ReleaseKeeps(c, s.(ownerReleases := s.ownerReleases + 1));
  }

  lemma StartKeeps(c: Config, now: int, expiresAt: Moment, environment: Environment)
    ensures Inv(c, Start(c, now, expiresAt, environment))
  {}

  lemma {:induction false} RunKeeps(c: Config, s: State, events: seq<Event>)
    requires Inv(c, s)
    ensures Inv(c, Run(c, s, events))
    decreases |events|
  {
    if events != [] {
      StepKeeps(c, s, events[0]);
      RunKeeps(c, Next(c, s, events[0]), events[1..]);
    }
  }

  // ---------------------------------------------------------- main results

  /** The earlier of two bounds is one of them, and no later than either. */
  lemma EarlierIs(a: Moment, b: Moment)
    ensures Earlier(a, b).NotANumber? <==> a.NotANumber? || b.NotANumber?
    ensures Earlier(a, b).MinusInfinity? <==> !Earlier(a, b).NotANumber? && (a.MinusInfinity? || b.MinusInfinity?)
    ensures Earlier(a, b).At? <==>
              !Earlier(a, b).NotANumber? && !Earlier(a, b).MinusInfinity? && (a.At? || b.At?)
    ensures Earlier(a, b).At? ==> Earlier(a, b) in {a, b}
    ensures Earlier(a, b).At? ==> (a.At? ==> Earlier(a, b).ms <= a.ms) && (b.At? ==> Earlier(a, b).ms <= b.ms)
  {}

  /** A bound that is no time at all is past as well. */
  predicate Past(m: Moment, now: int) { !m.Unset? && (m.At? ==> m.ms <= now) }

  /** What a session past one of its bounds is told: an authorization that ended comes first. */
  function Told(c: Config, now: int): string {
    match c.authorizationExpiresAt
    case MinusInfinity => c.authorizationExpirationCode
    case At(ms) => if now >= ms then c.authorizationExpirationCode else c.expirationCode
    case _ => c.expirationCode
  }

  predicate Over(c: Config, s: State) { Past(s.expiresAt, s.now) || Past(c.authorizationExpiresAt, s.now) }

  /** Whether an event ends a session, and the reason it is given. */
  function Ending(c: Config, s: State, e: Event): Option<string> {
    match e
    case Tick(_) => None
    case DisposerSettled => None
    case Cancelled(reason) => Some(reason)
    case OwnerReleased => if s.references == 1 then Some("credential_session_disposed") else None
    case HandleReleased(h) =>
      if s.references == 1 && h < |s.handles| && !s.handles[h] then Some("credential_session_disposed") else None
    case TimerFires =>
      if !s.timer.Off? && s.timer.at <= s.now && (s.timer.CancelAt? || (!s.renewing && Over(c, s))) then Some(Told(c, s.now)) else None
    case ExpiryFires => if s.expiryTimer.Some? && s.expiryTimer.value <= s.now then Some(Told(c, s.now)) else None
    case RenewCalled => if !s.renewing && Over(c, s) then Some(Told(c, s.now)) else None
    case RefreshReturned(reply, retry) =>
      if !s.renewing then None
      else if reply.Answered? && Over(c, s) then Some(Told(c, s.now))
      else if retry || Outlives(c, s, reply) then None
      else Some("credential_refresh_failed")
    case _ => if Over(c, s) then Some(Told(c, s.now)) else None
  }

  /** An answer with a finite end, later than the renewal margin from now. */
  predicate Outlives(c: Config, s: State, reply: Reply) {
    match reply
    case Answered(Some(Fresh(At(end), _, _))) => s.now + c.refreshBeforeMs < end
    case _ => false
  }

  /** A session ends at exactly these events, and for exactly these reasons. */
  lemma EndsWhen(c: Config, s: State, e: Event)
    requires Inv(c, s) && s.aborted.None?
    ensures Next(c, s, e).aborted == Ending(c, s, e)
  {
    ReferencesOut(s);
  }

  lemma ReferencesOut(s: State)
    requires ReferencesKept(s) && s.aborted.None?
    ensures s.references >= 1
  {}

  /** A timer that is to fire `ahead` of a time fires then, or 1 ms from now if that is past. */
  predicate FiresAhead(at: int, time: int, ahead: int, now: int) { at > now && (at == time - ahead || (at == now + 1 && time - ahead <= now)) }

  /** The renewal timer: it runs ahead of the end by the margin, unless the end is that of the
      authorization itself, when there is nothing to renew to. */
  ghost predicate MainTimer(c: Config, t: State) {
    match Deadline(c, t)
    case At(end) =>
      if c.refreshable && (c.authorizationExpiresAt.At? ==> c.authorizationExpiresAt.ms == 0 || end < c.authorizationExpiresAt.ms)
      then t.timer.RenewAt? && FiresAhead(t.timer.at, end, c.refreshBeforeMs, t.now)
      else t.timer.CancelAt? && FiresAhead(t.timer.at, end, 0, t.now)
    case _ => t.timer.Off?
  }

  lemma MainTimerAtStart(c: Config, now: int, expiresAt: Moment, environment: Environment)
    ensures MainTimer(c, Start(c, now, expiresAt, environment))
  {}

  /** A refresh that comes back to a session that goes on: a good answer is taken, and the main
      timer set for its end; any other leaves everything, and is retried after the pause. */
  lemma AfterRefresh(c: Config, s: State, reply: Reply, retry: bool)
    requires Inv(c, s) && s.renewing && s.aborted.None? && Ending(c, s, RefreshReturned(reply, retry)).None?
    ensures var t, was := Next(c, s, RefreshReturned(reply, retry)), s.(renewing := false, refreshReturns := s.refreshReturns + 1);
            if Outlives(c, s, reply) then
              && var answer := reply.answer.value;
              && MainTimer(c, t) && t.expiresAt == answer.expiresAt
              && t.environment.env == (if answer.env.Some? then answer.env.value else s.environment.env)
              && t.environment.credentials == (if answer.credentials.Some? then answer.credentials.value else s.environment.credentials)
              && t == was.(expiresAt := t.expiresAt, environment := t.environment, timer := t.timer, expiryTimer := t.expiryTimer, armedAt := t.now)
            else
              t == was.(timer := RenewAt(s.now + c.refreshRetryMs))
  {
    ReferencesOut(s);
  }

  predicate Goes(c: Config, s: State) { s.aborted.None? && !Over(c, s) }

  /** A renewal starts when it is asked for or due, none is under way, and the session goes on. */
  predicate StartsRenewal(c: Config, s: State, e: Event) {
    && (e.RenewCalled? || (e.TimerFires? && s.timer.RenewAt? && s.timer.at <= s.now))
    && c.refreshable && !s.renewing && Goes(c, s)
  }

  /** Renewals are single-flight, and only an answer or the disposal changes what is handed out. */
  lemma RenewalStep(c: Config, s: State, e: Event)
    requires Inv(c, s)
    ensures var n := Next(c, s, e);
            && n.refreshCalls == s.refreshCalls + (if StartsRenewal(c, s, e) then 1 else 0)
            && (n.renewing <==> StartsRenewal(c, s, e) || (s.renewing && !e.RefreshReturned?))
            && (!e.RefreshReturned? ==> n.expiresAt == s.expiresAt && (n.environment == s.environment || n.disposed))
            && (n.disposed && !s.disposed ==> n.environment == Environment(map[], map[]))
  {
    StepReferences(c, s, e);
  }

  /** Resources and handles are taken while the session goes on, in order. */
  lemma TakingStep(c: Config, s: State, e: Event)
    requires Inv(c, s)
    ensures var n := Next(c, s, e);
            && n.now == s.now + (if e.Tick? then e.ms else 0)
            && n.resources == s.resources + (if e.Owned? && Goes(c, s) then [e.resource] else [])
            && n.handles == (if e.Retained? && Goes(c, s) then s.handles + [false]
                             else if e.HandleReleased? && e.handle < |s.handles| then s.handles[e.handle := true] else s.handles)
            && n.ownerReleases == s.ownerReleases + (if e.OwnerReleased? then 1 else 0)
  {
    StepReferences(c, s, e);
  }

  lemma StepReferences(c: Config, s: State, e: Event)
    requires Inv(c, s)
    ensures Goes(c, s) <==> Available(c, s)
    ensures e.HandleReleased? && e.handle < |s.handles| && s.handles[e.handle] ==> s.handles[e.handle := true] == s.handles
  {}

  lemma AbortStays(c: Config, s: State, e: Event)
    requires Inv(c, s) && s.aborted.Some?
    ensures Next(c, s, e).aborted == s.aborted
  {}

  /** Abort is for ever, keeps its first reason, and leaves no timer armed. */
  lemma {:induction false} AbortIsPermanent(c: Config, s: State, events: seq<Event>)
    requires Inv(c, s) && s.aborted.Some?
    ensures var t := Run(c, s, events); t.aborted == s.aborted && t.timer.Off? && t.expiryTimer.None?
    decreases |events|
  {
    if events != [] {
      StepKeeps(c, s, events[0]);
      AbortStays(c, s, events[0]);
      AbortIsPermanent(c, Next(c, s, events[0]), events[1..]);
    }
  }

  lemma StepGoesOn(c: Config, s: State, e: Event)
    ensures Next(c, s, e).now >= s.now
  {}

  lemma {:induction false} TimeGoesOn(c: Config, s: State, events: seq<Event>)
    ensures Run(c, s, events).now >= s.now
    decreases |events|
  {
    if events != [] {
      StepGoesOn(c, s, events[0]);
      TimeGoesOn(c, Next(c, s, events[0]), events[1..]);
    }
  }

  /** While the session is not aborted and its deadline is finite, the expiry timer
      is armed for the deadline, or for 1 ms after it was armed if that is later. */
  lemma ExpiryTimerArmed(c: Config, now: int, expiresAt: Moment, environment: Environment, events: seq<Event>)
    ensures var t := Run(c, Start(c, now, expiresAt, environment), events);
            t.aborted.None? && Deadline(c, t).At? ==>
              t.expiryTimer == Some(Max(Deadline(c, t).ms, t.armedAt + 1)) && t.armedAt <= t.now
  {
    StartKeeps(c, now, expiresAt, environment);
    RunKeeps(c, Start(c, now, expiresAt, environment), events);
  }

  /** So if no due timer is left waiting, a session past its deadline is aborted. */
  lemma PromptTimersCancel(c: Config, s: State)
    requires Inv(c, s) && Deadline(c, s).At? && s.armedAt < Deadline(c, s).ms <= s.now
    requires s.expiryTimer.Some? ==> s.now < s.expiryTimer.value
    ensures s.aborted.Some? && forall events :: !Available(c, Run(c, s, events))
  {
    forall events ensures !Available(c, Run(c, s, events)) { AbortIsPermanent(c, s, events); }
  }

  /** An accepted renewal re-arms with the deadline ahead, never in a spin. */
  lemma RenewalMovesTheDeadlineAhead(c: Config, s: State, answer: Option<Fresh>, retry: bool)
    requires Inv(c, s) && s.renewing && Available(c, s) && Good(c, s, answer) && c.refreshBeforeMs >= 0 && s.now >= 0
    ensures var t := Next(c, s, RefreshReturned(Answered(answer), retry));
            && Available(c, t) && t.armedAt == t.now < Deadline(c, t).ms
            && (t.timer.RenewAt? ==> t.timer.at == t.expiresAt.ms - c.refreshBeforeMs > t.now)
            && (t.timer.CancelAt? ==> t.timer.at == Deadline(c, t).ms)
  {}

  /** Once the authorization ceiling is reached nothing is available again,
      whatever was renewed before and is renewed after. */
  lemma CeilingHolds(c: Config, s: State, events: seq<Event>, later: seq<Event>)
    requires c.authorizationExpiresAt.At? && Run(c, s, events).now >= c.authorizationExpiresAt.ms
    ensures !Available(c, Run(c, Run(c, s, events), later))
  {
    TimeGoesOn(c, Run(c, s, events), later);
  }

  lemma DisposedLastFirst(s: State)
    requires DisposalKept(s) && s.disposed
    ensures LastFirst(s.gone, s.resources)
  {
    forall i | 0 <= i < |s.gone| ensures s.gone[i] == s.resources[|s.resources| - 1 - i] {
      assert s.gone[i] == (s.gone + s.disposing)[i];
    }
  }

  /** Disposed exactly when the owner has let go more often than handles are out;
      for an owner that lets go once, exactly when the last reference goes. */
  lemma DisposedWithTheLastReference(c: Config, now: int, expiresAt: Moment, environment: Environment, events: seq<Event>)
    ensures var t := Run(c, Start(c, now, expiresAt, environment), events);
            && (t.disposed <==> t.ownerReleases > Outstanding(t.handles))
            && (t.ownerReleases <= 1 ==> (t.disposed <==> t.ownerReleases == 1 && Outstanding(t.handles) == 0))
            && (t.disposed ==> LastFirst(t.gone, t.resources) && (t.resources != [] ==> t.gone != []))
            && (!t.disposed ==> t.gone == [])
  {
    StartKeeps(c, now, expiresAt, environment);
    RunKeeps(c, Start(c, now, expiresAt, environment), events);
    var t := Run(c, Start(c, now, expiresAt, environment), events);
    if t.disposed { DisposedLastFirst(t); }
  }

  /** An owner that lets go twice takes the session from under a handle. */
  lemma SecondOwnerReleaseDisposesEarly(c: Config, now: int, environment: Environment)
    requires c.authorizationExpiresAt.Unset?
    ensures var t := Run(c, Start(c, now, Unset, environment), [Retained, OwnerReleased, OwnerReleased]);
            t.disposed && Outstanding(t.handles) == 1
  {
    var s := Start(c, now, Unset, environment);
    var events := [OwnerReleased, OwnerReleased];
    assert [Retained, OwnerReleased, OwnerReleased][1..] == events;
    assert events[1..] == [OwnerReleased] && [OwnerReleased][1..] == [];
    TwoReleases(c, Next(c, s, Retained));
    OutstandingAppend([]);
    assert [] + [false] == [false];
  }

  lemma TwoReleases(c: Config, s: State)
    requires s.references == 2 && !s.disposed
    ensures var t := Run(c, s, [OwnerReleased, OwnerReleased]); t.disposed && t.handles == s.handles
  {
    var events := [OwnerReleased, OwnerReleased];
    assert events[1..] == [OwnerReleased] && [OwnerReleased][1..] == [];
    var t := Next(c, s, OwnerReleased);
    assert Run(c, t, [OwnerReleased]) == Run(c, Next(c, t, OwnerReleased), []);
  }

  lemma DisposalStep(c: Config, s: State, e: Event)
    requires Inv(c, s) && s.disposed
    ensures var n := Next(c, s, e); n.disposed && n.resources == s.resources && s.gone <= n.gone
  {}

  /** Disposed resources stay disposed: the list is fixed and is worked off in
      order, so each is disposed at most once. */
  lemma {:induction false} DisposalOnlyAdvances(c: Config, s: State, events: seq<Event>)
    requires Inv(c, s) && s.disposed
    ensures var t := Run(c, s, events);
            t.disposed && t.resources == s.resources && s.gone <= t.gone && LastFirst(t.gone, s.resources)
    decreases |events|
  {
    if events == [] {
      DisposedLastFirst(s);
    } else {
      var n := Next(c, s, events[0]);
      StepKeeps(c, s, events[0]);
      DisposalStep(c, s, events[0]);
      DisposalOnlyAdvances(c, n, events[1..]);
    }
  }

  function Settlements(n: nat): seq<Event> { if n == 0 then [] else [DisposerSettled] + Settlements(n - 1) }

  /** Once every disposer has settled, all of them have been called, in reverse. */
  lemma {:induction false} EverythingIsDisposed(c: Config, s: State)
    requires Inv(c, s) && s.disposed
    ensures var gone := Run(c, s, Settlements(|s.disposing|)).gone;
            |gone| == |s.resources| && LastFirst(gone, s.resources)
    decreases |s.disposing|
  {
    if s.disposing == [] {
      assert s.gone + [] == s.gone;
    } else {
      var n := Next(c, s, DisposerSettled);
      StepKeeps(c, s, DisposerSettled);
      assert Settlements(|s.disposing|)[1..] == Settlements(|n.disposing|);
      EverythingIsDisposed(c, n);
    }
  }

  // ---------------------------------------------------------- the session

  class Session {
    const config: Config
    var now: int
    var references: int
    var disposed: bool
    var aborted: Option<string>
    var timer: Timer
    var expiryTimer: Option<int>
    ghost var armedAt: int
    var renewing: bool
    var refreshCalls: nat
    var refreshReturns: nat
    var expiresAt: Moment
    var environment: Environment
    var resources: seq<int>
    var disposing: seq<int>
    var gone: seq<int>
    /** The `released` flag of every handle that `retain` gave out. */
    var handles: seq<bool>
    ghost var ownerReleases: nat

    ghost function Now(): State reads this {
      State(now, references, disposed, aborted, timer, expiryTimer, armedAt, renewing, refreshCalls, refreshReturns,
            expiresAt, environment, resources, disposing, gone, handles, ownerReleases)
    }

    constructor (config: Config, now: int, expiresAt: Moment, environment: Environment)
      ensures this.config == config && Now() == Start(config, now, expiresAt, environment)
    {
      this.config, this.now, this.expiresAt, this.environment := config, now, expiresAt, environment;
      references, disposed, aborted, timer, expiryTimer, armedAt := 1, false, None, Off, None, now;
      renewing, refreshCalls, refreshReturns := false, 0, 0;
      resources, disposing, gone, handles, ownerReleases := [], [], [], [], 0;
      new;
      ScheduleTimers();
    }

    method Abort(reason: string)
      modifies this`aborted, this`timer, this`expiryTimer
      ensures Now() == Cancel(old(Now()), reason)
    {
      if aborted.None? { aborted := Some(reason); }
      timer := Off;
      expiryTimer := None;
    }

    method ScheduleTimers()
      modifies this`timer, this`expiryTimer, this`armedAt
      ensures Now() == Schedule(config, old(Now()))
    {
      timer, expiryTimer, armedAt := Off, None, now;
      if disposed || aborted.Some? { return; }
      var deadline := Earlier(expiresAt, config.authorizationExpiresAt);
      if !deadline.At? { return; }
      expiryTimer := Some(now + Max(1, deadline.ms - now));
      var canRefresh := CanRefresh(config, deadline.ms);
      var due := deadline.ms - if canRefresh then config.refreshBeforeMs else 0;
      var at := now + Max(1, due - now);
      timer := if canRefresh then RenewAt(at) else CancelAt(at);
    }

    method AssertAvailable() returns (ok: bool)
      modifies this`aborted, this`timer, this`expiryTimer
      ensures ok == Available(config, old(Now()))
      ensures Now() == Asserted(config, old(Now()))
    {
      ok := !disposed && aborted.None? && Ahead(expiresAt, now) && Ahead(config.authorizationExpiresAt, now);
      if !ok { Abort(ExpiryReason(config, now)); }
    }

    /** The variables of the session, handed out only before both bounds. */
    method Env() returns (r: Option<Environment>)
      modifies this`aborted, this`timer, this`expiryTimer
      ensures Now() == Next(config, old(Now()), Use)
      ensures r.Some? <==> Available(config, old(Now()))
      ensures r.Some? ==> r.value == environment && Ahead(expiresAt, now) && Ahead(config.authorizationExpiresAt, now)
      ensures r.None? ==> aborted.Some?
    {
      var ok := AssertAvailable();
      r := if ok then Some(environment) else None;
    }

    method StartRenewal()
      modifies this`aborted, this`timer, this`expiryTimer, this`renewing, this`refreshCalls
      ensures Now() == Renew(config, old(Now()))
    {
      if renewing { return; }
      var ok := AssertAvailable();
      if !ok {
        Abort("credential_refresh_failed");
      } else if config.refreshable {
        renewing, refreshCalls := true, refreshCalls + 1;
      }
    }

    method TakeAnswer(answer: Fresh)
      modifies this`expiresAt, this`environment, this`timer, this`expiryTimer, this`armedAt
      ensures Now() == Schedule(config, Accept(old(Now()), answer))
    {
      expiresAt := answer.expiresAt;
      environment := Environment(Or(answer.env, environment.env), Or(answer.credentials, environment.credentials));
      ScheduleTimers();
    }

    method RefreshFailed(retry: bool)
      modifies this`timer, this`expiryTimer, this`aborted
      ensures Now() == Failed(config, old(Now()), retry)
    {
      if aborted.None? && !disposed && retry {
        timer := RenewAt(now + config.refreshRetryMs);
      } else {
        Abort("credential_refresh_failed");
      }
    }

    /** The refresh that is under way comes back. */
    method RefreshComesBack(reply: Reply, retry: bool)
      modifies this
      ensures Now() == FinishRenewal(config, old(Now()), reply, retry)
    {
      if renewing {
        renewing, refreshReturns := false, refreshReturns + 1;
        assert Now() == Returned(old(Now()));
        FinishRefresh(reply, retry);
      }
    }

    method FinishRefresh(reply: Reply, retry: bool)
      modifies this`expiresAt, this`environment, this`timer, this`expiryTimer, this`armedAt, this`aborted
      ensures Now() == Settled(config, old(Now()), reply, retry)
    {
      if reply.Rejected? {
        RefreshFailed(retry);
        return;
      }
      var ok := AssertAvailable();
      if ok { CheckAnswer(reply.answer, retry); }
    }

    method CheckAnswer(answer: Option<Fresh>, retry: bool)
      modifies this`expiresAt, this`environment, this`timer, this`expiryTimer, this`armedAt, this`aborted
      ensures Now() == if Good(config, old(Now()), answer) then Schedule(config, Accept(old(Now()), answer.value)) else Failed(config, old(Now()), retry)
    {
      if answer.None? || !answer.value.expiresAt.At? || answer.value.expiresAt.ms <= now + config.refreshBeforeMs {
        RefreshFailed(retry);
      } else {
        TakeAnswer(answer.value);
      }
    }

    method OnTimer()
      modifies this
      ensures Now() == Next(config, old(Now()), TimerFires)
    {
      if timer.Off? || now < timer.at { return; }
      if timer.RenewAt? {
        timer := Off;
        StartRenewal();
      } else {
        Abort(ExpiryReason(config, now));
      }
    }

    method OnExpiryTimer()
      modifies this
      ensures Now() == Next(config, old(Now()), ExpiryFires)
    {
      if expiryTimer.Some? && expiryTimer.value <= now { Abort(ExpiryReason(config, now)); }
    }

    method Own(resource: int)
      modifies this
      ensures Now() == Next(config, old(Now()), Owned(resource))
    {
      var ok := AssertAvailable();
      if ok { resources := resources + [resource]; }
    }

    method Retain() returns (handle: Option<nat>)
      modifies this
      ensures Now() == Next(config, old(Now()), Retained)
      ensures handle.Some? ==> handle.value == |old(handles)| < |handles| && !handles[handle.value]
    {
      handle := None;
      var ok := AssertAvailable();
      if ok {
        references := references + 1;
        handle, handles := Some(|handles|), handles + [false];
      }
    }

    method ReleaseOne()
      modifies this
      ensures Now() == Release(old(Now()))
    {
      references := references - 1;
      if references <= 0 && !disposed {
        disposed := true;
        Abort("credential_session_disposed");
        StartDisposal();
      }
    }

    method StartDisposal()
      modifies this`environment, this`gone, this`disposing
      ensures Now() == DisposeNext(old(Now()).(environment := Environment(map[], map[]), disposing := Reversed(resources)))
    {
      environment := Environment(map[], map[]);
      disposing := Reversed(resources);
      CallNextDisposer();
    }

    method CallNextDisposer()
      modifies this`gone, this`disposing
      ensures Now() == DisposeNext(old(Now()))
    {
      if disposing != [] { gone, disposing := gone + [disposing[0]], disposing[1..]; }
    }

    method ReleaseByOwner()
      modifies this
      ensures Now() == Next(config, old(Now()), OwnerReleased)
    {
      ownerReleases := ownerReleases + 1;
      ReleaseOne();
    }

    /** A handle releases once, however often it is called. */
    method ReleaseHandle(handle: nat)
      modifies this
      ensures Now() == Next(config, old(Now()), HandleReleased(handle))
    {
      if handle < |handles| && !handles[handle] {
        handles := handles[handle := true];
        ReleaseOne();
      }
    }
  }
}
