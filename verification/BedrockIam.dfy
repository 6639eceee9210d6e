/** The session that serves inference credentials to a child process: a credential
    session whose renewal replaces a cached credential. */
module BedrockIam {
  import opened CredentialSession
  import opened Wrappers

  const REFRESH_BEFORE_MS := 5 * 60_000

  /** A credential and the time its issuer says it ends. */
  datatype Credential = Credential(id: string, expiration: int)

  datatype IamState = IamState(session: State, cached: Option<Credential>, fetched: Option<Credential>)

  datatype IamEvent =
    | Session(event: Event)
    /** The broker answers the refresh under way; `None` is a rejection. */
    | BrokerAnswers(next: Option<Credential>, retry: bool)
    /** The session takes what the refresh returned. */
    | Settle(retry: bool)
    | Requested
    | Served

  /** Session events that the adapter leaves to their own triggers. */
  predicate Outside(e: Event) { !e.RenewCalled? && !e.RefreshReturned? }

  function Begin(c: Config, now: int, first: Credential, environment: Environment): IamState {
    IamState(CredentialSession.Start(c, now, At(first.expiration), environment), Some(first), None)
  }

  /** `getCredentials` up to its wait: assert, then renew when the end is near. */
  function Request(c: Config, s: IamState): IamState {
    var asserted := Asserted(c, s.session);
    if asserted.aborted.Some? || s.cached.None? then s.(session := asserted)
    else if c.refreshable && s.cached.value.expiration - asserted.now <= REFRESH_BEFORE_MS then s.(session := Renew(c, asserted))
    else s.(session := asserted)
  }

  /** The refresh callback keeps the old credential until the new one is validated. */
  function Answer(c: Config, s: IamState, next: Option<Credential>, retry: bool): IamState {
    if !s.session.renewing || s.fetched.Some? then s
    else if next.None? || next.value.expiration <= s.session.now + REFRESH_BEFORE_MS
    then s.(session := FinishRenewal(c, s.session, Rejected, retry))
    else s.(cached := next, fetched := next)
  }

  function Took(c: Config, s: IamState, retry: bool): IamState {
    if s.fetched.None? then s
    else s.(fetched := None, session := FinishRenewal(c, s.session, Answered(Some(Fresh(At(s.fetched.value.expiration), None, None))), retry))
  }

  function Advance(c: Config, s: IamState, e: IamEvent): IamState {
    match e
    case Session(event) => if Outside(event) then s.(session := CredentialSession.Next(c, s.session, event)) else s
    case BrokerAnswers(next, retry) => Answer(c, s, next, retry)
    case Settle(retry) => Took(c, s, retry)
    case Requested => Request(c, s)
    case Served => s.(session := Asserted(c, s.session))
  }

  function Run(c: Config, s: IamState, events: seq<IamEvent>): IamState
    decreases |events|
  {
    if events == [] then s else Run(c, Advance(c, s, events[0]), events[1..])
  }

  /** What `getCredentials` returns after its second assertion. */
  function Handed(c: Config, s: IamState): Option<Credential> {
    if Available(c, s.session) then s.cached else None
  }

  /** A request starts a renewal exactly if the cached credential has five minutes left or less,
      and the broker's answer becomes the credential exactly if it has more. */
  lemma RenewsNearTheEnd(c: Config, s: IamState, next: Option<Credential>, retry: bool)
    requires s.cached.Some? && Available(c, s.session)
    ensures !s.session.renewing ==>
              (Request(c, s).session.renewing <==> c.refreshable && s.cached.value.expiration <= s.session.now + 300_000)
    ensures s.session.renewing && s.fetched.None? ==>
              (Answer(c, s, next, retry).fetched.Some? <==> next.Some? && next.value.expiration > s.session.now + 300_000)
    ensures Request(c, s).cached == s.cached
    ensures Answer(c, s, next, retry).cached == if Answer(c, s, next, retry).fetched != s.fetched then next else s.cached
  {}

  // ----------------------------------------------------------- invariant

  /** The adapter's own session settings. */
  predicate Adapter(c: Config) {
    c.refreshBeforeMs == REFRESH_BEFORE_MS && c.authorizationExpiresAt.At? && c.authorizationExpiresAt.ms > 0
  }

  /** A renewal starts only near the end of the credential that it replaces. */
  ghost predicate Near(s: State) { s.expiresAt.At? && s.expiresAt.ms <= s.now + REFRESH_BEFORE_MS }

  ghost predicate Inv(c: Config, s: IamState) {
    && s.session.expiresAt.At?
    && s.cached.Some? && s.session.expiresAt.ms <= s.cached.value.expiration
    && (s.session.timer.RenewAt? ==> s.session.expiresAt.ms <= s.session.timer.at + REFRESH_BEFORE_MS)
    && (s.session.renewing ==> Near(s.session))
    && (s.fetched.Some? ==> s.session.renewing && s.fetched == s.cached)
  }

  lemma StartKeeps(c: Config, now: int, first: Credential, environment: Environment)
    requires Adapter(c)
    ensures Inv(c, Begin(c, now, first, environment))
  {}

  /** Events that cannot start a renewal leave its side of the session alone. */
  lemma QuietEvent(c: Config, s: State, e: Event)
    requires Outside(e) && !e.TimerFires?
    ensures var t := CredentialSession.Next(c, s, e);
            t.expiresAt == s.expiresAt && (t.timer == s.timer || t.timer.Off?) && t.renewing == s.renewing && t.now >= s.now
  {}

  lemma TimerEvent(c: Config, s: State)
    requires s.expiresAt.At? && (s.timer.RenewAt? ==> s.expiresAt.ms <= s.timer.at + REFRESH_BEFORE_MS)
    requires s.renewing ==> Near(s)
    ensures var t := Fire(c, s);
            && t.expiresAt == s.expiresAt && t.now == s.now && (t.timer == s.timer || t.timer.Off?)
            && (t.renewing ==> Near(t)) && (s.renewing ==> t.renewing)
  {}

  lemma SessionEventKeeps(c: Config, s: IamState, e: Event)
    requires Adapter(c) && Inv(c, s) && Outside(e)
    ensures Inv(c, s.(session := CredentialSession.Next(c, s.session, e)))
  {
    if e.TimerFires? { TimerEvent(c, s.session); } else { QuietEvent(c, s.session, e); }
  }

  lemma RequestKeeps(c: Config, s: IamState)
    requires Adapter(c) && Inv(c, s)
    ensures Inv(c, Request(c, s))
  {}

  lemma FailedRenewal(c: Config, s: State, retry: bool)
    requires Adapter(c) && s.renewing && Near(s)
    ensures var t := FinishRenewal(c, s, Rejected, retry);
            && t.expiresAt == s.expiresAt && !t.renewing
            && (t.timer.RenewAt? ==> t.timer == s.timer || s.expiresAt.ms <= t.timer.at + REFRESH_BEFORE_MS)
  {}

  lemma AnswerKeeps(c: Config, s: IamState, next: Option<Credential>, retry: bool)
    requires Adapter(c) && Inv(c, s)
    ensures Inv(c, Answer(c, s, next, retry))
  {
    if s.session.renewing { FailedRenewal(c, s.session, retry); }
  }

  lemma TookSession(c: Config, s: State, end: int, retry: bool)
    requires Adapter(c) && s.renewing && Near(s) && s.expiresAt.ms <= end
    ensures var t := FinishRenewal(c, s, Answered(Some(Fresh(At(end), None, None))), retry);
            && t.expiresAt.At? && t.expiresAt.ms <= end && !t.renewing
            && (t.timer.RenewAt? ==> t.expiresAt.ms <= t.timer.at + REFRESH_BEFORE_MS || (t.timer == s.timer && t.expiresAt == s.expiresAt))
  {}

  lemma TookKeeps(c: Config, s: IamState, retry: bool)
    requires Adapter(c) && Inv(c, s)
    ensures Inv(c, Took(c, s, retry))
  {
    if s.fetched.Some? { TookSession(c, s.session, s.fetched.value.expiration, retry); }
  }

  lemma StepKeeps(c: Config, s: IamState, e: IamEvent)
    requires Adapter(c) && Inv(c, s)
    ensures Inv(c, Advance(c, s, e))
  {
    match e {
      case Session(event) => if Outside(event) { SessionEventKeeps(c, s, event); }
      case BrokerAnswers(next, retry) => AnswerKeeps(c, s, next, retry);
      case Settle(retry) => TookKeeps(c, s, retry);
      case Requested => RequestKeeps(c, s);
      case Served => SessionEventKeeps(c, s, Use);
    }
  }

  lemma {:induction false} RunKeeps(c: Config, s: IamState, events: seq<IamEvent>)
    requires Adapter(c) && Inv(c, s)
    ensures Inv(c, Run(c, s, events))
    decreases |events|
  {
    if events != [] {
      StepKeeps(c, s, events[0]);
      RunKeeps(c, Advance(c, s, events[0]), events[1..]);
    }
  }

  /** Whatever happened before, a credential that is handed out has not ended, and
      the authorization ceiling has not been reached. */
  lemma HandedOutInTime(c: Config, now: int, first: Credential, environment: Environment, events: seq<IamEvent>)
    requires Adapter(c)
    ensures var s := Run(c, Begin(c, now, first, environment), events);
            Handed(c, s).Some? ==> s.session.now < Handed(c, s).value.expiration && s.session.now < c.authorizationExpiresAt.ms
  {
    StartKeeps(c, now, first, environment);
    RunKeeps(c, Begin(c, now, first, environment), events);
  }

  // ---------------------------------------------------------- the session

  class IamSession {
    const session: Session
    var cached: Option<Credential>
    var fetched: Option<Credential>

    ghost function Now(): IamState reads this, session { IamState(session.Now(), cached, fetched) }

    constructor (config: Config, now: int, first: Credential, environment: Environment)
      ensures fresh(session) && session.config == config && Now() == Begin(config, now, first, environment)
    {
      session := new Session(config, now, At(first.expiration), environment);
      cached, fetched := Some(first), None;
    }

    /** A child asks for the credential: the part before the wait. */
    method RequestCredential()
      modifies session
      ensures Now() == Request(session.config, old(Now()))
    {
      var ok := session.AssertAvailable();
      if ok && cached.Some? && session.config.refreshable && cached.value.expiration - session.now <= REFRESH_BEFORE_MS {
        session.StartRenewal();
      }
    }

    /** The part after the wait.  What is handed out is good at this moment. */
    method HandOut() returns (r: Option<Credential>)
      modifies session
      ensures r == Handed(session.config, old(Now()))
      ensures Now() == Advance(session.config, old(Now()), Served)
    {
      var ok := session.AssertAvailable();
      r := if ok then cached else None;
    }

    /** The broker's answer to the refresh under way. */
    method TakeBrokerAnswer(next: Option<Credential>, retry: bool)
      modifies this, session
      ensures Now() == Answer(session.config, old(Now()), next, retry)
    {
      if session.renewing && fetched.None? {
        if next.None? || next.value.expiration <= session.now + REFRESH_BEFORE_MS {
          session.RefreshComesBack(Rejected, retry);
        } else {
          cached, fetched := next, next;
        }
      }
    }

    method SettleRefresh(retry: bool)
      modifies this, session
      ensures Now() == Took(session.config, old(Now()), retry)
    {
      if fetched.Some? {
        var answer := Fresh(At(fetched.value.expiration), None, None);
        fetched := None;
        session.RefreshComesBack(Answered(Some(answer)), retry);
      }
    }
  }
}
