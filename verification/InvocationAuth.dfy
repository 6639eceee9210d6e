/** The authentication of one invocation, from handoff to the last thing handed out: the
    runtime's leases and the credential session that is created from them.  A lease whose
    adapter brings its own session owns the invocation's session; otherwise the session is
    created from all leases together. */
module InvocationAuth {
  import opened CredentialSession
  import opened RuntimeLeases
  import opened Wrappers
  import BedrockIam
  import RenewalChain

  const REFRESH_BEFORE_MS := 60_000
  const REFRESH_RETRY_MS: nat := 30_000

  function MomentOf(time: Option<int>): Moment { if time.None? then Unset else At(time.value) }

  // --------------------------------------------------------------- opening

  predicate Owns(inv: Invocation, e: Entry) {
    e.lease.material.Some? && e.lease.material.value.kind in inv.adapters && e.lease.material.value.kind in inv.owning
  }

  /** The entries whose adapter brings a session. */
  function OwnersOf(inv: Invocation, entries: seq<Entry>): (r: seq<nat>)
    ensures forall k: nat :: k in r <==> k < |entries| && Owns(inv, entries[k])
    ensures forall i, j :: 0 <= i < j < |r| ==> r[i] < r[j]
  {
    if entries == [] then []
    else
      var n := |entries| - 1;
      var before := OwnersOf(inv, entries[..n]);
      assert forall i :: 0 <= i < |before| ==> before[i] in before;
      before + if Owns(inv, entries[n]) then [n] else []
  }

  function OwnerOf(inv: Invocation, entries: seq<Entry>): (r: Option<nat>)
    ensures r.Some? ==> r.value < |entries| && Owns(inv, entries[r.value])
    ensures r.None? ==> forall k :: 0 <= k < |entries| ==> !Owns(inv, entries[k])
  {
    var owners := OwnersOf(inv, entries);
    if owners == [] then
      assert forall k: nat :: k < |entries| ==> k !in owners;
      None
    else
      assert owners[0] in owners;
      Some(owners[0])
  }

  /** What the surroundings contribute: the time, the variables that the adapters prepared
      from the leases, those of the owning adapter, and the credential in its material. */
  datatype Opening = Opening(now: int, prepared: Environment, own: Environment, first: Option<BedrockIam.Credential>)

  function CeilingAt(entries: seq<Entry>, k: nat): Option<int>
    requires k < |entries|
  {
    entries[k].lease.authorizationExpiresAt
  }

  /** At most one lease owns the session, and an owning one must be authorized still. */
  predicate Resolvable(inv: Invocation, entries: seq<Entry>, now: int) {
    && IsReady(inv, entries, now) && |OwnersOf(inv, entries)| <= 1
    && var owner := OwnerOf(inv, entries);
    owner.Some? ==> CeilingAt(entries, owner.value).Some? && now < CeilingAt(entries, owner.value).value
  }

  /** And bring a credential that has not ended. */
  predicate Opens(inv: Invocation, entries: seq<Entry>, o: Opening) {
    && Resolvable(inv, entries, o.now)
    && (OwnerOf(inv, entries).Some? ==> o.first.Some? && o.now < o.first.value.expiration)
  }

  /** In other words: every lease is good and adaptable, no two own the session, and one that
      does is authorized and brings a credential, both beyond now. */
  lemma OpensIff(inv: Invocation, entries: seq<Entry>, o: Opening)
    ensures Opens(inv, entries, o) <==>
              && IsReady(inv, entries, o.now)
              && (forall i, j :: 0 <= i < j < |entries| ==> !Owns(inv, entries[i]) || !Owns(inv, entries[j]))
              && (forall k | 0 <= k < |entries| && Owns(inv, entries[k]) ::
                    && (exists end :: CeilingAt(entries, k) == Some(end) && o.now < end)
                    && exists first :: o.first == Some(first) && o.now < first.expiration)
  {
    OneOwnerIff(inv, entries);
    if |OwnersOf(inv, entries)| <= 1 { TheOwner(inv, entries); }
  }

  lemma OneOwnerIff(inv: Invocation, entries: seq<Entry>)
    ensures |OwnersOf(inv, entries)| <= 1 <==>
              forall i, j :: 0 <= i < j < |entries| ==> !Owns(inv, entries[i]) || !Owns(inv, entries[j])
  {
    var owners := OwnersOf(inv, entries);
    if |owners| >= 2 {
      assert owners[0] in owners && owners[1] in owners;
      assert owners[0] < owners[1] && Owns(inv, entries[owners[0]]) && Owns(inv, entries[owners[1]]);
    } else {
      forall i, j | 0 <= i < j < |entries| ensures !Owns(inv, entries[i]) || !Owns(inv, entries[j]) {
        assert !(i in owners && j in owners);
      }
    }
  }

  lemma TheOwner(inv: Invocation, entries: seq<Entry>)
    requires |OwnersOf(inv, entries)| <= 1
    ensures forall k: nat | k < |entries| && Owns(inv, entries[k]) :: OwnerOf(inv, entries) == Some(k)
  {
    forall k: nat | k < |entries| && Owns(inv, entries[k]) ensures OwnerOf(inv, entries) == Some(k) {
      assert k in OwnersOf(inv, entries);
    }
  }

  /** The session of an owning lease is bounded by that lease alone; the invocation's own
      session by the earliest end and the earliest ceiling of all. */
  function SessionConfig(entries: seq<Entry>, owner: Option<nat>): Config
    requires owner.Some? ==> owner.value < |entries|
  {
    if owner.Some? then
      Config(MomentOf(CeilingAt(entries, owner.value)), entries[owner.value].lease.renewal.Some?,
             BedrockIam.REFRESH_BEFORE_MS, REFRESH_RETRY_MS, "bedrock_credentials_expired", "bedrock_authorization_expired")
    else
      Config(MomentOf(Minimum(Ceilings(entries))), exists i :: 0 <= i < |entries| && entries[i].lease.renewal.Some?,
             REFRESH_BEFORE_MS, REFRESH_RETRY_MS, "credential_expired", "credential_expired")
  }

  function ConfigOf(inv: Invocation, entries: seq<Entry>): Config { SessionConfig(entries, OwnerOf(inv, entries)) }

  /** The invocation's own session renews a minute ahead if any lease can be renewed, an owned
      one five minutes ahead if its own can; both try again after half a minute. */
  lemma SessionSettings(entries: seq<Entry>, owner: Option<nat>)
    requires owner.Some? ==> owner.value < |entries|
    ensures SessionConfig(entries, owner).refreshRetryMs == 30_000
    ensures SessionConfig(entries, owner).refreshBeforeMs == if owner.Some? then 300_000 else 60_000
    ensures SessionConfig(entries, owner).refreshable <==>
              exists k: nat :: k < |entries| && (owner.Some? ==> k == owner.value) && entries[k].lease.renewal.Some?
  {
    if owner.Some? { assert entries[owner.value].lease.renewal.Some? || !SessionConfig(entries, owner).refreshable; }
  }

  /** An owned session starts from the variables of all leases. */
  function OwnEnvironment(o: Opening): Environment { Environment(o.prepared.env + o.own.env, o.own.credentials) }

  // ------------------------------------------------------------------ runs

  /** `adapted` are the leases that the session's variables were made from; `entries` the
      ones held, which a refresh replaces even if the session then turns it down. */
  datatype Auth = Auth(owner: Option<nat>, iam: BedrockIam.IamState, entries: seq<Entry>, adapted: seq<Entry>)

  datatype AuthEvent =
    | SessionEvent(event: BedrockIam.IamEvent)
    /** The brokers answer the refresh under way, one reply for every lease; `issued` is
        what the owning lease's new material holds. */
    | BrokersReply(replies: seq<RuntimeLeases.Reply>, environment: Environment, issued: Option<BedrockIam.Credential>, retry: bool)

  function Begin(inv: Invocation, entries: seq<Entry>, o: Opening): Auth
    requires Opens(inv, entries, o)
  {
    var owner := OwnerOf(inv, entries);
    var c := ConfigOf(inv, entries);
    Auth(owner,
         if owner.Some? then BedrockIam.Begin(c, o.now, o.first.value, OwnEnvironment(o))
         else BedrockIam.IamState(Start(c, o.now, MomentOf(Minimum(Expiries(entries))), o.prepared), None, None),
         entries, entries)
  }

  function RefreshOf(entries: seq<Entry>, environment: Environment): Fresh {
    Fresh(MomentOf(Minimum(Expiries(entries))), Some(environment.env), Some(environment.credentials))
  }

  /** The invocation's own session takes what was prepared from the new leases. */
  function Taken(inv: Invocation, c: Config, a: Auth, next: seq<Entry>, environment: Environment): Auth {
    var s, answer := a.iam.session, Some(RefreshOf(next, environment));
    if !IsReady(inv, next, s.now) then
      a.(iam := a.iam.(session := FinishRenewal(c, s, CredentialSession.Rejected, false)), entries := next)
    else
      a.(iam := a.iam.(session := FinishRenewal(c, s, Answered(answer), false)), entries := next,
         adapted := if Available(c, s) && Good(c, s, answer) then next else a.adapted)
  }

  function AllReply(inv: Invocation, c: Config, a: Auth, replies: seq<RuntimeLeases.Reply>, environment: Environment): Auth
    requires |replies| == |a.entries|
  {
    match AllRenewed(inv, a.entries, replies)
    case None => a.(iam := a.iam.(session := FinishRenewal(c, a.iam.session, CredentialSession.Rejected, false)))
    case Some(next) => Taken(inv, c, a, next, environment)
  }

  /** An owned session takes the new credential of its own lease, and no variables. */
  function OwnReply(inv: Invocation, c: Config, a: Auth, k: nat, replies: seq<RuntimeLeases.Reply>, issued: Option<BedrockIam.Credential>, retry: bool): Auth
    requires |replies| == |a.entries| && k < |a.entries|
  {
    match AllRenewed(inv, a.entries, replies)
    case None => a.(iam := BedrockIam.Answer(c, a.iam, None, retry))
    case Some(next) =>
      var served := IsReady(inv, next, a.iam.session.now) && next[k].lease.material.Some?;
      a.(iam := BedrockIam.Answer(c, a.iam, if served then issued else None, retry), entries := next)
  }

  function SessionStep(c: Config, a: Auth, e: BedrockIam.IamEvent): BedrockIam.IamState {
    if a.owner.Some? then (if e.BrokerAnswers? then a.iam else BedrockIam.Advance(c, a.iam, e))
    else if e.Session? && !e.event.RefreshReturned? then a.iam.(session := Next(c, a.iam.session, e.event))
    else a.iam
  }

  function Advance(inv: Invocation, c: Config, a: Auth, e: AuthEvent): Auth {
    match e
    case SessionEvent(event) => a.(iam := SessionStep(c, a, event))
    case BrokersReply(replies, environment, issued, retry) =>
      if !a.iam.session.renewing || |replies| != |a.entries| then a
      else if a.owner.None? then AllReply(inv, c, a, replies, environment)
      else if a.iam.fetched.Some? || a.owner.value >= |a.entries| then a
      else OwnReply(inv, c, a, a.owner.value, replies, issued, retry)
  }

  /** The invocation's own session does not survive a renewal that a broker refuses, or whose
      leases are not good. */
  lemma RefusedRenewalEnds(inv: Invocation, c: Config, a: Auth, replies: seq<RuntimeLeases.Reply>, environment: Environment,
                           issued: Option<BedrockIam.Credential>, retry: bool)
    requires a.owner.None? && a.iam.session.renewing && |replies| == |a.entries|
    requires AllRenewed(inv, a.entries, replies).Some? ==>
               !IsReady(inv, AllRenewed(inv, a.entries, replies).value, a.iam.session.now)
    ensures Advance(inv, c, a, BrokersReply(replies, environment, issued, retry)).iam.session.aborted.Some?
  {}

  function Onward(inv: Invocation, c: Config, a: Auth, events: seq<AuthEvent>): Auth
    decreases |events|
  {
    if events == [] then a else Onward(inv, c, Advance(inv, c, a, events[0]), events[1..])
  }

  /** The invocation after these events. */
  function After(inv: Invocation, entries: seq<Entry>, o: Opening, events: seq<AuthEvent>): Auth
    requires Opens(inv, entries, o)
  {
    Onward(inv, ConfigOf(inv, entries), Begin(inv, entries, o), events)
  }

  /** The variables are handed out. */
  predicate Hands(inv: Invocation, entries: seq<Entry>, a: Auth) { Available(ConfigOf(inv, entries), a.iam.session) }

  // ----------------------------------------------------------- invariant

  /** The ceilings are the ones the session was created under.  The end of the invocation's
      own session is the earliest of the leases behind its variables. */
  ghost predicate Bounded(a: Auth, ceilings: seq<Option<int>>) {
    && Ceilings(a.entries) == ceilings && Ceilings(a.adapted) == ceilings
    && (a.owner.None? ==> a.iam.session.expiresAt == MomentOf(Minimum(Expiries(a.adapted))))
  }

  lemma SessionKeepsItsEnd(c: Config, s: State, e: Event)
    requires !e.RefreshReturned?
    ensures Next(c, s, e).expiresAt == s.expiresAt
  {}

  lemma EndAfterRefresh(c: Config, s: State, answer: Fresh)
    requires s.renewing
    ensures FinishRenewal(c, s, CredentialSession.Rejected, false).expiresAt == s.expiresAt
    ensures FinishRenewal(c, s, Answered(Some(answer)), false).expiresAt ==
              if Available(c, s) && Good(c, s, Some(answer)) then answer.expiresAt else s.expiresAt
  {}

  lemma ReplyKeepsBounds(inv: Invocation, c: Config, a: Auth, replies: seq<RuntimeLeases.Reply>, environment: Environment, ceilings: seq<Option<int>>)
    requires Bounded(a, ceilings) && a.owner.None? && a.iam.session.renewing && |replies| == |a.entries|
    ensures Bounded(AllReply(inv, c, a, replies, environment), ceilings)
  {
    var next := AllRenewed(inv, a.entries, replies);
    if next.Some? {
      RenewedKeepsCeilings(inv, a.entries, replies);
      EndAfterRefresh(c, a.iam.session, RefreshOf(next.value, environment));
    }
  }

  lemma AdvanceKeeps(inv: Invocation, c: Config, a: Auth, e: AuthEvent, ceilings: seq<Option<int>>)
    requires Bounded(a, ceilings)
    ensures Bounded(Advance(inv, c, a, e), ceilings) && Advance(inv, c, a, e).owner == a.owner
  {
    match e {
      case SessionEvent(event) =>
        if event.Session? && !event.event.RefreshReturned? { SessionKeepsItsEnd(c, a.iam.session, event.event); }
      case BrokersReply(replies, environment, issued, retry) =>
        if a.iam.session.renewing && |replies| == |a.entries| {
          if a.owner.None? {
            ReplyKeepsBounds(inv, c, a, replies, environment, ceilings);
          } else if AllRenewed(inv, a.entries, replies).Some? {
            RenewedKeepsCeilings(inv, a.entries, replies);
          }
        }
    }
  }

  lemma {:induction false} OnwardKeeps(inv: Invocation, c: Config, a: Auth, events: seq<AuthEvent>, ceilings: seq<Option<int>>)
    requires Bounded(a, ceilings)
    ensures Bounded(Onward(inv, c, a, events), ceilings) && Onward(inv, c, a, events).owner == a.owner
    decreases |events|
  {
    if events != [] {
      AdvanceKeeps(inv, c, a, events[0], ceilings);
      OnwardKeeps(inv, c, Advance(inv, c, a, events[0]), events[1..], ceilings);
    }
  }

  lemma BeginIsBounded(inv: Invocation, entries: seq<Entry>, o: Opening)
    requires Opens(inv, entries, o)
    ensures Bounded(Begin(inv, entries, o), Ceilings(entries)) && Begin(inv, entries, o).owner == OwnerOf(inv, entries)
  {}

  /** Through any events and replies. */
  lemma AfterKeeps(inv: Invocation, entries: seq<Entry>, o: Opening, events: seq<AuthEvent>)
    requires Opens(inv, entries, o)
    ensures var a := After(inv, entries, o, events); Bounded(a, Ceilings(entries)) && a.owner == OwnerOf(inv, entries)
  {
    BeginIsBounded(inv, entries, o);
    OnwardKeeps(inv, ConfigOf(inv, entries), Begin(inv, entries, o), events, Ceilings(entries));
  }

  /** An owned session never replaces its variables, and moves as its adapter alone does. */
  ghost predicate Owned(c: Config, a: Auth, entries: seq<Entry>, environment: Environment) {
    && a.owner.Some? && a.adapted == entries && |a.entries| == |entries|
    && (!a.iam.session.disposed ==> a.iam.session.environment == environment)
    && BedrockIam.Inv(c, a.iam)
  }

  lemma QuietEnvironment(c: Config, s: State, e: Event)
    requires !e.RefreshReturned?
    ensures var t := Next(c, s, e); (s.disposed ==> t.disposed) && (!t.disposed ==> t.environment == s.environment)
  {}

  lemma RenewedEnvironment(c: Config, s: State, reply: CredentialSession.Reply, retry: bool)
    requires reply.Rejected? || (reply.answer.Some? && reply.answer.value.env.None? && reply.answer.value.credentials.None?)
    ensures var t := FinishRenewal(c, s, reply, retry); t.disposed == s.disposed && t.environment == s.environment
  {}

  lemma IamKeepsVariables(c: Config, s: BedrockIam.IamState, e: BedrockIam.IamEvent)
    ensures var t := BedrockIam.Advance(c, s, e);
            (s.session.disposed ==> t.session.disposed) && (!t.session.disposed ==> t.session.environment == s.session.environment)
  {
    match e {
      case Session(event) => if !event.RefreshReturned? { QuietEnvironment(c, s.session, event); }
      case BrokerAnswers(next, retry) => RenewedEnvironment(c, s.session, CredentialSession.Rejected, retry);
      case Settle(retry) =>
        if s.fetched.Some? { RenewedEnvironment(c, s.session, Answered(Some(Fresh(At(s.fetched.value.expiration), None, None))), retry); }
      case Requested =>
      case Served =>
    }
  }

  /** What the adapter sees of an event. */
  function Seen(inv: Invocation, a: Auth, e: AuthEvent): Option<BedrockIam.IamEvent>
    requires a.owner.Some?
  {
    match e
    case SessionEvent(event) => if event.BrokerAnswers? then None else Some(event)
    case BrokersReply(replies, environment, issued, retry) =>
      if !a.iam.session.renewing || |replies| != |a.entries| || a.iam.fetched.Some? || a.owner.value >= |a.entries| then None
      else match AllRenewed(inv, a.entries, replies)
        case None => Some(BedrockIam.BrokerAnswers(None, retry))
        case Some(next) =>
          Some(BedrockIam.BrokerAnswers(
                 if IsReady(inv, next, a.iam.session.now) && next[a.owner.value].lease.material.Some? then issued else None, retry))
  }

  lemma OwnedAdvance(inv: Invocation, c: Config, a: Auth, e: AuthEvent)
    requires a.owner.Some?
    ensures var b, seen := Advance(inv, c, a, e), Seen(inv, a, e);
            && b.owner == a.owner && b.adapted == a.adapted && |b.entries| == |a.entries|
            && b.iam == if seen.Some? then BedrockIam.Advance(c, a.iam, seen.value) else a.iam
  {}

  lemma {:induction false} OwnedKeeps(inv: Invocation, c: Config, a: Auth, events: seq<AuthEvent>, entries: seq<Entry>, environment: Environment)
    requires BedrockIam.Adapter(c) && Owned(c, a, entries, environment)
    ensures Owned(c, Onward(inv, c, a, events), entries, environment)
    decreases |events|
  {
    if events != [] {
      var seen := Seen(inv, a, events[0]);
      OwnedAdvance(inv, c, a, events[0]);
      if seen.Some? {
        BedrockIam.StepKeeps(c, a.iam, seen.value);
        IamKeepsVariables(c, a.iam, seen.value);
      }
      OwnedKeeps(inv, c, Advance(inv, c, a, events[0]), events[1..], entries, environment);
    }
  }

  /** Through any events and replies an owned session has the variables that it started with,
      made from all the leases as they first came, and ends no later than its credential. */
  lemma VariablesAreKept(inv: Invocation, entries: seq<Entry>, o: Opening, events: seq<AuthEvent>)
    requires Opens(inv, entries, o) && OwnerOf(inv, entries).Some? && CeilingAt(entries, OwnerOf(inv, entries).value).value > 0
    ensures var a := After(inv, entries, o, events);
            && a.adapted == entries && a.iam.session.expiresAt.At?
            && a.iam.cached.Some? && a.iam.session.expiresAt.ms <= a.iam.cached.value.expiration
            && (Hands(inv, entries, a) ==> a.iam.session.environment == OwnEnvironment(o))
  {
    var c, first := ConfigOf(inv, entries), Begin(inv, entries, o);
    BedrockIam.StartKeeps(c, o.now, o.first.value, OwnEnvironment(o));
    OwnedKeeps(inv, c, first, events, entries, OwnEnvironment(o));
  }

  // -------------------------------------------------------- end to end

  ghost predicate AllAhead(times: seq<Option<int>>, now: int) { forall i :: 0 <= i < |times| && times[i].Some? ==> now < times[i].value }

  lemma AheadOfTheMinimum(times: seq<Option<int>>, now: int)
    ensures Ahead(MomentOf(Minimum(times)), now) <==> AllAhead(times, now)
  {
    var m := Minimum(times);
    if m.Some? {
      var i :| 0 <= i < |times| && times[i] == m;
    }
  }

  /** Whatever was renewed, replied and refused before, variables are handed out exactly
      while the session is not cancelled and now is ahead of its bounds: of every ceiling
      and of every end of the leases behind the variables where no lease owns the
      session, and of the owning lease's ceiling and the session's end where one does. */
  lemma UsableIff(inv: Invocation, entries: seq<Entry>, o: Opening, events: seq<AuthEvent>)
    requires Opens(inv, entries, o)
    ensures var a, owner := After(inv, entries, o, events), OwnerOf(inv, entries);
            Hands(inv, entries, a) <==>
              && !a.iam.session.disposed && a.iam.session.aborted.None?
              && if owner.None? then AllAhead(Ceilings(entries), a.iam.session.now) && AllAhead(Expiries(a.adapted), a.iam.session.now)
                 else a.iam.session.now < CeilingAt(entries, owner.value).value && Ahead(a.iam.session.expiresAt, a.iam.session.now)
  {
    AfterKeeps(inv, entries, o, events);
    var a := After(inv, entries, o, events);
    AheadOfTheMinimum(Ceilings(entries), a.iam.session.now);
    AheadOfTheMinimum(Expiries(a.adapted), a.iam.session.now);
  }

  /** From this time on nothing is handed out, in any run that starts now. */
  ghost predicate NothingFrom(inv: Invocation, entries: seq<Entry>, now: int, time: int) {
    forall o, events | Opens(inv, entries, o) && o.now == now ::
      time <= After(inv, entries, o, events).iam.session.now ==> !Hands(inv, entries, After(inv, entries, o, events))
  }

  /** An owned session that just waits until some time. */
  lemma Waits(inv: Invocation, entries: seq<Entry>, now: int, time: int) returns (o: Opening, events: seq<AuthEvent>)
    requires Resolvable(inv, entries, now) && OwnerOf(inv, entries).Some? && time < CeilingAt(entries, OwnerOf(inv, entries).value).value
    ensures Opens(inv, entries, o) && o.now == now
    ensures var a := After(inv, entries, o, events); time <= a.iam.session.now && Hands(inv, entries, a) && a.adapted == entries
  {
    var ceiling := CeilingAt(entries, OwnerOf(inv, entries).value).value;
    var nothing := Environment(map[], map[]);
    o := Opening(now, nothing, nothing, Some(BedrockIam.Credential("", ceiling)));
    events := if time <= now then [] else [SessionEvent(BedrockIam.Session(Tick(time - now)))];
    var c, first := ConfigOf(inv, entries), Begin(inv, entries, o);
    if time > now {
      assert events[1..] == [];
      assert After(inv, entries, o, events) == Onward(inv, c, Advance(inv, c, first, events[0]), []);
    }
  }

  /** An owned session knows its own ceiling only. */
  lemma OwnedNothingFromIff(inv: Invocation, entries: seq<Entry>, now: int, time: int)
    requires Resolvable(inv, entries, now) && OwnerOf(inv, entries).Some?
    ensures NothingFrom(inv, entries, now, time) <==> CeilingAt(entries, OwnerOf(inv, entries).value).value <= time
  {
    if CeilingAt(entries, OwnerOf(inv, entries).value).value <= time {
      forall o, events | Opens(inv, entries, o) && o.now == now
        ensures time <= After(inv, entries, o, events).iam.session.now ==> !Hands(inv, entries, After(inv, entries, o, events))
      {
        UsableIff(inv, entries, o, events);
      }
    } else {
      var o, events := Waits(inv, entries, now, time);
    }
  }

  /** What a broker with some registry did with a handoff's grant. */
  datatype Handoff = Handoff(
    registry: RenewalChain.Registry, key: string, nowMs: int, grant: RenewalChain.Token,
    policy: RenewalChain.Policy, answer: RenewalChain.Answer)

  /** The entry came over the wire as the renewable lease that this handoff resolved. */
  ghost predicate ResolvedBy(e: Entry, h: Handoff) {
    var ctx := RenewalChain.OpenContext(h.registry, h.key, h.nowMs, RenewalChain.ResolveCredentials, h.grant);
    && RenewalChain.Sound(h.registry) && ctx.Ok? && ctx.value.claims.purpose != RenewalChain.VerifyConnection
    && RenewalChain.OwnerOf(h.registry, e.binding).Some? && RenewalChain.OwnerOf(h.registry, e.binding).value.renewal == Some(h.policy)
    && var lease := RenewalChain.ServeBinding(h.registry, h.key, ctx.value, e.binding, h.answer);
    && lease.Ok? && lease.value.material.Some?
    && LeaseFromResponse(Credential(e.binding, Some(lease.value), None)) == RenewalChain.Ok(e.lease)
  }

  /** `(issuedAt + ttlSeconds) * 1000`. */
  function CeilingOf(h: Handoff): int
    requires h.grant.Signed?
  {
    (h.grant.claims.issuedAt + h.policy.ttlSeconds) * 1000
  }

  lemma HandoffSetsTheCeiling(e: Entry, h: Handoff)
    requires ResolvedBy(e, h)
    ensures h.grant.Signed? && e.lease.authorizationExpiresAt == Some(CeilingOf(h)) && CeilingOf(h) > 0
  {
    var ctx := RenewalChain.OpenContext(h.registry, h.key, h.nowMs, RenewalChain.ResolveCredentials, h.grant).value;
    var lease := RenewalChain.ServeBinding(h.registry, h.key, ctx, e.binding, h.answer).value;
    RenewalChain.HandoffFixesTheCeiling(h.registry, h.key, h.nowMs, h.grant, ctx, e.binding, h.policy, h.answer, lease);
  }

  /** End to end: nothing is handed out from the ceiling of a handoff on, in any run, exactly
      when no lease owns the session or the owning one has no later ceiling. */
  lemma NothingPastAHandoffIff(inv: Invocation, entries: seq<Entry>, i: nat, h: Handoff, now: int)
    requires Resolvable(inv, entries, now) && i < |entries| && ResolvedBy(entries[i], h)
    ensures h.grant.Signed?
    ensures var owner := OwnerOf(inv, entries);
            NothingFrom(inv, entries, now, CeilingOf(h)) <==> owner.None? || CeilingAt(entries, owner.value).value <= CeilingOf(h)
  {
    HandoffSetsTheCeiling(entries[i], h);
    if OwnerOf(inv, entries).Some? {
      OwnedNothingFromIff(inv, entries, now, CeilingOf(h));
    } else {
      forall o, events | Opens(inv, entries, o) && o.now == now
        ensures CeilingOf(h) <= After(inv, entries, o, events).iam.session.now ==> !Hands(inv, entries, After(inv, entries, o, events))
      {
        UsableIff(inv, entries, o, events);
        assert Ceilings(entries)[i] == Some(CeilingOf(h));
      }
    }
  }

  /** Where every lease came from a handoff, none of them is outlived exactly when no
      lease owns the session or the owning one's handoff is the first to end. */
  lemma NothingPastAnyHandoffIff(inv: Invocation, entries: seq<Entry>, hs: seq<Handoff>, now: int)
    requires Resolvable(inv, entries, now)
    requires |hs| == |entries| && forall i :: 0 <= i < |entries| ==> ResolvedBy(entries[i], hs[i])
    ensures forall i :: 0 <= i < |hs| ==> hs[i].grant.Signed?
    ensures var owner := OwnerOf(inv, entries);
            (forall i :: 0 <= i < |hs| ==> NothingFrom(inv, entries, now, CeilingOf(hs[i])))
            <==> owner.None? || forall i :: 0 <= i < |hs| ==> CeilingOf(hs[owner.value]) <= CeilingOf(hs[i])
  {
    var owner := OwnerOf(inv, entries);
    if owner.Some? { HandoffSetsTheCeiling(entries[owner.value], hs[owner.value]); }
    forall i | 0 <= i < |hs|
      ensures hs[i].grant.Signed?
      ensures NothingFrom(inv, entries, now, CeilingOf(hs[i])) <==> owner.None? || CeilingAt(entries, owner.value).value <= CeilingOf(hs[i])
    {
      NothingPastAHandoffIff(inv, entries, i, hs[i], now);
    }
  }

  /** And it is their ceilings, together with the session's end, that decide. */
  lemma UsableUntilTheLeastHandoff(inv: Invocation, entries: seq<Entry>, hs: seq<Handoff>, o: Opening, events: seq<AuthEvent>)
    requires Opens(inv, entries, o)
    requires |hs| == |entries| && forall i :: 0 <= i < |entries| ==> ResolvedBy(entries[i], hs[i])
    ensures forall i :: 0 <= i < |hs| ==> hs[i].grant.Signed?
    ensures var a, owner := After(inv, entries, o, events), OwnerOf(inv, entries);
            Hands(inv, entries, a) <==>
              && !a.iam.session.disposed && a.iam.session.aborted.None?
              && if owner.None? then (forall i :: 0 <= i < |hs| ==> a.iam.session.now < CeilingOf(hs[i])) && AllAhead(Expiries(a.adapted), a.iam.session.now)
                 else a.iam.session.now < CeilingOf(hs[owner.value]) && Ahead(a.iam.session.expiresAt, a.iam.session.now)
  {
    forall i | 0 <= i < |hs| ensures hs[i].grant.Signed? && Ceilings(entries)[i] == Some(CeilingOf(hs[i])) {
      HandoffSetsTheCeiling(entries[i], hs[i]);
    }
    UsableIff(inv, entries, o, events);
    var t := After(inv, entries, o, events).iam.session.now;
    if AllAhead(Ceilings(entries), t) {
      forall i | 0 <= i < |hs| ensures t < CeilingOf(hs[i]) { assert Ceilings(entries)[i].Some?; }
    }
  }

  /** Ends of the leases behind the variables.  What an owning lease adds is the credential,
      which its session hands out by itself. */
  function EndsBehind(a: Auth): (r: seq<Option<int>>)
    ensures |r| == |a.adapted|
    ensures forall i :: 0 <= i < |r| ==> r[i] == if a.owner == Some(i) then None else a.adapted[i].lease.expiresAt
  {
    seq(|a.adapted|, i requires 0 <= i < |a.adapted| => if a.owner == Some(i) then None else a.adapted[i].lease.expiresAt)
  }

  /** No variables are handed out of a lease that has ended, in any run that starts now. */
  ghost predicate NoEndedLease(inv: Invocation, entries: seq<Entry>, now: int) {
    forall o, events | Opens(inv, entries, o) && o.now == now ::
      var a := After(inv, entries, o, events); Hands(inv, entries, a) ==> AllAhead(EndsBehind(a), a.iam.session.now)
  }

  /** The same for ends: exactly when no lease owns the session, or the owning one's
      ceiling is not after the end of any other lease. */
  lemma NoEndedLeaseIff(inv: Invocation, entries: seq<Entry>, now: int)
    requires Resolvable(inv, entries, now)
    requires OwnerOf(inv, entries).Some? ==> CeilingAt(entries, OwnerOf(inv, entries).value).value > 0
    ensures var owner := OwnerOf(inv, entries);
            NoEndedLease(inv, entries, now) <==>
              owner.None? || forall j :: 0 <= j < |entries| && j != owner.value && entries[j].lease.expiresAt.Some? ==>
                CeilingAt(entries, owner.value).value <= entries[j].lease.expiresAt.value
  {
    var owner := OwnerOf(inv, entries);
    if owner.Some? && exists j :: 0 <= j < |entries| && j != owner.value && EndsBefore(entries[j], CeilingAt(entries, owner.value).value) {
      var j :| 0 <= j < |entries| && j != owner.value && EndsBefore(entries[j], CeilingAt(entries, owner.value).value);
      var o, events := Waits(inv, entries, now, entries[j].lease.expiresAt.value);
      AfterKeeps(inv, entries, o, events);
      var a := After(inv, entries, o, events);
      assert EndsBehind(a)[j] == entries[j].lease.expiresAt;
      assert !AllAhead(EndsBehind(a), a.iam.session.now);
    } else {
      forall o, events | Opens(inv, entries, o) && o.now == now && Hands(inv, entries, After(inv, entries, o, events))
        ensures AllAhead(EndsBehind(After(inv, entries, o, events)), After(inv, entries, o, events).iam.session.now)
      {
        NoEndIsPassed(inv, entries, o, events);
      }
    }
  }

  predicate EndsBefore(e: Entry, time: int) { e.lease.expiresAt.Some? && e.lease.expiresAt.value < time }

  lemma NoEndIsPassed(inv: Invocation, entries: seq<Entry>, o: Opening, events: seq<AuthEvent>)
    requires Opens(inv, entries, o) && Hands(inv, entries, After(inv, entries, o, events))
    requires var owner := OwnerOf(inv, entries);
             owner.Some? ==>
               && CeilingAt(entries, owner.value).value > 0
               && forall j :: 0 <= j < |entries| && j != owner.value ==> !EndsBefore(entries[j], CeilingAt(entries, owner.value).value)
    ensures AllAhead(EndsBehind(After(inv, entries, o, events)), After(inv, entries, o, events).iam.session.now)
  {
    var a := After(inv, entries, o, events);
    UsableIff(inv, entries, o, events);
    AfterKeeps(inv, entries, o, events);
    if a.owner.Some? { VariablesAreKept(inv, entries, o, events); }
    forall i | 0 <= i < |a.adapted| && EndsBehind(a)[i].Some? ensures a.iam.session.now < EndsBehind(a)[i].value {
      if a.owner.None? {
        assert Expiries(a.adapted)[i] == EndsBehind(a)[i];
      } else {
        assert !EndsBefore(entries[i], CeilingAt(entries, a.owner.value).value);
      }
    }
  }

  /** Every broker sends its lease once more. */
  function SameAgain(inv: Invocation, entries: seq<Entry>): (r: seq<RuntimeLeases.Reply>)
    ensures |r| == |entries|
  {
    seq(|entries|, i requires 0 <= i < |entries| =>
      RuntimeLeases.Reply(inv.purpose, inv.projectId, inv.executionId, [Credential(entries[i].binding, Some(entries[i].lease), None)]))
  }

  ghost predicate OnTheWire(entries: seq<Entry>) {
    forall i :: 0 <= i < |entries| ==> RenewalChain.NormalizeLease(entries[i].lease) == RenewalChain.Ok(entries[i].lease)
  }

  lemma {:induction false} SameAgainRenews(inv: Invocation, entries: seq<Entry>)
    requires OnTheWire(entries)
    ensures AllRenewed(inv, entries, SameAgain(inv, entries)) == Some(entries)
  {
    if entries != [] {
      var n := |entries| - 1;
      SameAgainRenews(inv, entries[..n]);
      assert SameAgain(inv, entries)[..n] == SameAgain(inv, entries[..n]);
      assert entries[n] == Entry(entries[n].binding, entries[n].lease);
      assert Renewed(inv, entries[n], SameAgain(inv, entries)[n]) == Some(entries[n]);
      assert entries[..n] + [entries[n]] == entries;
    }
  }

  lemma OnwardTwo(inv: Invocation, c: Config, a: Auth, e: AuthEvent, f: AuthEvent)
    ensures Onward(inv, c, a, [e, f]) == Advance(inv, c, Advance(inv, c, a, e), f)
  {
    assert [e, f][1..] == [f] && [f][1..] == [];
    var b := Advance(inv, c, a, e);
    assert Onward(inv, c, b, [f]) == Onward(inv, c, Advance(inv, c, b, f), []);
  }

  /** The timer starts the renewal. */
  lemma RenewalStarts(inv: Invocation, entries: seq<Entry>, o: Opening, events: seq<AuthEvent>)
    requires Opens(inv, entries, o) && OwnerOf(inv, entries).Some?
    requires var k := OwnerOf(inv, entries).value;
             entries[k].lease.renewal.Some? && o.first.value.expiration < CeilingAt(entries, k).value
    requires o.now + BedrockIam.REFRESH_BEFORE_MS < o.first.value.expiration
    requires events == [SessionEvent(BedrockIam.Session(Tick(o.first.value.expiration - BedrockIam.REFRESH_BEFORE_MS - o.now))),
                        SessionEvent(BedrockIam.Session(TimerFires))]
    ensures var a, s := After(inv, entries, o, events), Begin(inv, entries, o).iam.session;
            && a.owner == OwnerOf(inv, entries) && a.entries == entries && a.iam.fetched.None? && a.iam.session.renewing
            && a.iam.session.now == o.first.value.expiration - BedrockIam.REFRESH_BEFORE_MS
            && a.iam.session.expiresAt == s.expiresAt && a.iam.session.environment == s.environment
            && Hands(inv, entries, a)
  {
    var c, first := ConfigOf(inv, entries), Begin(inv, entries, o);
    assert first.iam.session.timer == RenewAt(o.first.value.expiration - BedrockIam.REFRESH_BEFORE_MS);
    OnwardTwo(inv, c, first, events[0], events[1]);
  }

  /** The brokers, whose leases are all still good, answer it. */
  lemma RenewalAnswered(inv: Invocation, c: Config, a: Auth, issued: BedrockIam.Credential, e: AuthEvent)
    requires a.owner.Some? && a.owner.value < |a.entries| && a.entries[a.owner.value].lease.material.Some? && OnTheWire(a.entries)
    requires a.iam.fetched.None? && a.iam.session.renewing && IsReady(inv, a.entries, a.iam.session.now)
    requires issued.expiration > a.iam.session.now + BedrockIam.REFRESH_BEFORE_MS
    requires e == BrokersReply(SameAgain(inv, a.entries), Environment(map[], map[]), Some(issued), false)
    ensures Advance(inv, c, a, e) == a.(iam := BedrockIam.IamState(a.iam.session, Some(issued), Some(issued)))
  {
    SameAgainRenews(inv, a.entries);
  }

  lemma CredentialTaken(c: Config, s: State, end: int)
    requires s.renewing && Available(c, s) && end > s.now + c.refreshBeforeMs && c.refreshBeforeMs >= 0
    ensures var t := FinishRenewal(c, s, Answered(Some(Fresh(At(end), None, None))), false);
            && t.now == s.now && t.expiresAt == At(end) && t.environment == s.environment && t.disposed == s.disposed && t.aborted == s.aborted
  {}

  lemma RenewalSettles(inv: Invocation, c: Config, a: Auth, events: seq<AuthEvent>, issued: BedrockIam.Credential)
    requires a.owner.Some? && a.owner.value < |a.entries| && a.entries[a.owner.value].lease.material.Some? && OnTheWire(a.entries)
    requires a.iam.fetched.None? && a.iam.session.renewing && Available(c, a.iam.session) && IsReady(inv, a.entries, a.iam.session.now)
    requires c.refreshBeforeMs == BedrockIam.REFRESH_BEFORE_MS && issued.expiration > a.iam.session.now + BedrockIam.REFRESH_BEFORE_MS
    requires events == [BrokersReply(SameAgain(inv, a.entries), Environment(map[], map[]), Some(issued), false), SessionEvent(BedrockIam.Settle(false))]
    ensures var b := Onward(inv, c, a, events);
            && b.iam.session.now == a.iam.session.now && b.iam.session.expiresAt == At(issued.expiration)
            && b.iam.session.environment == a.iam.session.environment && Available(c, b.iam.session) && b.owner == a.owner
  {
    RenewalAnswered(inv, c, a, issued, events[0]);
    CredentialTaken(c, a.iam.session, issued.expiration);
    OnwardTwo(inv, c, a, events[0], events[1]);
  }

  lemma {:induction false} OnwardJoins(inv: Invocation, c: Config, a: Auth, events: seq<AuthEvent>, more: seq<AuthEvent>)
    ensures Onward(inv, c, a, events + more) == Onward(inv, c, Onward(inv, c, a, events), more)
    decreases |events|
  {
    if events == [] {
      assert events + more == more;
    } else {
      assert (events + more)[1..] == events[1..] + more;
      OnwardJoins(inv, c, Advance(inv, c, a, events[0]), events[1..], more);
    }
  }

  /** How it comes about: while all leases are good an owned session renews its credential
      beyond another lease's ceiling, and then still hands out that lease's variables. */
  lemma RenewedPastACeiling(inv: Invocation, entries: seq<Entry>, o: Opening, time: int, issued: BedrockIam.Credential) returns (events: seq<AuthEvent>)
    requires Opens(inv, entries, o) && OwnerOf(inv, entries).Some? && OnTheWire(entries)
    requires var k := OwnerOf(inv, entries).value; entries[k].lease.renewal.Some? && time < CeilingAt(entries, k).value
    requires o.now + BedrockIam.REFRESH_BEFORE_MS < o.first.value.expiration <= time < issued.expiration
    requires IsReady(inv, entries, o.first.value.expiration - BedrockIam.REFRESH_BEFORE_MS)
    ensures var a := After(inv, entries, o, events);
            a.iam.session.now == time && Hands(inv, entries, a) && a.iam.session.environment == OwnEnvironment(o)
  {
    var c, first, end := ConfigOf(inv, entries), Begin(inv, entries, o), o.first.value.expiration;
    var starts := [SessionEvent(BedrockIam.Session(Tick(end - BedrockIam.REFRESH_BEFORE_MS - o.now))), SessionEvent(BedrockIam.Session(TimerFires))];
    var settles := [BrokersReply(SameAgain(inv, entries), Environment(map[], map[]), Some(issued), false), SessionEvent(BedrockIam.Settle(false))];
    var waits := [SessionEvent(BedrockIam.Session(Tick(time - end + BedrockIam.REFRESH_BEFORE_MS)))];
    events := starts + settles + waits;
    RenewalStarts(inv, entries, o, starts);
    var a := After(inv, entries, o, starts);
    RenewalSettles(inv, c, a, settles, issued);
    OnwardJoins(inv, c, first, starts, settles);
    OnwardJoins(inv, c, first, starts + settles, waits);
    var b := Onward(inv, c, a, settles);
    assert waits[1..] == [];
    assert Onward(inv, c, b, waits) == Advance(inv, c, b, waits[0]);
  }

  const HOUR := 3_600_000

  /** Two leases: one that owns the session for eight hours, and another provider's for one. */
  function TwoLeases(b0: RenewalChain.Binding, b1: RenewalChain.Binding, r0: RenewalChain.Renewal, r1: RenewalChain.Renewal): seq<Entry> {
    [Entry(b0, RenewalChain.Lease(Some(RenewalChain.Material("iam", "")), Some(HOUR), Some(8 * HOUR), Some(r0))),
     Entry(b1, RenewalChain.Lease(Some(RenewalChain.Material("token", "")), Some(HOUR), Some(HOUR), Some(r1)))]
  }

  /** After the renewal at fifty-five minutes the second lease's variables are handed out
      at its ceiling and beyond it. */
  lemma OwnedOutlivesAnother(inv: Invocation, b0: RenewalChain.Binding, b1: RenewalChain.Binding, r0: RenewalChain.Renewal, r1: RenewalChain.Renewal,
                             prepared: Environment, own: Environment) returns (o: Opening, events: seq<AuthEvent>)
    requires inv.owning == {"iam"} && {"iam", "token"} <= inv.adapters
    requires r0.grant != RenewalChain.Junk("") && r1.grant != RenewalChain.Junk("")
    ensures var entries := TwoLeases(b0, b1, r0, r1);
            && Opens(inv, entries, o) && o.now == 0 && o.prepared == prepared && CeilingAt(entries, 1) == Some(HOUR)
            && var a := After(inv, entries, o, events);
            && a.iam.session.now == HOUR && Hands(inv, entries, a)
            && a.iam.session.environment.env == prepared.env + own.env
  {
    var entries := TwoLeases(b0, b1, r0, r1);
    o := Opening(0, prepared, own, Some(BedrockIam.Credential("first", HOUR)));
    TwoOwners(inv, entries);
    events := RenewedPastACeiling(inv, entries, o, HOUR, BedrockIam.Credential("second", 2 * HOUR));
  }

  lemma TwoOwners(inv: Invocation, entries: seq<Entry>)
    requires |entries| == 2 && Owns(inv, entries[0]) && !Owns(inv, entries[1])
    ensures OwnersOf(inv, entries) == [0] && OwnerOf(inv, entries) == Some(0)
  {
    assert entries[..1] == [entries[0]] && entries[..1][..0] == [];
    assert OwnersOf(inv, entries[..1]) == [0];
  }

  /** Nor does the session that owns an inference credential, whatever its broker answers. */
  lemma NoCredentialPastItsHandoff(e: Entry, h: Handoff, c: Config, now: int, first: BedrockIam.Credential, environment: Environment, events: seq<BedrockIam.IamEvent>)
    requires ResolvedBy(e, h)
    requires c.refreshBeforeMs == BedrockIam.REFRESH_BEFORE_MS && c.authorizationExpiresAt == MomentOf(e.lease.authorizationExpiresAt)
    ensures h.grant.Signed?
    ensures var s := BedrockIam.Run(c, BedrockIam.Begin(c, now, first, environment), events);
            CeilingOf(h) <= s.session.now ==> BedrockIam.Handed(c, s).None?
  {
    HandoffSetsTheCeiling(e, h);
    BedrockIam.HandedOutInTime(c, now, first, environment, events);
  }

  /** Not even when the other leases' replies decide with it whether a renewal comes through. */
  lemma OwnedCredentialInTime(inv: Invocation, entries: seq<Entry>, h: Handoff, o: Opening, events: seq<AuthEvent>)
    requires Opens(inv, entries, o) && OwnerOf(inv, entries).Some? && ResolvedBy(entries[OwnerOf(inv, entries).value], h)
    ensures h.grant.Signed?
    ensures var a := After(inv, entries, o, events);
            var handed := BedrockIam.Handed(ConfigOf(inv, entries), a.iam);
            handed.Some? ==> a.iam.session.now < CeilingOf(h) && a.iam.session.now < handed.value.expiration
  {
    HandoffSetsTheCeiling(entries[OwnerOf(inv, entries).value], h);
    VariablesAreKept(inv, entries, o, events);
    UsableIff(inv, entries, o, events);
  }

  // ------------------------------------------------------ the invocation

  class InvocationContext {
    const holder: LeaseHolder
    const owner: Option<nat>
    const session: Session
    /** The owning adapter's side of the session. */
    const iam: BedrockIam.IamSession?
    ghost var adapted: seq<Entry>

    ghost predicate Valid() reads holder {
      && (owner.Some? <==> iam != null) && (iam != null ==> iam.session == session)
      && (owner.Some? ==> owner.value < |holder.current|)
    }

    ghost function Parts(): set<object> { {this, holder, session} + if iam == null then {} else {iam} }

    ghost function Now(): Auth reads Parts(), if iam == null then {} else {iam.session} {
      Auth(owner, if iam == null then BedrockIam.IamState(session.Now(), None, None) else iam.Now(), holder.current, adapted)
    }

    /** The invocation's own session, from what was prepared of all leases. */
    constructor Common(holder: LeaseHolder, prepared: Prepared, o: Opening)
      requires Opens(holder.invocation, holder.current, o) && OwnerOf(holder.invocation, holder.current).None?
      requires prepared.expiresAt == Minimum(Expiries(holder.current)) && prepared.authorizationExpiresAt == Minimum(Ceilings(holder.current))
      ensures Valid() && this.holder == holder && fresh(session) && session.config == ConfigOf(holder.invocation, holder.current)
      ensures Now() == Begin(holder.invocation, holder.current, o)
    {
      this.holder, owner, iam := holder, None, null;
      session := new Session(
        Config(MomentOf(prepared.authorizationExpiresAt), exists i :: 0 <= i < |holder.current| && holder.current[i].lease.renewal.Some?,
               REFRESH_BEFORE_MS, REFRESH_RETRY_MS, "credential_expired", "credential_expired"),
        o.now, MomentOf(prepared.expiresAt), o.prepared);
      adapted := holder.current;
    }

    /** The session that the adapter of the owning lease creates. */
    constructor Owned(holder: LeaseHolder, k: nat, o: Opening)
      requires Opens(holder.invocation, holder.current, o) && OwnerOf(holder.invocation, holder.current) == Some(k)
      ensures Valid() && this.holder == holder && fresh(session) && fresh(iam) && session.config == ConfigOf(holder.invocation, holder.current)
      ensures Now() == Begin(holder.invocation, holder.current, o)
    {
      this.holder, owner := holder, Some(k);
      var lease := holder.current[k].lease;
      var s := new BedrockIam.IamSession(
        Config(MomentOf(lease.authorizationExpiresAt), lease.renewal.Some?, BedrockIam.REFRESH_BEFORE_MS, REFRESH_RETRY_MS,
               "bedrock_credentials_expired", "bedrock_authorization_expired"),
        o.now, o.first.value, OwnEnvironment(o));
      iam, session := s, s.session;
      adapted := holder.current;
    }

    /** The brokers' replies to the refresh under way reach the holder, and what it then
        prepares reaches the session: all of it, or the owning lease's credential. */
    method RefreshReturns(replies: seq<RuntimeLeases.Reply>, environment: Environment, issued: Option<BedrockIam.Credential>, retry: bool)
      requires Valid() && |replies| == |holder.current| && session.renewing && (iam != null ==> iam.fetched.None?)
      modifies Parts()
      ensures Valid() && Now() == Advance(holder.invocation, session.config, old(Now()), BrokersReply(replies, environment, issued, retry))
    {
      var r := holder.Refresh(replies, session.now);
      if iam != null {
        var served := r.Ready? && holder.current[owner.value].lease.material.Some?;
        iam.TakeBrokerAnswer(if served then issued else None, retry);
      } else if r.Ready? {
        MinimumIsUnique(r.prepared.expiresAt, Minimum(Expiries(holder.current)), Expiries(holder.current));
        TakePrepared(r.prepared.expiresAt, environment);
      } else {
        session.RefreshComesBack(CredentialSession.Rejected, false);
      }
    }

    method TakePrepared(expiresAt: Option<int>, environment: Environment)
      modifies this, session
      ensures var s, answer := old(session.Now()), Fresh(MomentOf(expiresAt), Some(environment.env), Some(environment.credentials));
              && session.Now() == FinishRenewal(session.config, s, Answered(Some(answer)), false)
              && adapted == (if Available(session.config, s) && Good(session.config, s, Some(answer)) then holder.current else old(adapted))
    {
      var answer := Fresh(MomentOf(expiresAt), Some(environment.env), Some(environment.credentials));
      if Available(session.config, session.Now()) && Good(session.config, session.Now(), Some(answer)) { adapted := holder.current; }
      session.RefreshComesBack(Answered(Some(answer)), false);
    }

    /** The variables, handed out only ahead of the session's bounds. */
    method Env() returns (r: Option<Environment>)
      requires Valid()
      modifies session
      ensures Now() == Advance(holder.invocation, session.config, old(Now()), SessionEvent(BedrockIam.Session(Use)))
      ensures r.Some? <==> Available(session.config, old(session.Now()))
      ensures r.Some? ==> r.value == session.environment
    {
      r := session.Env();
    }
  }

  method CreateSession(holder: LeaseHolder, prepared: Prepared, o: Opening) returns (context: InvocationContext)
    requires Opens(holder.invocation, holder.current, o)
    requires IsMinimum(prepared.expiresAt, Expiries(holder.current)) && IsMinimum(prepared.authorizationExpiresAt, Ceilings(holder.current))
    ensures context.Valid() && context.holder == holder && fresh(context) && fresh(context.session)
    ensures context.session.config == ConfigOf(holder.invocation, holder.current) && context.Now() == Begin(holder.invocation, holder.current, o)
  {
    var owner := OwnerOf(holder.invocation, holder.current);
    if owner.Some? {
      context := new InvocationContext.Owned(holder, owner.value, o);
    } else {
      MinimumIsUnique(prepared.expiresAt, Minimum(Expiries(holder.current)), Expiries(holder.current));
      MinimumIsUnique(prepared.authorizationExpiresAt, Minimum(Ceilings(holder.current)), Ceilings(holder.current));
      context := new InvocationContext.Common(holder, prepared, o);
    }
  }

  /** More than one owning lease, or one that its adapter does not accept. */
  method RefusesOwners(inv: Invocation, entries: seq<Entry>, o: Opening) returns (refused: bool)
    ensures IsReady(inv, entries, o.now) ==> (refused <==> !Opens(inv, entries, o))
  {
    if |OwnersOf(inv, entries)| > 1 { return true; }
    var owner := OwnerOf(inv, entries);
    if owner.None? { return false; }
    var ceiling := CeilingAt(entries, owner.value);
    refused := o.first.None? || o.first.value.expiration <= o.now || ceiling.None? || ceiling.value <= o.now;
  }

  /** The refusals on the way. */
  method PrepareToOpen(holder: LeaseHolder, o: Opening) returns (prepared: Option<Prepared>)
    ensures prepared.Some? <==> Opens(holder.invocation, holder.current, o)
    ensures prepared.Some? ==>
              IsMinimum(prepared.value.expiresAt, Expiries(holder.current)) && IsMinimum(prepared.value.authorizationExpiresAt, Ceilings(holder.current))
  {
    var outcome := holder.Prepare(o.now);
    var refused := RefusesOwners(holder.invocation, holder.current, o);
    prepared := if outcome.Ready? && !refused then Some(outcome.prepared) else None;
  }

  /** An invocation gets its session exactly when its leases are ready, at most one of them
      owns the session, and an owning one is authorized and brings a good credential. */
  method Resolve(holder: LeaseHolder, o: Opening) returns (r: Option<InvocationContext>)
    ensures r.Some? <==> Opens(holder.invocation, holder.current, o)
    ensures r.Some? ==> r.value.Valid() && r.value.holder == holder && fresh(r.value) && fresh(r.value.session)
    ensures r.Some? ==> r.value.session.config == ConfigOf(holder.invocation, holder.current)
    ensures r.Some? ==> r.value.Now() == Begin(holder.invocation, holder.current, o)
  {
    var prepared := PrepareToOpen(holder, o);
    if prepared.None? { return None; }
    var context := CreateSession(holder, prepared.value, o);
    r := Some(context);
  }
}
