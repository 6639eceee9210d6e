/** The broker's side of credential renewal: grants and renewal tokens, the registry
    of providers, and the leases composed from them.  Signing is ideal: a token is
    its claims and the key that signed them. */
module RenewalChain {
  import opened Wrappers

  datatype Error = GrantInvalid | GrantExpired | LeaseInvalid | ModeUnavailable | AdapterFailed

  datatype Result<T> = Ok(value: T) | Err(error: Error)

  // -------------------------------------------------------------- grants

  /** `aidlc-agent-credential-broker`, or an audience that a provider declared. */
  datatype Audience = BrokerGrants | Declared(name: string)

  const GRANT_TTL_SECONDS := 300
  const CLOCK_SKEW_SECONDS := 30
  const MAX_RENEWAL_TTL_SECONDS := 86_400
  const MAX_SAFE_INTEGER := 9007199254740991

  datatype Backend = Bedrock | Kiro | Litellm

  datatype Source = Platform | Space | User

  /** A connection pinned by the handoff; `identity` stands for its other fields. */
  datatype Binding = Binding(version: int, backend: Backend, mechanism: string, source: Source, projectId: Option<string>, identity: string)

  datatype Purpose = Execution | Capabilities | Compose | Discussion | VerifyConnection

  datatype Claims = Claims(
    version: int, audience: Audience, grantId: string, purpose: Purpose,
    projectId: Option<string>, executionId: Option<string>,
    bindings: seq<Binding>, issuedAt: int, expiresAt: int)

  datatype Token = Signed(claims: Claims, key: string) | Junk(text: string)

  function OfBackend(bindings: seq<Binding>, b: Backend): (r: seq<Binding>)
    ensures forall x :: x in r ==> x in bindings && x.backend == b
    ensures (forall x :: x in bindings ==> x.backend != b) ==> r == []
  {
    if bindings == [] then []
    else (if bindings[0].backend == b then [bindings[0]] else []) + OfBackend(bindings[1..], b)
  }

  /** Bindings in the order of their providers. */
  function InOrder(bindings: seq<Binding>): seq<Binding> {
    OfBackend(bindings, Bedrock) + OfBackend(bindings, Kiro) + OfBackend(bindings, Litellm)
  }

  predicate OneEach(bindings: seq<Binding>) {
    |OfBackend(bindings, Bedrock)| <= 1 && |OfBackend(bindings, Kiro)| <= 1 && |OfBackend(bindings, Litellm)| <= 1
  }

  predicate Scoped(bindings: seq<Binding>, projectId: Option<string>) {
    forall i :: 0 <= i < |bindings| && bindings[i].source == Space ==>
      projectId.Some? && (bindings[i].version == 2 ==> bindings[i].projectId == projectId)
  }

  predicate AnyVersion2(bindings: seq<Binding>) { exists i :: 0 <= i < |bindings| && bindings[i].version == 2 }

  predicate Named(o: Option<string>) { o.Some? ==> o.value != "" }

  /** `normalizedClaims`: what may be signed at all, bindings put in order. */
  function Normalized(c: Claims): Result<Claims> {
    if !Named(c.projectId) || !Named(c.executionId) then Err(GrantInvalid)
    else if |c.bindings| < 1 || |c.bindings| > 3 || !OneEach(c.bindings) then Err(GrantInvalid)
    else Checked(c, InOrder(c.bindings))
  }

  function Checked(c: Claims, bindings: seq<Binding>): Result<Claims>
    requires bindings != []
  {
    if c.purpose == VerifyConnection && (c.executionId.Some? || |bindings| != 1 || bindings[0].version != 2) then Err(GrantInvalid)
    else if !Scoped(bindings, c.projectId) then Err(GrantInvalid)
    else if c.version != (if AnyVersion2(bindings) then 2 else 1) then Err(GrantInvalid)
    else if c.grantId == "" then Err(GrantInvalid)
    else Ok(c.(audience := BrokerGrants, bindings := bindings))
  }

  predicate Precedes(a: Backend, b: Backend) { (a.Bedrock? && !b.Bedrock?) || (!a.Litellm? && b.Litellm?) }

  ghost predicate OnePerBackend(s: seq<Binding>) { forall i, j :: 0 <= i < j < |s| ==> s[i].backend != s[j].backend }

  /** What may be signed: a named grant whose version is that of its newest binding, for at
      most one binding a backend, each of this space if it is of a space; and to check a
      connection, for one version 2 binding and no execution. */
  ghost predicate Signable(c: Claims) {
    && c.grantId != "" && c.projectId != Some("") && c.executionId != Some("")
    && c.bindings != [] && OnePerBackend(c.bindings)
    && (forall b | b in c.bindings && b.source == Space :: c.projectId.Some? && (b.version == 2 ==> b.projectId == c.projectId))
    && c.version in {1, 2} && (c.version == 2 <==> exists b | b in c.bindings :: b.version == 2)
    && (c.purpose == VerifyConnection ==> c.executionId.None? && |c.bindings| == 1 && c.bindings[0].version == 2)
  }

  /** The same bindings, one after the other in the order of their providers. */
  ghost predicate Arranged(s: seq<Binding>, bindings: seq<Binding>) {
    && |s| == |bindings| && (forall b :: b in s <==> b in bindings)
    && forall i, j :: 0 <= i < j < |s| ==> Precedes(s[i].backend, s[j].backend)
  }

  /** Exactly that is signed, as it is but for the order of the bindings. */
  lemma SignableIff(c: Claims)
    ensures Normalized(c).Ok? <==> Signable(c)
    ensures Normalized(c).Ok? ==>
              && Normalized(c).value == c.(audience := BrokerGrants, bindings := Normalized(c).value.bindings)
              && Arranged(Normalized(c).value.bindings, c.bindings)
  {
    OneEachIff(c.bindings);
    if OneEach(c.bindings) && c.bindings != [] && c.projectId != Some("") && c.executionId != Some("") {
      OneEachAscends(c.bindings);
      CheckedIff(c, InOrder(c.bindings));
    }
  }

  lemma CheckedIff(c: Claims, s: seq<Binding>)
    requires s != [] && Arranged(s, c.bindings) && OnePerBackend(c.bindings) && c.projectId != Some("") && c.executionId != Some("")
    ensures Checked(c, s).Ok? <==> Signable(c)
    ensures Checked(c, s).Ok? ==> Checked(c, s).value == c.(audience := BrokerGrants, bindings := s)
  {
    ScopedIff(s, c.bindings, c.projectId);
    Version2Iff(s, c.bindings);
    if |s| == 1 { assert s[0] in c.bindings; }
  }

  lemma ScopedIff(s: seq<Binding>, bindings: seq<Binding>, projectId: Option<string>)
    requires forall b :: b in s <==> b in bindings
    ensures Scoped(s, projectId) <==>
              forall b | b in bindings && b.source == Space :: projectId.Some? && (b.version == 2 ==> b.projectId == projectId)
  {}

  lemma Version2Iff(s: seq<Binding>, bindings: seq<Binding>)
    requires forall b :: b in s <==> b in bindings
    ensures AnyVersion2(s) <==> exists b | b in bindings :: b.version == 2
  {
    if b :| b in bindings && b.version == 2 {
      assert b in s;
      var i :| 0 <= i < |s| && s[i] == b;
    }
    if AnyVersion2(s) {
      var i :| 0 <= i < |s| && s[i].version == 2;
      assert s[i] in s;
    }
  }

  lemma OneEachAscends(s: seq<Binding>)
    requires OneEach(s)
    ensures |s| <= 3 && Arranged(InOrder(s), s)
  {
    OfBackendCount(s);
    forall b | b in s ensures b in InOrder(s) { OfBackendHas(s, b); }
    Ascends(OfBackend(s, Bedrock), OfBackend(s, Kiro), OfBackend(s, Litellm));
  }

  lemma Ascends(a: seq<Binding>, b: seq<Binding>, c: seq<Binding>)
    requires |a| <= 1 && |b| <= 1 && |c| <= 1
    requires (forall x | x in a :: x.backend == Bedrock) && (forall x | x in b :: x.backend == Kiro) && (forall x | x in c :: x.backend == Litellm)
    ensures var s := a + b + c; forall i, j :: 0 <= i < j < |s| ==> Precedes(s[i].backend, s[j].backend)
  {}

  lemma {:induction false} AtMostOne(s: seq<Binding>, k: Backend)
    ensures |OfBackend(s, k)| <= 1 <==> forall i, j :: 0 <= i < j < |s| ==> !(s[i].backend == s[j].backend == k)
    ensures OfBackend(s, k) == [] <==> forall i :: 0 <= i < |s| ==> s[i].backend != k
  {
    if s != [] {
      AtMostOne(s[1..], k);
      assert forall i :: 0 < i < |s| ==> s[i] == s[1..][i - 1];
      assert forall i :: 0 <= i < |s| - 1 ==> s[1..][i] == s[i + 1];
    }
  }

  lemma OneEachIff(s: seq<Binding>)
    ensures OneEach(s) <==> OnePerBackend(s)
  {
    AtMostOne(s, Bedrock);
    AtMostOne(s, Kiro);
    AtMostOne(s, Litellm);
  }

  function Sign(c: Claims, key: string, audience: Audience): Result<Token> {
    match Normalized(c)
    case Err(e) => Err(e)
    case Ok(n) => Ok(Signed(n.(audience := audience), key))
  }

  /** Epoch milliseconds in whole seconds. */
  function Seconds(ms: int): int { ms / 1000 }

  predicate Timely(c: Claims, nowMs: int, ttl: int) {
    c.issuedAt < c.expiresAt <= c.issuedAt + ttl && c.issuedAt <= Seconds(nowMs) + CLOCK_SKEW_SECONDS
  }

  function Verify(t: Token, key: string, nowMs: int, audience: Audience, ttl: int): Result<Claims> {
    if t.Junk? || t.key != key || t.claims.version !in {1, 2} || t.claims.audience != audience then Err(GrantInvalid)
    else match Normalized(t.claims)
      case Err(e) => Err(e)
      case Ok(n) =>
        var c := n.(audience := audience);
        if !Timely(c, nowMs, ttl) then Err(GrantInvalid)
        else if c.expiresAt <= Seconds(nowMs) then Err(GrantExpired)
        else Ok(c)
  }

  lemma {:induction false} OfBackendConcat(a: seq<Binding>, b: seq<Binding>, k: Backend)
    ensures OfBackend(a + b, k) == OfBackend(a, k) + OfBackend(b, k)
  {
    if a == [] {
      assert a + b == b;
    } else {
      assert (a + b)[1..] == a[1..] + b;
      OfBackendConcat(a[1..], b, k);
    }
  }

  lemma {:induction false} OfBackendAll(a: seq<Binding>, k: Backend)
    requires forall i :: 0 <= i < |a| ==> a[i].backend == k
    ensures OfBackend(a, k) == a
  {
    if a != [] { OfBackendAll(a[1..], k); }
  }

  lemma OfBackendTwice(a: seq<Binding>, b: Backend, k: Backend)
    ensures OfBackend(OfBackend(a, b), k) == if b == k then OfBackend(a, k) else []
  {
    if b == k { OfBackendAll(OfBackend(a, k), k); }
  }

  lemma OfBackendInOrder(bindings: seq<Binding>, k: Backend)
    ensures OfBackend(InOrder(bindings), k) == OfBackend(bindings, k)
  {
    OfBackendConcat(OfBackend(bindings, Bedrock) + OfBackend(bindings, Kiro), OfBackend(bindings, Litellm), k);
    OfBackendConcat(OfBackend(bindings, Bedrock), OfBackend(bindings, Kiro), k);
    OfBackendTwice(bindings, Bedrock, k);
    OfBackendTwice(bindings, Kiro, k);
    OfBackendTwice(bindings, Litellm, k);
  }

  lemma {:induction false} OfBackendCount(s: seq<Binding>)
    ensures |InOrder(s)| == |s|
  {
    if s != [] { OfBackendCount(s[1..]); }
  }

  lemma InOrderIsStable(bindings: seq<Binding>)
    ensures InOrder(InOrder(bindings)) == InOrder(bindings) && |InOrder(bindings)| == |bindings|
    ensures OneEach(InOrder(bindings)) <==> OneEach(bindings)
  {
    OfBackendInOrder(bindings, Bedrock);
    OfBackendInOrder(bindings, Kiro);
    OfBackendInOrder(bindings, Litellm);
    OfBackendCount(bindings);
  }

  /** What is signed is stable: signing or verifying it again changes nothing. */
  lemma NormalizedIsStable(c: Claims, audience: Audience)
    requires Normalized(c).Ok?
    ensures Normalized(Normalized(c).value.(audience := audience)) == Normalized(c)
  {
    InOrderIsStable(c.bindings);
  }

  /** A token is taken exactly if this key signed claims like that for this audience, for no
      longer than the lifetime, and its time has come, within the clock skew, and is not over. */
  lemma VerifyIff(t: Token, key: string, nowMs: int, audience: Audience, ttl: int)
    ensures var r := Verify(t, key, nowMs, audience, ttl);
            var genuine := t.Signed? && t.key == key && t.claims.audience == audience && Signable(t.claims)
                           && t.claims.issuedAt < t.claims.expiresAt <= t.claims.issuedAt + ttl
                           && (t.claims.issuedAt - 30) * 1000 <= nowMs;
            && (r.Ok? <==> genuine && nowMs < t.claims.expiresAt * 1000)
            && (r == Err(GrantExpired) <==> genuine && t.claims.expiresAt * 1000 <= nowMs)
            && (r.Ok? ==> r.value == t.claims.(bindings := r.value.bindings) && Arranged(r.value.bindings, t.claims.bindings))
  {
    if t.Signed? { SignableIff(t.claims); }
  }

  lemma Reverified(n: Claims, key: string, key2: string, nowMs: int, audience2: Audience, ttl: int)
    requires Normalized(n) == Ok(n.(audience := BrokerGrants)) && n.version in {1, 2}
    ensures var r := Verify(Signed(n, key), key2, nowMs, audience2, ttl);
            && (r.Ok? <==> key == key2 && n.audience == audience2 && Timely(n, nowMs, ttl) && Seconds(nowMs) < n.expiresAt)
            && (r.Ok? ==> r.value == n)
  {}

  /** A signed token verifies to exactly what was signed, when its key, its audience
      and its times agree; and otherwise it does not verify. */
  lemma VerifyInvertsSign(c: Claims, key: string, audience: Audience, key2: string, nowMs: int, audience2: Audience, ttl: int)
    requires Sign(c, key, audience).Ok?
    ensures var n := Normalized(c).value.(audience := audience);
            var r := Verify(Sign(c, key, audience).value, key2, nowMs, audience2, ttl);
            && (r.Ok? <==> key == key2 && audience == audience2 && Timely(n, nowMs, ttl) && Seconds(nowMs) < n.expiresAt)
            && (r.Ok? ==> r.value == n)
  {
    NormalizedIsStable(c, audience);
    Reverified(Normalized(c).value.(audience := audience), key, key2, nowMs, audience2, ttl);
  }

  // ------------------------------------------------------------ registry

  datatype Policy = Policy(action: Action, audience: Audience, ttlSeconds: int)

  type AdapterKey = (Backend, string)

  datatype Provider = Provider(id: string, adapters: set<AdapterKey>, renewal: Option<Policy>, verification: bool)

  datatype Registry = Registry(owners: map<AdapterKey, Provider>, renewals: map<Action, Provider>)

  /** The two actions no provider may take, and the ones they declare. */
  datatype Action = ResolveCredentials | SourceControl | Renewing(name: string)

  /** A provider names itself, adapts something, and renews under an action and an audience
      of its own for a day at most. */
  ghost predicate ValidProvider(p: Provider) {
    && p.id != "" && p.adapters != {}
    && forall policy | p.renewal == Some(policy) ::
         && policy.action.Renewing? && policy.audience.Declared? && policy.audience.name != ""
         && 1 <= policy.ttlSeconds <= 24 * 60 * 60
  }

  ghost predicate Clash(p: Provider, q: Provider) {
    || p.id == q.id
    || p.adapters * q.adapters != {}
    || (p.renewal.Some? && q.renewal.Some?
        && (p.renewal.value.action == q.renewal.value.action || p.renewal.value.audience == q.renewal.value.audience))
  }

  /** Every provider is valid and no two of them claim the same thing. */
  ghost predicate Registrable(ps: seq<Provider>) {
    && (forall i :: 0 <= i < |ps| ==> ValidProvider(ps[i]))
    && (forall i, j :: 0 <= i < j < |ps| ==> !Clash(ps[i], ps[j]))
  }

  predicate Listed(ps: seq<Provider>, p: Provider) { p in ps }

  /** The registry answers from the list, and answers everything in it. */
  ghost predicate Represents(r: Registry, ps: seq<Provider>) {
    && (forall k :: k in r.owners ==> Listed(ps, r.owners[k]) && k in r.owners[k].adapters)
    && (forall i :: 0 <= i < |ps| ==> forall k :: k in ps[i].adapters ==> k in r.owners)
    && (forall a :: a in r.renewals ==> Listed(ps, r.renewals[a]) && r.renewals[a].renewal.Some? && r.renewals[a].renewal.value.action == a)
    && (forall i :: 0 <= i < |ps| && ps[i].renewal.Some? ==> ps[i].renewal.value.action in r.renewals)
  }

  ghost predicate Books(ps: seq<Provider>, ids: set<string>, audiences: set<Audience>) {
    && (forall id :: id in ids <==> exists i :: 0 <= i < |ps| && ps[i].id == id)
    && (forall a :: a in audiences <==> exists i :: 0 <= i < |ps| && ps[i].renewal.Some? && ps[i].renewal.value.audience == a)
  }

  /** The refusals of the load-time check amount to a clash with an earlier entry. */
  lemma ClashIffBooked(ps: seq<Provider>, r: Registry, ids: set<string>, audiences: set<Audience>, p: Provider)
    requires Represents(r, ps) && Books(ps, ids, audiences)
    ensures (exists i :: 0 <= i < |ps| && Clash(ps[i], p)) <==>
              || p.id in ids
              || p.adapters * r.owners.Keys != {}
              || (p.renewal.Some? && (p.renewal.value.action in r.renewals || p.renewal.value.audience in audiences))
  {
    if i :| 0 <= i < |ps| && Clash(ps[i], p) {
      if ps[i].adapters * p.adapters != {} {
        var k :| k in ps[i].adapters && k in p.adapters;
        assert k in r.owners;
        assert k in p.adapters * r.owners.Keys;
      }
    }
    if p.adapters * r.owners.Keys != {} {
      var k :| k in p.adapters && k in r.owners;
      var i :| 0 <= i < |ps| && ps[i] == r.owners[k];
      assert k in ps[i].adapters * p.adapters;
      assert Clash(ps[i], p);
    }
    if p.id in ids {
      var i :| 0 <= i < |ps| && ps[i].id == p.id;
      assert Clash(ps[i], p);
    }
    if p.renewal.Some? {
      if p.renewal.value.action in r.renewals {
        var i :| 0 <= i < |ps| && ps[i] == r.renewals[p.renewal.value.action];
        assert Clash(ps[i], p);
      }
      if p.renewal.value.audience in audiences {
        var i :| 0 <= i < |ps| && ps[i].renewal.Some? && ps[i].renewal.value.audience == p.renewal.value.audience;
        assert Clash(ps[i], p);
      }
    }
  }

  lemma Enrolled(ps: seq<Provider>, r: Registry, p: Provider, after: Registry)
    requires Represents(r, ps) && p.adapters * r.owners.Keys == {}
    requires p.renewal.Some? ==> p.renewal.value.action !in r.renewals
    requires after.owners == r.owners + map k | k in p.adapters :: p
    requires after.renewals == if p.renewal.Some? then r.renewals[p.renewal.value.action := p] else r.renewals
    ensures Represents(after, ps + [p])
  {
    var all := ps + [p];
    forall x | Listed(ps, x) || x == p ensures Listed(all, x) {}
    forall i | 0 <= i < |all| ensures forall k :: k in all[i].adapters ==> k in after.owners {}
  }

  lemma Booked(ps: seq<Provider>, ids: set<string>, audiences: set<Audience>, p: Provider)
    requires Books(ps, ids, audiences)
    ensures Books(ps + [p], ids + {p.id}, audiences + if p.renewal.Some? then {p.renewal.value.audience} else {})
  {
    var all := ps + [p];
    assert all[|ps|] == p && forall i :: 0 <= i < |ps| ==> all[i] == ps[i];
  }

  lemma RegistrableStep(ps: seq<Provider>, p: Provider)
    ensures Registrable(ps + [p]) <==> Registrable(ps) && ValidProvider(p) && !exists i :: 0 <= i < |ps| && Clash(ps[i], p)
  {
    var all := ps + [p];
    assert all[|ps|] == p && forall i :: 0 <= i < |ps| ==> all[i] == ps[i];
    if Registrable(all) {
      forall i, j | 0 <= i < j < |ps| ensures !Clash(ps[i], ps[j]) { assert !Clash(all[i], all[j]); }
      forall i | 0 <= i < |ps| ensures ValidProvider(ps[i]) && !Clash(ps[i], p) {
        assert ValidProvider(all[i]) && !Clash(all[i], all[|ps|]);
      }
    }
  }

  lemma {:induction false} RegistrablePrefix(ps: seq<Provider>, n: nat)
    requires n <= |ps| && Registrable(ps)
    ensures Registrable(ps[..n])
  {}

  /** The registry, with the books that the load-time checks consult. */
  datatype Loading = Loading(registry: Registry, ids: set<string>, audiences: set<Audience>)

  /** The checks of one declaration. */
  predicate Invalid(p: Provider) {
    || p.id == "" || p.adapters == {}
    || (p.renewal.Some?
        && (|| p.renewal.value.action in {ResolveCredentials, SourceControl}
            || p.renewal.value.audience in {Declared(""), BrokerGrants}
            || p.renewal.value.ttlSeconds < 1 || p.renewal.value.ttlSeconds > MAX_RENEWAL_TTL_SECONDS))
  }

  predicate Refused(l: Loading, p: Provider) {
    || Invalid(p) || p.id in l.ids || p.adapters * l.registry.owners.Keys != {}
    || (p.renewal.Some? && (p.renewal.value.action in l.registry.renewals || p.renewal.value.audience in l.audiences))
  }

  function Enrol(l: Loading, p: Provider): Loading {
    Loading(
      Registry(l.registry.owners + map k | k in p.adapters :: p,
               if p.renewal.Some? then l.registry.renewals[p.renewal.value.action := p] else l.registry.renewals),
      l.ids + {p.id},
      l.audiences + if p.renewal.Some? then {p.renewal.value.audience} else {})
  }

  ghost predicate Reflects(l: Loading, ps: seq<Provider>) {
    Registrable(ps) && Represents(l.registry, ps) && Books(ps, l.ids, l.audiences)
  }

  lemma LoadStep(ps: seq<Provider>, l: Loading, p: Provider)
    requires Reflects(l, ps)
    ensures Registrable(ps + [p]) <==> !Refused(l, p)
    ensures !Refused(l, p) ==> Reflects(Enrol(l, p), ps + [p])
  {
    ClashIffBooked(ps, l.registry, l.ids, l.audiences, p);
    RegistrableStep(ps, p);
    if !Refused(l, p) {
      Enrolled(ps, l.registry, p, Enrol(l, p).registry);
      Booked(ps, l.ids, l.audiences, p);
    }
  }

  function Load(ps: seq<Provider>): Option<Loading> {
    if ps == [] then Some(Loading(Registry(map[], map[]), {}, {}))
    else
      var before, p := Load(ps[..|ps| - 1]), ps[|ps| - 1];
      if before.None? || Refused(before.value, p) then None else Some(Enrol(before.value, p))
  }

  /** Loading the providers succeeds exactly when they are valid and do not clash. */
  lemma {:induction false} LoadsIff(ps: seq<Provider>)
    ensures Load(ps).Some? <==> Registrable(ps)
    ensures Load(ps).Some? ==> Reflects(Load(ps).value, ps)
  {
    if ps != [] {
      var n := |ps| - 1;
      LoadsIff(ps[..n]);
      assert ps[..n] + [ps[n]] == ps;
      if Load(ps[..n]).Some? {
        LoadStep(ps[..n], Load(ps[..n]).value, ps[n]);
      } else if Registrable(ps) {
        RegistrablePrefix(ps, n);
      }
    }
  }

  lemma {:induction false} LoadStops(ps: seq<Provider>, n: nat)
    requires n <= |ps| && Load(ps[..n]).None?
    ensures Load(ps).None?
  {
    if n < |ps| {
      assert ps[..|ps| - 1][..n] == ps[..n];
      LoadStops(ps[..|ps| - 1], n);
    } else {
      assert ps[..n] == ps;
    }
  }

  /** The load-time loop; the first refusal stops it. */
  method BuildRegistry(ps: seq<Provider>) returns (l: Option<Loading>)
    ensures l == Load(ps)
  {
    var loading := Loading(Registry(map[], map[]), {}, {});
    for n := 0 to |ps|
      invariant Load(ps[..n]) == Some(loading)
    {
      assert ps[..n + 1][..n] == ps[..n];
      if Refused(loading, ps[n]) {
        LoadStops(ps, n + 1);
        return None;
      }
      loading := Enrol(loading, ps[n]);
    }
    assert ps[..|ps|] == ps;
    l := Some(loading);
  }

  predicate SharesAudience(p: Provider, q: Provider) {
    p.renewal.Some? && q.renewal.Some? && p.renewal.value.audience == q.renewal.value.audience
  }

  /** Every renewal action has its own provider and audience, none of them reserved. */
  ghost predicate Sound(r: Registry) {
    && (forall a :: a in r.renewals ==> r.renewals[a].renewal.Some? && r.renewals[a].renewal.value.audience != BrokerGrants)
    && (forall a, b :: a in r.renewals && b in r.renewals && SharesAudience(r.renewals[a], r.renewals[b]) ==> a == b)
    && (forall k :: k in r.owners ==> ValidProvider(r.owners[k]))
  }

  /** Whatever loads is sound. */
  lemma LoadedIsSound(ps: seq<Provider>)
    requires Load(ps).Some?
    ensures Sound(Load(ps).value.registry)
  {
    LoadsIff(ps);
    RegistrableIsSound(Load(ps).value.registry, ps);
  }

  lemma RegistrableIsSound(r: Registry, ps: seq<Provider>)
    requires Registrable(ps) && Represents(r, ps)
    ensures Sound(r)
  {
    forall a | a in r.renewals
      ensures r.renewals[a].renewal.Some? && r.renewals[a].renewal.value.audience != BrokerGrants
    {
      assert Listed(ps, r.renewals[a]);
    }
    forall a, b | a in r.renewals && b in r.renewals && SharesAudience(r.renewals[a], r.renewals[b])
      ensures a == b
    {
      SameAudience(ps, r.renewals[a], r.renewals[b]);
    }
    forall k | k in r.owners ensures ValidProvider(r.owners[k]) {
      assert Listed(ps, r.owners[k]);
    }
  }

  lemma SameAudience(ps: seq<Provider>, p: Provider, q: Provider)
    requires Registrable(ps) && p in ps && q in ps && p.renewal.Some? && q.renewal.Some?
    requires p.renewal.value.audience == q.renewal.value.audience
    ensures p == q
  {
    var i :| 0 <= i < |ps| && ps[i] == p;
    var j :| 0 <= j < |ps| && ps[j] == q;
    assert Clash(ps[i], ps[j]) && Clash(ps[j], ps[i]);
  }

  // -------------------------------------------------------------- leases

  datatype Material = Material(kind: string, content: string)

  datatype Renewal = Renewal(grant: Token, action: Action)

  /** Times in epoch milliseconds. */
  datatype Lease = Lease(material: Option<Material>, expiresAt: Option<int>, authorizationExpiresAt: Option<int>, renewal: Option<Renewal>)

  predicate Deadline(o: Option<int>) { o.Some? ==> 0 < o.value <= MAX_SAFE_INTEGER }

  function NormalizeLease(l: Lease): Result<Lease> {
    if !Deadline(l.expiresAt) || !Deadline(l.authorizationExpiresAt) then Err(LeaseInvalid)
    else if l.renewal.Some? && (l.renewal.value.grant == Junk("") || l.expiresAt.None? || l.authorizationExpiresAt.None?
                                || l.expiresAt.value > l.authorizationExpiresAt.value) then Err(LeaseInvalid)
    else Ok(l)
  }

  /** What a provider's adapter answers: material and its expiry, or a whole lease. */
  datatype Answer = Plain(material: Option<Material>, expiresAt: Option<int>) | Whole(lease: Lease) | Failed

  function AdapterMaterial(a: Answer): Result<(Option<Material>, Option<int>)> {
    match a
    case Failed => Err(AdapterFailed)
    case Plain(m, e) => Ok((m, e))
    case Whole(lease) =>
      match NormalizeLease(lease)
      case Err(e) => Err(e)
      case Ok(l) =>
        if l.renewal.Some? || l.authorizationExpiresAt.Some? then Err(LeaseInvalid) else Ok((l.material, l.expiresAt))
  }

  function Sooner(a: Option<int>, b: Option<int>): (r: Option<int>)
    ensures r.None? <==> a.None? && b.None?
    ensures r.Some? && a.Some? ==> r.value <= a.value
    ensures r.Some? && b.Some? ==> r.value <= b.value
    ensures r == a || r == b
  {
    if a.None? then b else if b.None? || a.value <= b.value then a else b
  }

  datatype Request = Resolve | Renew | VerifyRequest

  /** `signRenewal`: the grant's claims for one binding, under the provider's audience. */
  function SignRenewal(c: Claims, b: Binding, p: Policy, key: string): Result<Token> {
    if b.version != 2 || c.purpose == VerifyConnection then Err(GrantInvalid)
    else Sign(c.(bindings := [b], expiresAt := c.issuedAt + p.ttlSeconds), key, p.audience)
  }

  function VerifyRenewal(t: Token, key: string, nowMs: int, p: Policy, r: Registry, renewing: Provider): Result<Claims> {
    match Verify(t, key, nowMs, p.audience, p.ttlSeconds)
    case Err(e) => Err(e)
    case Ok(c) =>
      if c.version != 2 || |c.bindings| != 1 || OwnerOf(r, c.bindings[0]) != Some(renewing) || c.purpose == VerifyConnection
      then Err(GrantInvalid) else Ok(c)
  }

  function OwnerOf(r: Registry, b: Binding): Option<Provider> {
    if b.version == 2 && (b.backend, b.mechanism) in r.owners then Some(r.owners[(b.backend, b.mechanism)]) else None
  }

  /** One verified request. */
  datatype Context = Context(claims: Claims, request: Request, presented: Option<Token>, provider: Option<Provider>)

  function OpenContext(r: Registry, key: string, nowMs: int, action: Action, t: Token): Result<Context> {
    if action == ResolveCredentials then OpenGrant(r, key, nowMs, t) else OpenRenewal(r, key, nowMs, action, t)
  }

  function OpenRenewal(r: Registry, key: string, nowMs: int, action: Action, t: Token): Result<Context> {
    if action !in r.renewals || r.renewals[action].renewal.None? then Err(GrantInvalid)
    else match VerifyRenewal(t, key, nowMs, r.renewals[action].renewal.value, r, r.renewals[action])
      case Err(e) => Err(e)
      case Ok(c) => Ok(Context(c, Renew, Some(t), Some(r.renewals[action])))
  }

  function OpenGrant(r: Registry, key: string, nowMs: int, t: Token): Result<Context> {
    match Verify(t, key, nowMs, BrokerGrants, GRANT_TTL_SECONDS)
    case Err(e) => Err(e)
    case Ok(c) =>
      if c.purpose != VerifyConnection then Ok(Context(c, Resolve, None, None))
      else
        var verifier := if c.bindings == [] then None else OwnerOf(r, c.bindings[0]);
        if verifier.None? || !verifier.value.verification then Err(GrantInvalid)
        else Ok(Context(c, VerifyRequest, None, verifier))
  }

  /** What a renewal token must say: claims like that, for one version 2 connection that this
      action's provider owns, and not to check a connection. */
  lemma RenewalOpensIff(r: Registry, key: string, nowMs: int, action: Action, t: Token)
    requires action != ResolveCredentials
    ensures OpenContext(r, key, nowMs, action, t).Ok? <==>
              && action in r.renewals && r.renewals[action].renewal.Some?
              && var p := r.renewals[action].renewal.value;
              && Verify(t, key, nowMs, p.audience, p.ttlSeconds).Ok?
              && t.claims.version == 2 && |t.claims.bindings| == 1 && t.claims.purpose != VerifyConnection
              && OwnerOf(r, t.claims.bindings[0]) == Some(r.renewals[action])
  {
    if action in r.renewals && r.renewals[action].renewal.Some? {
      var p := r.renewals[action].renewal.value;
      if Verify(t, key, nowMs, p.audience, p.ttlSeconds).Ok? { SaysTheSame(t, key, nowMs, p.audience, p.ttlSeconds); }
    }
  }

  lemma SaysTheSame(t: Token, key: string, nowMs: int, audience: Audience, ttl: int)
    requires Verify(t, key, nowMs, audience, ttl).Ok?
    ensures var c := Verify(t, key, nowMs, audience, ttl).value;
            && t.Signed? && c.version == t.claims.version && c.purpose == t.claims.purpose && |c.bindings| == |t.claims.bindings| > 0
            && (|c.bindings| == 1 ==> c.bindings == t.claims.bindings)
  {
    VerifyIff(t, key, nowMs, audience, ttl);
    var c := Verify(t, key, nowMs, audience, ttl).value;
    if |c.bindings| == 1 { assert c.bindings[0] in t.claims.bindings; }
  }

  /** A grant opens for its execution, or to check a connection that has a verifier. */
  lemma GrantOpensIff(r: Registry, key: string, nowMs: int, t: Token)
    ensures OpenContext(r, key, nowMs, ResolveCredentials, t).Ok? <==>
              && Verify(t, key, nowMs, BrokerGrants, 300).Ok?
              && (t.claims.purpose == VerifyConnection ==>
                    OwnerOf(r, t.claims.bindings[0]).Some? && OwnerOf(r, t.claims.bindings[0]).value.verification)
  {
    VerifyIff(t, key, nowMs, BrokerGrants, 300);
    if Verify(t, key, nowMs, BrokerGrants, 300).Ok? { SaysTheSame(t, key, nowMs, BrokerGrants, 300); }
  }

  /** Times are positive safe integers, and what can be renewed has both of them in order. */
  lemma NormalizesIff(l: Lease)
    ensures NormalizeLease(l) == Ok(l) <==>
              && (forall ms | l.expiresAt == Some(ms) || l.authorizationExpiresAt == Some(ms) :: 1 <= ms <= 9007199254740991)
              && (forall renewal | l.renewal == Some(renewal) ::
                    && renewal.grant != Junk("")
                    && exists end, ceiling :: l.expiresAt == Some(end) && l.authorizationExpiresAt == Some(ceiling) && end <= ceiling)
    ensures NormalizeLease(l) == Ok(l) || NormalizeLease(l) == Err(LeaseInvalid)
  {
    if l.expiresAt.Some? && l.authorizationExpiresAt.Some? {
      assert l.expiresAt == Some(l.expiresAt.value) && l.authorizationExpiresAt == Some(l.authorizationExpiresAt.value);
    }
  }

  /** An adapter may answer material and its end, alone or in a lease, but no authority. */
  lemma AdapterGives(a: Answer, material: Option<Material>, expiresAt: Option<int>)
    ensures AdapterMaterial(a) == Ok((material, expiresAt)) <==>
              || a == Plain(material, expiresAt)
              || (a == Whole(Lease(material, expiresAt, None, None)) && (expiresAt.Some? ==> 1 <= expiresAt.value <= 9007199254740991))
  {}

  /** `composeLease`: the host adds renewal authority and the authorization deadline
      to the adapter's material. */
  function ComposeLease(material: Option<Material>, expiresAt: Option<int>, ctx: Context, b: Binding, policy: Option<Policy>, key: string): Result<Lease> {
    var issued := if ctx.request == Resolve && policy.Some? && material.Some? then Some(SignRenewal(ctx.claims, b, policy.value, key)) else None;
    if issued.Some? && issued.value.Err? then Err(issued.value.error)
    else
      Bounded(material, expiresAt, ctx, policy,
              if issued.Some? then Some(issued.value.value) else if ctx.request == Renew then ctx.presented else None)
  }

  /** With the token that renews it, and the time that bounds it. */
  function Bounded(material: Option<Material>, expiresAt: Option<int>, ctx: Context, policy: Option<Policy>, token: Option<Token>): Result<Lease> {
    var ceiling :=
      if ctx.request == Resolve then (if policy.Some? then Some((ctx.claims.issuedAt + policy.value.ttlSeconds) * 1000) else None)
      else Some(ctx.claims.expiresAt * 1000);
    if token.Some? && policy.None? then Err(LeaseInvalid)
    else
      NormalizeLease(Lease(material, Sooner(expiresAt, ceiling), ceiling,
                           if token.Some? then Some(Renewal(token.value, policy.value.action)) else None))
  }

  /** The lease for one binding of the request; `answer` is what the adapter says.
      Version 1 bindings are plain key reads without any deadline. */
  function ServeBinding(r: Registry, key: string, ctx: Context, b: Binding, answer: Answer): Result<Lease> {
    if b.version != 2 then
      (if answer.Plain? then Ok(Lease(answer.material, None, None, None)) else Err(AdapterFailed))
    else
      var owner := OwnerOf(r, b);
      if owner.None? || (ctx.provider.Some? && owner != ctx.provider) then Err(ModeUnavailable)
      else match AdapterMaterial(answer)
        case Err(e) => Err(e)
        case Ok((material, expiresAt)) => ComposeLease(material, expiresAt, ctx, b, owner.value.renewal, key)
  }

  // ------------------------------------------------------ one fixed ceiling

  /** A lease under a handoff: it carries the handoff's renewal token, ends at the
      token's ceiling, and its material no later. */
  ghost predicate Under(l: Lease, t: Token) {
    && t.Signed? && l.renewal.Some? && l.renewal.value.grant == t && l.renewal.value.action != ResolveCredentials
    && l.authorizationExpiresAt == Some(t.claims.expiresAt * 1000)
    && l.expiresAt.Some? && l.expiresAt.value <= t.claims.expiresAt * 1000
  }

  /** A verified token says what was signed, by this key, and its time is not over. */
  lemma Verified(t: Token, key: string, nowMs: int, audience: Audience, ttl: int)
    requires Verify(t, key, nowMs, audience, ttl).Ok?
    ensures var c := Verify(t, key, nowMs, audience, ttl).value;
            && t.Signed? && t.key == key && t.claims.audience == audience
            && c == t.claims.(bindings := c.bindings)
            && nowMs < c.expiresAt * 1000 && c.expiresAt <= c.issuedAt + ttl
  {}

  lemma OpenedRenewal(r: Registry, key: string, nowMs: int, action: Action, t: Token, ctx: Context)
    requires OpenRenewal(r, key, nowMs, action, t) == Ok(ctx)
    ensures action in r.renewals && r.renewals[action].renewal.Some? && t.Signed?
    ensures t.claims.audience == r.renewals[action].renewal.value.audience
    ensures ctx == Context(ctx.claims, Renew, Some(t), Some(r.renewals[action]))
    ensures ctx.claims.expiresAt == t.claims.expiresAt && nowMs < t.claims.expiresAt * 1000
  {
    var p := r.renewals[action].renewal.value;
    Verified(t, key, nowMs, p.audience, p.ttlSeconds);
  }

  lemma OpenedGrant(r: Registry, key: string, nowMs: int, t: Token, ctx: Context)
    requires OpenGrant(r, key, nowMs, t) == Ok(ctx)
    ensures t.Signed? && t.claims.audience == BrokerGrants && ctx.claims == t.claims.(bindings := ctx.claims.bindings)
    ensures ctx.request == if t.claims.purpose == VerifyConnection then VerifyRequest else Resolve
    ensures ctx.presented.None? && t.claims.expiresAt - t.claims.issuedAt <= GRANT_TTL_SECONDS
  {
    Verified(t, key, nowMs, BrokerGrants, GRANT_TTL_SECONDS);
  }

  lemma OneBinding(b: Binding)
    ensures InOrder([b]) == [b] && (AnyVersion2([b]) <==> b.version == 2)
  {
    assert OfBackend([b], b.backend) == [b];
    assert [b][0] == b;
  }

  lemma SignedRenewal(c: Claims, b: Binding, p: Policy, key: string)
    requires SignRenewal(c, b, p, key).Ok?
    ensures SignRenewal(c, b, p, key).value
            == Signed(c.(audience := p.audience, bindings := [b], expiresAt := c.issuedAt + p.ttlSeconds), key)
    ensures c.version == 2 && c.purpose != VerifyConnection && b.version == 2
  {
    OneBinding(b);
  }

  lemma {:induction false} OfBackendHas(bindings: seq<Binding>, b: Binding)
    requires b in bindings
    ensures b in OfBackend(bindings, b.backend)
  {
    if bindings[0] != b { OfBackendHas(bindings[1..], b); }
  }

  /** Every version 2 binding of a verified grant can be given its renewal token. */
  lemma RenewalCanBeSigned(c: Claims, b: Binding, p: Policy, key: string)
    requires Normalized(c).Ok? && c.purpose != VerifyConnection && b in c.bindings && b.version == 2
    ensures SignRenewal(c, b, p, key).Ok?
  {
    OfBackendHas(c.bindings, b);
    var sorted := InOrder(c.bindings);
    assert b in sorted;
    var i :| 0 <= i < |sorted| && sorted[i] == b;
    assert AnyVersion2(sorted);
    OneBinding(b);
    assert OfBackend([b], b.backend) == [b];
    assert Scoped([b], c.projectId);
    assert OneEach([b]);
  }

  /** What the host adds to a lease, request by request. */
  lemma ComposedResolve(material: Option<Material>, expiresAt: Option<int>, ctx: Context, b: Binding, policy: Policy, key: string, lease: Lease)
    requires ComposeLease(material, expiresAt, ctx, b, Some(policy), key) == Ok(lease) && ctx.request == Resolve
    ensures lease.material == material
    ensures lease.authorizationExpiresAt == Some((ctx.claims.issuedAt + policy.ttlSeconds) * 1000)
    ensures lease.expiresAt == Sooner(expiresAt, lease.authorizationExpiresAt)
    ensures if material.Some?
            then SignRenewal(ctx.claims, b, policy, key).Ok?
                 && lease.renewal == Some(Renewal(SignRenewal(ctx.claims, b, policy, key).value, policy.action))
            else lease.renewal.None?
  {
    var signed := SignRenewal(ctx.claims, b, policy, key);
    BoundedResolve(material, expiresAt, ctx, policy, if material.None? then None else Some(signed.value), lease);
  }

  lemma BoundedResolve(material: Option<Material>, expiresAt: Option<int>, ctx: Context, policy: Policy, token: Option<Token>, lease: Lease)
    requires Bounded(material, expiresAt, ctx, Some(policy), token) == Ok(lease) && ctx.request == Resolve
    ensures lease.material == material
    ensures lease.authorizationExpiresAt == Some((ctx.claims.issuedAt + policy.ttlSeconds) * 1000)
    ensures lease.expiresAt == Sooner(expiresAt, lease.authorizationExpiresAt)
    ensures lease.renewal == if token.Some? then Some(Renewal(token.value, policy.action)) else None
  {}

  lemma ComposedLater(material: Option<Material>, expiresAt: Option<int>, ctx: Context, b: Binding, policy: Option<Policy>, key: string, lease: Lease)
    requires ComposeLease(material, expiresAt, ctx, b, policy, key) == Ok(lease) && ctx.request != Resolve
    requires ctx.presented.Some? <==> ctx.request == Renew
    ensures lease.material == material
    ensures lease.authorizationExpiresAt == Some(ctx.claims.expiresAt * 1000)
    ensures lease.expiresAt == Sooner(expiresAt, lease.authorizationExpiresAt)
    ensures if ctx.request == Renew
            then policy.Some? && lease.renewal == Some(Renewal(ctx.presented.value, policy.value.action))
            else lease.renewal.None?
  {}

  lemma Served(r: Registry, key: string, ctx: Context, b: Binding, answer: Answer, lease: Lease) returns (material: Option<Material>, expiresAt: Option<int>)
    requires ServeBinding(r, key, ctx, b, answer) == Ok(lease) && b.version == 2
    ensures OwnerOf(r, b).Some? && (ctx.provider.Some? ==> OwnerOf(r, b) == ctx.provider)
    ensures ComposeLease(material, expiresAt, ctx, b, OwnerOf(r, b).value.renewal, key) == Ok(lease)
  {
    material, expiresAt := AdapterMaterial(answer).value.0, AdapterMaterial(answer).value.1;
  }

  /** The lease that a handoff with these claims fixes for a connection. */
  ghost predicate Fixed(c: Claims, b: Binding, policy: Policy, key: string, lease: Lease) {
    && lease.renewal == Some(Renewal(
         Signed(c.(audience := policy.audience, bindings := [b], expiresAt := c.issuedAt + policy.ttlSeconds), key), policy.action))
    && lease.authorizationExpiresAt == Some((c.issuedAt + policy.ttlSeconds) * 1000)
    && lease.expiresAt.Some? && lease.expiresAt.value <= lease.authorizationExpiresAt.value
    && policy.action != ResolveCredentials
  }

  lemma FixedByOneBinding(c: Claims, bindings: seq<Binding>, b: Binding, policy: Policy, key: string, lease: Lease)
    requires Fixed(c.(bindings := bindings), b, policy, key, lease)
    ensures Fixed(c, b, policy, key, lease) && Under(lease, lease.renewal.value.grant)
  {}

  lemma ResolvedLease(r: Registry, key: string, ctx: Context, b: Binding, policy: Policy, answer: Answer, lease: Lease)
    requires Sound(r) && ctx.request == Resolve && OwnerOf(r, b).Some? && OwnerOf(r, b).value.renewal == Some(policy)
    requires ServeBinding(r, key, ctx, b, answer) == Ok(lease) && lease.material.Some?
    ensures Fixed(ctx.claims, b, policy, key, lease)
  {
    var material, expiresAt := Served(r, key, ctx, b, answer, lease);
    ComposedResolve(material, expiresAt, ctx, b, policy, key, lease);
    SignedRenewal(ctx.claims, b, policy, key);
  }

  /** The first lease of a renewable connection is good until `issuedAt + ttlSeconds`,
      and says so in its token. */
  lemma HandoffFixesTheCeiling(r: Registry, key: string, nowMs: int, grant: Token, ctx: Context, b: Binding, policy: Policy, answer: Answer, lease: Lease)
    requires Sound(r) && OpenContext(r, key, nowMs, ResolveCredentials, grant) == Ok(ctx) && ctx.claims.purpose != VerifyConnection
    requires OwnerOf(r, b).Some? && OwnerOf(r, b).value.renewal == Some(policy)
    requires ServeBinding(r, key, ctx, b, answer) == Ok(lease) && lease.material.Some?
    ensures grant.Signed? && Fixed(grant.claims, b, policy, key, lease)
    ensures Under(lease, lease.renewal.value.grant)
  {
    OpenedGrant(r, key, nowMs, grant, ctx);
    ResolvedLease(r, key, ctx, b, policy, answer, lease);
    FixedByOneBinding(grant.claims, ctx.claims.bindings, b, policy, key, lease);
  }

  /** A renewal, by whatever registry and policy are then deployed, keeps ceiling and
      token, and only happens before the ceiling. */
  lemma RenewalKeepsTheCeiling(r: Registry, key: string, nowMs: int, action: Action, t: Token, ctx: Context, b: Binding, answer: Answer, lease: Lease)
    requires Sound(r) && action != ResolveCredentials && b.version == 2
    requires OpenContext(r, key, nowMs, action, t) == Ok(ctx) && ServeBinding(r, key, ctx, b, answer) == Ok(lease)
    ensures Under(lease, t) && nowMs < lease.authorizationExpiresAt.value
  {
    var material, expiresAt := Served(r, key, ctx, b, answer, lease);
    OpenedRenewal(r, key, nowMs, action, t, ctx);
    ComposedLater(material, expiresAt, ctx, b, OwnerOf(r, b).value.renewal, key, lease);
  }

  lemma ComposeRenewed(ctx: Context, t: Token, b: Binding, policy: Policy, key: string, m: Material, end: int)
    requires ctx.request == Renew && ctx.presented == Some(t) && t != Junk("")
    requires 0 < end <= MAX_SAFE_INTEGER && 0 < ctx.claims.expiresAt * 1000 <= MAX_SAFE_INTEGER
    ensures var ceiling := ctx.claims.expiresAt * 1000;
            ComposeLease(Some(m), Some(end), ctx, b, Some(policy), key)
            == Ok(Lease(Some(m), Some(if end <= ceiling then end else ceiling), Some(ceiling), Some(Renewal(t, policy.action))))
  {}

  /** A request that opens is served: with material and an expiry from the adapter the
      renewed lease lasts until the sooner of that expiry and the ceiling. */
  lemma RenewalServes(r: Registry, key: string, nowMs: int, action: Action, t: Token, ctx: Context, b: Binding, m: Material, end: int)
    requires Sound(r) && action != ResolveCredentials && OpenContext(r, key, nowMs, action, t) == Ok(ctx) && nowMs >= 0
    requires OwnerOf(r, b) == Some(r.renewals[action]) && 0 < end <= MAX_SAFE_INTEGER
    requires t.Signed? && t.claims.expiresAt * 1000 <= MAX_SAFE_INTEGER
    ensures var ceiling := t.claims.expiresAt * 1000;
            ServeBinding(r, key, ctx, b, Plain(Some(m), Some(end)))
            == Ok(Lease(Some(m), Some(if end <= ceiling then end else ceiling), Some(ceiling), Some(Renewal(t, r.renewals[action].renewal.value.action))))
  {
    OpenedRenewal(r, key, nowMs, action, t, ctx);
    ComposeRenewed(ctx, t, b, r.renewals[action].renewal.value, key, m, end);
  }

  /** When a renewal token is still honoured: the action must serve its audience and
      own its connection, the deployed lifetime must cover the token's, and its time
      must not be over.  So a deployment may raise the lifetime, never lower it. */
  lemma RenewalAcceptedIff(r: Registry, key: string, nowMs: int, action: Action, c: Claims, b: Binding, issuing: Policy)
    requires Sound(r) && action in r.renewals && action != ResolveCredentials
    requires SignRenewal(c, b, issuing, key).Ok?
    ensures r.renewals[action].renewal.Some?
    ensures var p := r.renewals[action].renewal.value;
            OpenContext(r, key, nowMs, action, SignRenewal(c, b, issuing, key).value).Ok? <==>
              && p.audience == issuing.audience
              && 0 < issuing.ttlSeconds <= p.ttlSeconds
              && OwnerOf(r, b) == Some(r.renewals[action])
              && c.issuedAt - CLOCK_SKEW_SECONDS <= Seconds(nowMs) < c.issuedAt + issuing.ttlSeconds
  {
    var p := r.renewals[action].renewal.value;
    var one := c.(bindings := [b], expiresAt := c.issuedAt + issuing.ttlSeconds);
    SignedRenewal(c, b, issuing, key);
    VerifyInvertsSign(one, key, issuing.audience, key, nowMs, p.audience, p.ttlSeconds);
  }

  /** A token opens one kind of request: a handoff grant resolves and never renews, a
      renewal token never resolves and renews under one action only. */
  lemma TokenHasOneUse(r: Registry, key: string, t: Token, now1: int, now2: int, action1: Action, action2: Action, ctx1: Context, ctx2: Context)
    requires Sound(r)
    requires OpenContext(r, key, now1, action1, t) == Ok(ctx1) && OpenContext(r, key, now2, action2, t) == Ok(ctx2)
    ensures action1 == action2
  {
    var audience1 := UsedAs(r, key, now1, action1, t, ctx1);
    var audience2 := UsedAs(r, key, now2, action2, t, ctx2);
  }

  lemma UsedAs(r: Registry, key: string, nowMs: int, action: Action, t: Token, ctx: Context) returns (audience: Audience)
    requires Sound(r) && OpenContext(r, key, nowMs, action, t) == Ok(ctx)
    ensures t.Signed? && audience == t.claims.audience
    ensures action == ResolveCredentials ==> audience == BrokerGrants
    ensures action != ResolveCredentials ==> action in r.renewals && r.renewals[action].renewal.Some? && audience == r.renewals[action].renewal.value.audience
  {
    if action == ResolveCredentials { OpenedGrant(r, key, nowMs, t, ctx); } else { OpenedRenewal(r, key, nowMs, action, t, ctx); }
    audience := t.claims.audience;
  }

  /** A connection check ends with its grant, within five minutes, and carries no
      renewal. */
  lemma VerificationIsNotRenewable(r: Registry, key: string, nowMs: int, t: Token, ctx: Context, b: Binding, answer: Answer, lease: Lease)
    requires OpenContext(r, key, nowMs, ResolveCredentials, t) == Ok(ctx) && ctx.claims.purpose == VerifyConnection
    requires b.version == 2 && ServeBinding(r, key, ctx, b, answer) == Ok(lease)
    ensures t.Signed? && lease.renewal.None? && lease.authorizationExpiresAt == Some(t.claims.expiresAt * 1000)
    ensures t.claims.expiresAt - t.claims.issuedAt <= GRANT_TTL_SECONDS
  {
    var material, expiresAt := Served(r, key, ctx, b, answer, lease);
    OpenedGrant(r, key, nowMs, t, ctx);
    ComposedLater(material, expiresAt, ctx, b, OwnerOf(r, b).value.renewal, key, lease);
  }

  // --------------------------------------------------------------- chains

  /** One renewal of a chain, with whatever is deployed and answered at its time. */
  datatype Step = Step(registry: Registry, nowMs: int, answer: Answer)

  function RenewOnce(key: string, b: Binding, l: Lease, s: Step): Result<Lease> {
    if l.renewal.None? then Err(GrantInvalid)
    else match OpenContext(s.registry, key, s.nowMs, l.renewal.value.action, l.renewal.value.grant)
      case Err(e) => Err(e)
      case Ok(ctx) => ServeBinding(s.registry, key, ctx, b, s.answer)
  }

  /** The lease after a chain of renewals; a refused renewal leaves the lease. */
  function Chain(key: string, b: Binding, l: Lease, steps: seq<Step>): Lease {
    if steps == [] then l
    else
      var before := Chain(key, b, l, steps[..|steps| - 1]);
      match RenewOnce(key, b, before, steps[|steps| - 1]) case Ok(next) => next case Err(_) => before
  }

  lemma RenewOnceKeeps(key: string, b: Binding, l: Lease, t: Token, s: Step)
    requires Sound(s.registry) && b.version == 2 && Under(l, t) && RenewOnce(key, b, l, s).Ok?
    ensures Under(RenewOnce(key, b, l, s).value, t) && s.nowMs < t.claims.expiresAt * 1000
  {
    var ctx := OpenContext(s.registry, key, s.nowMs, l.renewal.value.action, t).value;
    RenewalKeepsTheCeiling(s.registry, key, s.nowMs, l.renewal.value.action, t, ctx, b, s.answer, RenewOnce(key, b, l, s).value);
  }

  /** Along any chain the ceiling is the one of the handoff, and so is the token. */
  lemma {:induction false} ChainKeepsTheCeiling(key: string, b: Binding, l: Lease, t: Token, steps: seq<Step>)
    requires b.version == 2 && Under(l, t)
    requires forall i :: 0 <= i < |steps| ==> Sound(steps[i].registry)
    ensures Under(Chain(key, b, l, steps), t)
  {
    if steps != [] {
      var before, s := Chain(key, b, l, steps[..|steps| - 1]), steps[|steps| - 1];
      ChainKeepsTheCeiling(key, b, l, t, steps[..|steps| - 1]);
      assert Sound(s.registry);
      if RenewOnce(key, b, before, s).Ok? { RenewOnceKeeps(key, b, before, t, s); }
    }
  }

  /** From handoff to the last renewal: the lease is bounded by the handoff's issue
      time and the lifetime of the policy that issued it, however many renewals
      succeeded and whatever was deployed meanwhile. */
  lemma HandoffBoundsEveryLease(r: Registry, key: string, nowMs: int, grant: Token, ctx: Context, b: Binding, policy: Policy, answer: Answer, first: Lease, steps: seq<Step>)
    requires Sound(r) && OpenContext(r, key, nowMs, ResolveCredentials, grant) == Ok(ctx) && ctx.claims.purpose != VerifyConnection
    requires OwnerOf(r, b).Some? && OwnerOf(r, b).value.renewal == Some(policy)
    requires ServeBinding(r, key, ctx, b, answer) == Ok(first) && first.material.Some?
    requires forall i :: 0 <= i < |steps| ==> Sound(steps[i].registry)
    ensures grant.Signed?
    ensures var ceiling := (grant.claims.issuedAt + policy.ttlSeconds) * 1000;
            var last := Chain(key, b, first, steps);
            && last.authorizationExpiresAt == Some(ceiling) && last.expiresAt.Some? && last.expiresAt.value <= ceiling
            && last.renewal.Some? && last.renewal.value.grant == first.renewal.value.grant
  {
    HandoffFixesTheCeiling(r, key, nowMs, grant, ctx, b, policy, answer, first);
    ChainKeepsTheCeiling(key, b, first, first.renewal.value.grant, steps);
  }
}
