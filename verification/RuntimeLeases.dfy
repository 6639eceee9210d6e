/** The runtime's side of credential renewal: the leases of one invocation, kept and
    refreshed by `prepareCredentialLeases`. */
module RuntimeLeases {
  import opened RenewalChain
  import opened Wrappers

  datatype Entry = Entry(binding: Binding, lease: Lease)

  /** The invocation that the leases were resolved for, the materials its runtime can
      adapt, and those whose adapter brings a session of its own. */
  datatype Invocation = Invocation(
    purpose: Purpose, projectId: Option<string>, executionId: Option<string>, adapters: set<string>, owning: set<string>)

  /** A credential on the wire: a lease, or the bare value of brokers without leases. */
  datatype Credential = Credential(binding: Binding, lease: Option<Lease>, value: Option<string>)

  datatype Reply =
    | Reply(purpose: Purpose, projectId: Option<string>, executionId: Option<string>, credentials: seq<Credential>)
    | Rejected

  datatype Prepared = Prepared(expiresAt: Option<int>, authorizationExpiresAt: Option<int>)

  datatype Outcome = Ready(prepared: Prepared) | Expired | Unsupported | Mismatch

  function LeaseFromResponse(c: Credential): Result<Lease> {
    if c.lease.Some? then NormalizeLease(c.lease.value)
    else
      var material := if c.value.Some? && c.value.value != "" then Some(Material("api-key", c.value.value)) else None;
      Ok(Lease(material, None, None, None))
  }

  /** A renewed entry: what the broker says, under the boundary held so far. */
  function Renewed(inv: Invocation, e: Entry, reply: Reply): Option<Entry> {
    if e.lease.renewal.None? then Some(e)
    else if reply.Rejected? then None
    else if reply.purpose != inv.purpose || reply.projectId != inv.projectId || reply.executionId != inv.executionId then None
    else if |reply.credentials| != 1 || reply.credentials[0].binding != e.binding then None
    else match LeaseFromResponse(reply.credentials[0])
      case Err(_) => None
      case Ok(lease) => Some(Entry(e.binding, lease.(authorizationExpiresAt := e.lease.authorizationExpiresAt)))
  }

  /** All entries renewed, or nothing when one of them fails. */
  function AllRenewed(inv: Invocation, entries: seq<Entry>, replies: seq<Reply>): (r: Option<seq<Entry>>)
    requires |entries| == |replies|
    ensures r.Some? ==> |r.value| == |entries|
  {
    if entries == [] then Some([])
    else
      var n := |entries| - 1;
      var before, last := AllRenewed(inv, entries[..n], replies[..n]), Renewed(inv, entries[n], replies[n]);
      if before.None? || last.None? then None else Some(before.value + [last.value])
  }

  predicate Passed(time: Option<int>, now: int) { time.Some? && time.value <= now }

  predicate Stale(e: Entry, now: int) {
    e.lease.material.Some? && (Passed(e.lease.expiresAt, now) || Passed(e.lease.authorizationExpiresAt, now))
  }

  /** Every lease with material is good, and adaptable by this runtime. */
  predicate IsReady(inv: Invocation, entries: seq<Entry>, now: int) {
    forall i :: 0 <= i < |entries| ==>
      !Stale(entries[i], now) && (entries[i].lease.material.Some? ==> entries[i].lease.material.value.kind in inv.adapters)
  }

  /** The earliest of the times that are set. */
  ghost predicate IsMinimum(m: Option<int>, times: seq<Option<int>>) {
    && (m.None? <==> forall i :: 0 <= i < |times| ==> times[i].None?)
    && (m.Some? ==> m in times && forall i :: 0 <= i < |times| && times[i].Some? ==> m.value <= times[i].value)
  }

  function Minimum(times: seq<Option<int>>): (m: Option<int>)
    ensures IsMinimum(m, times)
  {
    if times == [] then None
    else
      var n := |times| - 1;
      var before := Minimum(times[..n]);
      assert times == times[..n] + [times[n]];
      Sooner(before, times[n])
  }

  function Expiries(entries: seq<Entry>): (r: seq<Option<int>>)
    ensures |r| == |entries| && forall i :: 0 <= i < |r| ==> r[i] == entries[i].lease.expiresAt
  {
    seq(|entries|, i requires 0 <= i < |entries| => entries[i].lease.expiresAt)
  }

  function Ceilings(entries: seq<Entry>): (r: seq<Option<int>>)
    ensures |r| == |entries| && forall i :: 0 <= i < |r| ==> r[i] == entries[i].lease.authorizationExpiresAt
  {
    seq(|entries|, i requires 0 <= i < |entries| => entries[i].lease.authorizationExpiresAt)
  }

  lemma {:induction false} RenewedKeepsCeilings(inv: Invocation, entries: seq<Entry>, replies: seq<Reply>)
    requires |entries| == |replies| && AllRenewed(inv, entries, replies).Some?
    ensures Ceilings(AllRenewed(inv, entries, replies).value) == Ceilings(entries)
    ensures forall i :: 0 <= i < |entries| ==> AllRenewed(inv, entries, replies).value[i].binding == entries[i].binding
  {
    if entries != [] {
      var n := |entries| - 1;
      RenewedKeepsCeilings(inv, entries[..n], replies[..n]);
      var before, all := AllRenewed(inv, entries[..n], replies[..n]).value, AllRenewed(inv, entries, replies).value;
      assert all[..n] == before;
      forall i | 0 <= i < |entries|
        ensures all[i].lease.authorizationExpiresAt == entries[i].lease.authorizationExpiresAt && all[i].binding == entries[i].binding
      {
        if i < n {
          assert all[i] == before[i] && entries[i] == entries[..n][i];
          assert Ceilings(before)[i] == Ceilings(entries[..n])[i];
        }
      }
    }
  }

  /** What a broker says of one credential, as a lease: the one it gives, or a bare key. */
  ghost predicate Says(c: Credential, lease: Lease) {
    match c.lease
    case Some(given) => lease == given && NormalizeLease(given) == Ok(given)
    case None =>
      && lease.expiresAt.None? && lease.authorizationExpiresAt.None? && lease.renewal.None?
      && (if c.value.None? || c.value.value == "" then lease.material.None? else lease.material == Some(Material("api-key", c.value.value)))
  }

  /** An entry is renewed exactly by a reply to this invocation about its binding alone, and
      then keeps its boundary; one that cannot be renewed stays as it is. */
  lemma RenewedIff(inv: Invocation, e: Entry, reply: Reply, next: Entry)
    ensures Renewed(inv, e, reply) == Some(next) <==>
              if e.lease.renewal.None? then next == e
              else
                && reply.Reply? && reply.purpose == inv.purpose && reply.projectId == inv.projectId && reply.executionId == inv.executionId
                && next.binding == e.binding && next.lease.authorizationExpiresAt == e.lease.authorizationExpiresAt
                && |reply.credentials| == 1 && reply.credentials[0].binding == e.binding
                && exists said :: Says(reply.credentials[0], said) && next.lease == said.(authorizationExpiresAt := e.lease.authorizationExpiresAt)
  {
    if e.lease.renewal.Some? && reply.Reply? && |reply.credentials| == 1 {
      var c := reply.credentials[0];
      SaysIff(c);
    }
  }

  lemma SaysIff(c: Credential)
    ensures forall said :: Says(c, said) <==> LeaseFromResponse(c) == Ok(said)
  {
    forall said ensures Says(c, said) <==> LeaseFromResponse(c) == Ok(said) {
      if c.lease.None? {
        assert said == Lease(said.material, said.expiresAt, said.authorizationExpiresAt, said.renewal);
      }
    }
  }

  /** All good: whatever is there is adaptable, and neither its end nor its boundary has come. */
  lemma ReadyIff(inv: Invocation, entries: seq<Entry>, now: int)
    ensures IsReady(inv, entries, now) <==>
              forall e, material | e in entries && e.lease.material == Some(material) ::
                && material.kind in inv.adapters
                && (forall ms | e.lease.expiresAt == Some(ms) || e.lease.authorizationExpiresAt == Some(ms) :: now < ms)
  {
    forall e | e in entries && e.lease.material.Some?
      ensures !Stale(e, now) <==> forall ms | e.lease.expiresAt == Some(ms) || e.lease.authorizationExpiresAt == Some(ms) :: now < ms
    {
      if e.lease.expiresAt.Some? { assert e.lease.expiresAt == Some(e.lease.expiresAt.value); }
      if e.lease.authorizationExpiresAt.Some? { assert e.lease.authorizationExpiresAt == Some(e.lease.authorizationExpiresAt.value); }
    }
  }

  /** A broker that renews by the handoff's token leaves the entry under that token. */
  lemma RenewedStaysUnder(inv: Invocation, e: Entry, key: string, s: Step, t: Token)
    requires Under(e.lease, t) && e.binding.version == 2 && Sound(s.registry)
    requires RenewOnce(key, e.binding, e.lease, s).Ok?
    ensures var lease := RenewOnce(key, e.binding, e.lease, s).value;
            var reply := Reply(inv.purpose, inv.projectId, inv.executionId, [Credential(e.binding, Some(lease), None)]);
            NormalizeLease(lease).Ok? ==>
              && Renewed(inv, e, reply) == Some(Entry(e.binding, lease))
              && Under(Renewed(inv, e, reply).value.lease, t)
  {
    RenewOnceKeeps(key, e.binding, e.lease, t, s);
  }

  /** The leases of one invocation. */
  class LeaseHolder {
    const invocation: Invocation
    var current: seq<Entry>

    constructor (invocation: Invocation, credentials: seq<Entry>)
      ensures this.invocation == invocation && current == credentials
    {
      this.invocation, current := invocation, credentials;
    }

    /** Ready means that every lease with material is still good and adaptable; the
        bounds are then the earliest over all leases. */
    method Prepare(now: int) returns (r: Outcome)
      ensures r.Ready? <==> IsReady(invocation, current, now)
      ensures r.Ready? ==> IsMinimum(r.prepared.expiresAt, Expiries(current)) && IsMinimum(r.prepared.authorizationExpiresAt, Ceilings(current))
      ensures !r.Mismatch?
    {
      for i := 0 to |current|
        invariant IsReady(invocation, current[..i], now)
      {
        var lease := current[i].lease;
        if lease.material.None? { continue; }
        if Passed(lease.expiresAt, now) || Passed(lease.authorizationExpiresAt, now) { return Expired; }
        if lease.material.value.kind !in invocation.adapters { return Unsupported; }
      }
      r := Ready(Prepared(Minimum(Expiries(current)), Minimum(Ceilings(current))));
    }

    /** All leases are renewed together; the new ones are kept even when preparing
        them fails.  No reply moves a ceiling. */
    method Refresh(replies: seq<Reply>, now: int) returns (r: Outcome)
      requires |replies| == |current|
      modifies this
      ensures var renewed := AllRenewed(invocation, old(current), replies);
              current == (if renewed.Some? then renewed.value else old(current)) && (r.Mismatch? <==> renewed.None?)
      ensures Ceilings(current) == Ceilings(old(current))
      ensures r.Ready? <==> !r.Mismatch? && IsReady(invocation, current, now)
      ensures r.Ready? ==>
                IsMinimum(r.prepared.authorizationExpiresAt, Ceilings(old(current))) && IsMinimum(r.prepared.expiresAt, Expiries(current))
    {
      var next := [];
      for i := 0 to |current|
        invariant AllRenewed(invocation, current[..i], replies[..i]) == Some(next)
      {
        var one := Renewed(invocation, current[i], replies[i]);
        assert current[..i + 1][..i] == current[..i] && replies[..i + 1][..i] == replies[..i];
        if one.None? {
          NoneStays(invocation, current, replies, i + 1);
          return Mismatch;
        }
        next := next + [one.value];
      }
      assert current[..|current|] == current && replies[..|current|] == replies;
      RenewedKeepsCeilings(invocation, current, replies);
      current := next;
      r := Prepare(now);
    }
  }

  lemma {:induction false} NoneStays(inv: Invocation, entries: seq<Entry>, replies: seq<Reply>, i: nat)
    requires |entries| == |replies| && i <= |entries| && AllRenewed(inv, entries[..i], replies[..i]).None?
    ensures AllRenewed(inv, entries, replies).None?
  {
    if i < |entries| {
      var n := |entries| - 1;
      assert entries[..n][..i] == entries[..i] && replies[..n][..i] == replies[..i];
      NoneStays(inv, entries[..n], replies[..n], i);
    } else {
      assert entries[..i] == entries && replies[..i] == replies;
    }
  }

  lemma MinimumIsUnique(a: Option<int>, b: Option<int>, times: seq<Option<int>>)
    requires IsMinimum(a, times) && IsMinimum(b, times)
    ensures a == b
  {
    if a.Some? {
      var i :| 0 <= i < |times| && times[i] == a;
      assert b.Some?;
      var j :| 0 <= j < |times| && times[j] == b;
    }
  }

  /** Over any number of refreshes, with any replies, the authorization boundary that
      the session is given is the one of the first preparation. */
  method RefreshMany(holder: LeaseHolder, rounds: seq<(seq<Reply>, int)>, first: Prepared) returns (seen: seq<Option<Prepared>>)
    requires IsMinimum(first.authorizationExpiresAt, Ceilings(holder.current))
    requires forall k :: 0 <= k < |rounds| ==> |rounds[k].0| == |holder.current|
    modifies holder
    ensures |seen| == |rounds|
    ensures forall k :: 0 <= k < |seen| && seen[k].Some? ==> seen[k].value.authorizationExpiresAt == first.authorizationExpiresAt
    ensures Ceilings(holder.current) == Ceilings(old(holder.current))
  {
    seen := [];
    for k := 0 to |rounds|
      invariant Ceilings(holder.current) == Ceilings(old(holder.current)) && |holder.current| == |old(holder.current)|
      invariant |seen| == k
      invariant forall j :: 0 <= j < |seen| && seen[j].Some? ==> seen[j].value.authorizationExpiresAt == first.authorizationExpiresAt
    {
      var r := holder.Refresh(rounds[k].0, rounds[k].1);
      assert |Ceilings(holder.current)| == |holder.current|;
      if r.Ready? {
        MinimumIsUnique(r.prepared.authorizationExpiresAt, first.authorizationExpiresAt, Ceilings(old(holder.current)));
      }
      seen := seen + [if r.Ready? then Some(r.prepared) else None];
    }
  }
}
