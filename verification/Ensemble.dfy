/** The ensemble of one stage attempt and revision: persona sessions dispatched over
    any number of park/resume legs, with all counters read back from receipts. */
module Ensemble {
  import opened Wrappers

  const MAX_DISSENT_ROUNDS: nat := 2
  const MAX_PERSONA_ATTEMPTS: nat := 2
  const MAX_SUPPORT_PERSONAS: nat := 6
  const DISSENT_ORDINAL_BASE: nat := 1000
  const RUNTIME_MAX_LIFETIME_MS: int := 28800 * 1000
  const RUNTIME_LIFETIME_MARGIN_MS: int := 90 * 60 * 1000

  // ------------------------------------------------------------- ordinals

  /** One integer for (round, position): what a receipt's key offers. */
  function ContributionOrdinal(round: int, position: int): int { (round - 1) * DISSENT_ORDINAL_BASE + position }

  function RoundOfOrdinal(ordinal: int): int { ordinal / DISSENT_ORDINAL_BASE + 1 }

  /** The round comes back exactly for the positions below the base. */
  lemma RoundComesBackIff(round: int, position: int)
    ensures RoundOfOrdinal(ContributionOrdinal(round, position)) == round <==> 0 <= position < 1000
  {}

  /** So on every topology that is admitted the encoding is one to one. */
  lemma OrdinalsAreUnique(round: int, position: int, round2: int, position2: int)
    requires 1 <= position <= MAX_SUPPORT_PERSONAS && 1 <= position2 <= MAX_SUPPORT_PERSONAS
    ensures ContributionOrdinal(round, position) == ContributionOrdinal(round2, position2) <==> round == round2 && position == position2
  {}

  // ------------------------------------------------------------- deadline

  /** The leg's budget, or what is left of the container less the hand-off reserve. */
  function StageDeadline(startedAt: int, budget: int, containerStartedAt: Option<int>): (deadline: int)
    ensures deadline <= startedAt + budget
    ensures containerStartedAt.Some? ==> deadline <= containerStartedAt.value + RUNTIME_MAX_LIFETIME_MS - RUNTIME_LIFETIME_MARGIN_MS
    ensures containerStartedAt.None? ==> deadline == startedAt + budget
    ensures containerStartedAt.Some? ==>
              deadline == startedAt + budget || deadline == containerStartedAt.value + RUNTIME_MAX_LIFETIME_MS - RUNTIME_LIFETIME_MARGIN_MS
  {
    var leg := startedAt + budget;
    if containerStartedAt.None? then leg
    else
      var life := containerStartedAt.value + RUNTIME_MAX_LIFETIME_MS - RUNTIME_LIFETIME_MARGIN_MS;
      if leg < life then leg else life
  }

  // -------------------------------------------------------------- history

  datatype Mode = Pipeline | Subagent | Mob

  /** `members` are the supports, or the links of a pipeline, lead first. */
  datatype Topology = Topology(mode: Mode, members: seq<string>)

  datatype Choice = Done | Gapped

  type Receipts = map<int, Choice>

  datatype Role = Lead | Support | Link | Integrator

  /** What happened, oldest first: sessions, receipts that were kept or lost, each with the
      number of sessions just before it that it speaks of. */
  datatype Act =
    | Session(role: Role, ordinal: int, begun: int, ended: int, prepared: nat, deadline: Option<int>, succeeded: bool)
    | Kept(role: Role, ordinal: int, choice: Choice, tried: nat)
    | Lost(role: Role, ordinal: int, choice: Choice, tried: nat)

  /** What the surroundings do at each step of a leg; any leg can be cut anywhere. */
  datatype World = World(
    succeeds: nat -> bool, lasts: nat -> nat, preparing: nat -> nat, pause: nat -> nat,
    keeps: nat -> bool, objectors: nat -> set<int>, alive: nat -> bool, readable: bool)

  predicate Fitting(deadline: Option<int>, now: int, timeout: nat) {
    deadline.Some? ==> deadline.value - now >= timeout
  }

  /** The session that is dispatched at a step: prepared first, then run up to its timeout. */
  function SessionOf(w: World, step: nat, now: int, timeout: nat, role: Role, ordinal: int, deadline: Option<int>): Act {
    var begun := now + w.preparing(step);
    Session(role, ordinal, begun, begun + if w.lasts(step) < timeout then w.lasts(step) else timeout, w.preparing(step), deadline,
            w.succeeds(step + 1))
  }

  /** Sessions are the ones of this world and deadline, dispatched while a full one fitted. */
  ghost predicate BornIn(w: World, timeout: nat, deadline: Option<int>, a: Act) {
    a.Session? ==>
      exists step: nat, now :: Fitting(deadline, now, timeout) && a == SessionOf(w, step, now, timeout, a.role, a.ordinal, deadline)
  }

  /** From the `n`th act on; receipts speak of sessions from there on. */
  ghost predicate AllBorn(w: World, timeout: nat, deadline: Option<int>, history: seq<Act>, n: nat) {
    |history| <= n
    || (var last := history[|history| - 1];
        && BornIn(w, timeout, deadline, last) && (last.Session? || n + last.tried < |history|)
        && AllBorn(w, timeout, deadline, history[..|history| - 1], n))
  }

  ghost predicate Adds(w: World, timeout: nat, deadline: Option<int>, before: seq<Act>, after: seq<Act>) {
    before <= after && AllBorn(w, timeout, deadline, after, |before|)
  }

  lemma {:induction false} BornAt(w: World, timeout: nat, deadline: Option<int>, history: seq<Act>, n: nat, i: nat)
    requires AllBorn(w, timeout, deadline, history, n) && n <= i < |history|
    ensures BornIn(w, timeout, deadline, history[i]) && (history[i].Session? || n + history[i].tried <= i)
  {
    if i < |history| - 1 { BornAt(w, timeout, deadline, history[..|history| - 1], n, i); }
  }

  lemma {:induction false} AddsMore(w: World, timeout: nat, deadline: Option<int>, a: seq<Act>, b: seq<Act>, c: seq<Act>)
    requires Adds(w, timeout, deadline, a, b) && Adds(w, timeout, deadline, b, c)
    ensures Adds(w, timeout, deadline, a, c)
  {
    if |c| > |b| {
      assert b <= c[..|c| - 1];
      AddsMore(w, timeout, deadline, a, b, c[..|c| - 1]);
    } else {
      assert b == c;
    }
  }

  /** `a` was the first thing to happen after `before`. */
  predicate Starts(before: seq<Act>, after: seq<Act>, a: Act) { |before| < |after| && before + [a] <= after }

  /** The first session is for the first of these ordinals, if it fits. */
  predicate Opens(before: seq<Act>, after: seq<Act>, w: World, step: nat, now: int, timeout: nat, ordinals: seq<int>, deadline: Option<int>) {
    ordinals != [] && Fitting(deadline, now, timeout) ==>
      Starts(before, after, SessionOf(w, step, now, timeout, Support, ordinals[0], deadline))
  }

  lemma OpensMore(a: seq<Act>, b: seq<Act>, c: seq<Act>, w: World, step: nat, now: int, step2: nat, now2: int, timeout: nat,
                  ordinals: seq<int>, more: seq<int>, deadline: Option<int>)
    requires a <= b <= c && Opens(a, b, w, step, now, timeout, ordinals, deadline) && Opens(b, c, w, step2, now2, timeout, more, deadline)
    requires ordinals == [] ==> a == b && step == step2 && now == now2
    ensures Opens(a, c, w, step, now, timeout, ordinals + more, deadline)
  {
    if ordinals == [] {
      assert ordinals + more == more;
    } else {
      assert (ordinals + more)[0] == ordinals[0];
    }
  }

  function KeptIn(history: seq<Act>): Receipts {
    if history == [] then map[]
    else
      var before, last := KeptIn(history[..|history| - 1]), history[|history| - 1];
      if last.Kept? then before[last.ordinal := last.choice] else before
  }

  /** A receipt tells what its sessions did: at most two, of which only the last can have
      succeeded, and it says gapped exactly when none has.  The lead has run before. */
  ghost predicate Evidence(history: seq<Act>, role: Role, ordinal: int, choice: Choice, tried: nat) {
    if role == Lead then choice == Done && tried == 0
    else
      && tried <= 2 && tried <= |history|
      && (forall i :: |history| - tried <= i < |history| ==>
            history[i].Session? && history[i].role == role && history[i].ordinal == ordinal)
      && (forall i :: |history| - tried <= i < |history| - 1 ==> !history[i].succeeded)
      && (choice == Done <==> tried > 0 && history[|history| - 1].succeeded)
  }

  /** Sessions, and then their receipt, whether it was kept or lost. */
  ghost predicate EndsWith(before: seq<Act>, after: seq<Act>, role: Role, ordinal: int) {
    && before < after && (forall i :: |before| <= i < |after| - 1 ==> after[i].Session?)
    && var last := after[|after| - 1];
    && !last.Session? && last.role == role && last.ordinal == ordinal && last.tried == |after| - 1 - |before|
  }

  ghost predicate Fits(a: Act, history: seq<Act>) {
    match a
    case Session(role, ordinal, begun, ended, prepared, deadline, _) =>
      && (role == Integrator || ordinal !in KeptIn(history))
      && begun <= ended && (deadline.Some? ==> ended <= deadline.value + prepared)
    case Kept(role, ordinal, choice, tried) => ordinal !in KeptIn(history) && Evidence(history, role, ordinal, choice, tried)
    case Lost(role, ordinal, choice, tried) => ordinal !in KeptIn(history) && Evidence(history, role, ordinal, choice, tried)
  }

  /** No one is dispatched, and no receipt is written, for an ordinal that already
      has its receipt; every receipt tells what its sessions did; and no session
      outlives its deadline by more than the time that was spent preparing it. */
  ghost predicate Orderly(history: seq<Act>) {
    history == [] || (Orderly(history[..|history| - 1]) && Fits(history[|history| - 1], history[..|history| - 1]))
  }

  /** Ordinals that the topology admits. */
  ghost predicate Admitted(t: Topology, ordinal: int) {
    1 <= ordinal <= |t.members|
    || (t.mode == Mob && DISSENT_ORDINAL_BASE < ordinal <= DISSENT_ORDINAL_BASE + |t.members|)
  }

  lemma Appended(history: seq<Act>, a: Act)
    ensures KeptIn(history + [a]) == if a.Kept? then KeptIn(history)[a.ordinal := a.choice] else KeptIn(history)
    ensures Orderly(history + [a]) <==> Orderly(history) && Fits(a, history)
  {
    assert (history + [a])[..|history|] == history;
  }

  lemma {:induction false} OrderlyPrefix(history: seq<Act>, n: nat)
    requires Orderly(history) && n <= |history|
    ensures Orderly(history[..n])
  {
    if n < |history| {
      OrderlyPrefix(history[..|history| - 1], n);
      assert history[..|history| - 1][..n] == history[..n];
    } else {
      assert history[..n] == history;
    }
  }

  lemma {:induction false} KeptStays(history: seq<Act>, i: nat, j: nat)
    requires i < j <= |history| && history[i].Kept?
    ensures history[i].ordinal in KeptIn(history[..j])
  {
    assert history[..j][..j - 1] == history[..j - 1];
    if i < j - 1 { KeptStays(history, i, j - 1); }
  }

  /** Once an ordinal has its receipt, no later session and no later receipt is for
      it, in whatever leg. */
  lemma {:induction false} NeverAgain(history: seq<Act>, i: nat, j: nat)
    requires Orderly(history) && i < j < |history| && history[i].Kept?
    requires history[j].Session? ==> history[j].role != Integrator
    ensures history[j].ordinal != history[i].ordinal
  {
    KeptStays(history, i, j);
    OrderlyPrefix(history, j + 1);
    assert history[..j + 1][..j] == history[..j];
  }

  ghost predicate Prepares(w: World, p: nat) { forall step :: w.preparing(step) <= p }

  /** Names of the first `n` links whose receipts say that they gapped. */
  function GappedLinks(receipts: Receipts, members: seq<string>, n: nat): set<string>
    requires n <= |members|
  {
    if n == 0 then {}
    else GappedLinks(receipts, members, n - 1) + if n in receipts && receipts[n] == Gapped then {members[n - 1]} else {}
  }

  lemma {:induction false} GappedLinksHas(receipts: Receipts, members: seq<string>, n: nat, o: nat)
    requires 1 <= o <= n <= |members| && o in receipts && receipts[o] == Gapped
    ensures members[o - 1] in GappedLinks(receipts, members, n)
  {
    if o < n { GappedLinksHas(receipts, members, n - 1, o); }
  }

  lemma {:induction false} GappedLinksAre(receipts: Receipts, members: seq<string>, n: nat, name: string) returns (o: nat)
    requires n <= |members| && name in GappedLinks(receipts, members, n)
    ensures 1 <= o <= n && o in receipts && receipts[o] == Gapped && members[o - 1] == name
  {
    if n in receipts && receipts[n] == Gapped && members[n - 1] == name { o := n; } else { o := GappedLinksAre(receipts, members, n - 1, name); }
  }

  function GapName(members: seq<string>, a: Act): seq<string> {
    if a.Session? || a.choice == Done then []
    else
      var index := (a.ordinal - 1) % DISSENT_ORDINAL_BASE;
      if index < |members| then [members[index]] else []
  }

  /** Names of whoever gapped from the `n`th act on. */
  function GapNames(members: seq<string>, history: seq<Act>, n: nat): seq<string> {
    if |history| <= n then []
    else GapNames(members, history[..|history| - 1], n) + GapName(members, history[|history| - 1])
  }

  lemma {:induction false} GapNamesMore(members: seq<string>, a: seq<Act>, b: seq<Act>, c: seq<Act>)
    requires a <= b <= c
    ensures GapNames(members, c, |a|) == GapNames(members, b, |a|) + GapNames(members, c, |b|)
  {
    if |c| > |b| {
      assert b <= c[..|c| - 1];
      GapNamesMore(members, a, b, c[..|c| - 1]);
    } else {
      assert b == c;
    }
  }

  /** Sessions alone name nobody. */
  lemma {:induction false} SessionsGapNobody(members: seq<string>, history: seq<Act>, n: nat)
    requires forall i :: n <= i < |history| ==> history[i].Session?
    ensures GapNames(members, history, n) == []
  {
    if |history| > n { SessionsGapNobody(members, history[..|history| - 1], n); }
  }

  ghost predicate AddedIf(members: seq<string>, history: seq<Act>, n: nat, were: seq<string>, are: seq<string>, name: string) {
    name != "integrator" ==> (name in are <==> name in were || name in GapNames(members, history, n))
  }

  /** Apart from the integrator exactly those who gapped from the `n`th act on were added. */
  ghost predicate AddedGaps(members: seq<string>, history: seq<Act>, n: nat, were: seq<string>, are: seq<string>) {
    forall name :: AddedIf(members, history, n, were, are, name)
  }

  lemma AddedAll(members: seq<string>, history: seq<Act>, n: nat, were: seq<string>, are: seq<string>)
    requires are == were + GapNames(members, history, n)
    ensures AddedGaps(members, history, n, were, are)
  {}

  lemma AddedMore(members: seq<string>, a: seq<Act>, b: seq<Act>, c: seq<Act>, were: seq<string>, between: seq<string>, are: seq<string>)
    requires a <= b <= c && AddedGaps(members, b, |a|, were, between) && AddedGaps(members, c, |b|, between, are)
    ensures AddedGaps(members, c, |a|, were, are)
  {
    GapNamesMore(members, a, b, c);
    forall name ensures AddedIf(members, c, |a|, were, are, name) {
      assert AddedIf(members, b, |a|, were, between, name) && AddedIf(members, c, |b|, between, are, name);
    }
  }

  lemma PositionOf(round: int, position: int)
    requires 1 <= position <= DISSENT_ORDINAL_BASE
    ensures (ContributionOrdinal(round, position) - 1) % DISSENT_ORDINAL_BASE == position - 1
  {}

  lemma NamedByPosition(members: seq<string>, a: Act, position: int)
    requires !a.Session? && 1 <= position <= |members| && (a.ordinal - 1) % DISSENT_ORDINAL_BASE == position - 1
    ensures GapName(members, a) == if a.choice == Gapped then [members[position - 1]] else []
  {}

  /** After sessions their receipt names who gapped. */
  lemma {:induction false} EndNames(members: seq<string>, start: seq<Act>, before: seq<Act>, after: seq<Act>, role: Role, ordinal: int)
    requires start <= before && EndsWith(before, after, role, ordinal)
    ensures GapNames(members, after, |start|) == GapNames(members, before, |start|) + GapName(members, after[|after| - 1])
  {
    var sessions := after[..|after| - 1];
    SessionsGapNobody(members, sessions, |before|);
    GapNamesMore(members, start, before, sessions);
    assert GapNames(members, before, |start|) + [] == GapNames(members, before, |start|);
  }

  /** In whatever leg: who has a receipt that says gapped had up to two sessions for it, and
      none succeeded; who has one that says done succeeded in the last of them. */
  lemma {:induction false} ReceiptsTell(history: seq<Act>, i: nat)
    requires Orderly(history) && i < |history| && history[i].Kept? && history[i].role != Lead
    ensures history[i].tried <= 2 && history[i].tried <= i
    ensures forall j :: i - history[i].tried <= j < i ==>
              && history[j].Session? && history[j].ordinal == history[i].ordinal && history[j].role == history[i].role
              && (history[j].succeeded <==> j == i - 1 && history[i].choice == Done)
    ensures history[i].choice == Done ==> history[i].tried > 0
  {
    OrderlyPrefix(history, i + 1);
    var before := history[..i];
    assert history[..i + 1][..i] == before && history[..i + 1][i] == history[i];
    forall j | i - history[i].tried <= j < i
      ensures history[j].Session? && history[j].ordinal == history[i].ordinal && history[j].role == history[i].role
      ensures history[j].succeeded <==> j == i - 1 && history[i].choice == Done
    {
      assert before[j] == history[j];
    }
  }

  /** In terms of the world: a receipt of a leg says done exactly when its last session did
      succeed there; where nobody succeeds everybody gaps. */
  lemma ReceiptsInWorld(w: World, timeout: nat, deadline: Option<int>, before: seq<Act>, after: seq<Act>, i: nat)
    requires Orderly(after) && Adds(w, timeout, deadline, before, after) && |before| <= i < |after|
    requires after[i].Kept? && after[i].role != Lead
    ensures |before| + after[i].tried <= i
    ensures after[i].choice == Done <==> after[i].tried > 0 && Succeeds(w, timeout, after[i - 1])
    ensures Hopeless(w) ==> after[i].choice == Gapped
    ensures Hopeful(w) ==> (after[i].choice == Done <==> after[i].tried > 0)
  {
    BornAt(w, timeout, deadline, after, |before|, i);
    ReceiptsTell(after, i);
    if after[i].tried > 0 { BornAt(w, timeout, deadline, after, |before|, i - 1); }
  }

  /** A session of this world that succeeds at its step. */
  ghost predicate Succeeds(w: World, timeout: nat, a: Act) {
    a.Session? && exists step: nat, now :: w.succeeds(step + 1) && a == SessionOf(w, step, now, timeout, a.role, a.ordinal, a.deadline)
  }

  predicate EndsBy(a: Act, time: int) { a.Session? ==> a.ended <= time }

  /** A session overruns its deadline by no more than the time spent preparing it. */
  lemma OverrunIsPreparation(w: World, timeout: nat, deadline: int, a: Act, p: nat)
    requires BornIn(w, timeout, Some(deadline), a) && Prepares(w, p)
    ensures EndsBy(a, deadline + p)
  {}

  /** Where preparing takes up to `p`, every session ends by the deadline exactly if `p` is zero. */
  lemma SessionsEndInTimeIff(timeout: nat, p: nat)
    ensures (forall w, deadline, a :: Prepares(w, p) && BornIn(w, timeout, Some(deadline), a) ==> EndsBy(a, deadline)) <==> p == 0
  {
    if p == 0 {
      forall w, deadline, a | Prepares(w, p) && BornIn(w, timeout, Some(deadline), a) ensures EndsBy(a, deadline) {
        OverrunIsPreparation(w, timeout, deadline, a, p);
      }
    } else {
      var w := Slow(timeout, p);
      var a := SessionOf(w, 0, 0, timeout, Support, 1, Some(timeout));
      assert Fitting(Some(timeout), 0, timeout);
      assert Prepares(w, p) && BornIn(w, timeout, Some(timeout), a) && !EndsBy(a, timeout);
    }
  }

  /** And no session outlives the container exactly if preparing fits into the hand-off reserve. */
  lemma ContainerOutlivesSessionsIff(timeout: nat, p: nat)
    ensures (forall w, startedAt, budget, container, a ::
               Prepares(w, p) && BornIn(w, timeout, Some(StageDeadline(startedAt, budget, Some(container))), a)
               ==> EndsBy(a, container + RUNTIME_MAX_LIFETIME_MS))
            <==> p <= RUNTIME_LIFETIME_MARGIN_MS
  {
    if p <= RUNTIME_LIFETIME_MARGIN_MS {
      forall w, startedAt, budget, container, a
        | Prepares(w, p) && BornIn(w, timeout, Some(StageDeadline(startedAt, budget, Some(container))), a)
        ensures EndsBy(a, container + RUNTIME_MAX_LIFETIME_MS)
      {
        OverrunIsPreparation(w, timeout, StageDeadline(startedAt, budget, Some(container)), a, p);
      }
    } else {
      var w, d := Slow(timeout, p), StageDeadline(0, RUNTIME_MAX_LIFETIME_MS, Some(0));
      var a := SessionOf(w, 0, d - timeout, timeout, Support, 1, Some(d));
      assert Fitting(Some(d), d - timeout, timeout);
      assert Prepares(w, p) && BornIn(w, timeout, Some(d), a) && !EndsBy(a, RUNTIME_MAX_LIFETIME_MS);
    }
  }

  /** Every session takes `p` to prepare and as long as it may to run. */
  function Slow(timeout: nat, p: nat): World {
    World(_ => true, _ => timeout, _ => p, _ => 0, _ => true, _ => {}, _ => true, true)
  }

  /** At most `n` more acts, all of them sessions of this role, ordinal and deadline. */
  ghost predicate Grows(before: seq<Act>, after: seq<Act>, n: nat, role: Role, ordinal: int, deadline: Option<int>) {
    && before <= after && |after| <= |before| + n
    && forall i :: |before| <= i < |after| ==>
         after[i].Session? && after[i].role == role && after[i].ordinal == ordinal && after[i].deadline == deadline
  }

  lemma GrowsMore(a: seq<Act>, b: seq<Act>, c: seq<Act>, n: nat, role: Role, ordinal: int, deadline: Option<int>)
    requires Grows(a, b, n, role, ordinal, deadline) && Grows(b, c, 1, role, ordinal, deadline)
    ensures Grows(a, c, n + 1, role, ordinal, deadline)
  {}

  lemma OneMore(w: World, timeout: nat, a: seq<Act>, b: seq<Act>, s: Act, n: nat)
    requires s.Session? && Adds(w, timeout, s.deadline, a, b) && Grows(a, b, n, s.role, s.ordinal, s.deadline) && BornIn(w, timeout, s.deadline, s)
    ensures Adds(w, timeout, s.deadline, a, b + [s]) && Grows(a, b + [s], n + 1, s.role, s.ordinal, s.deadline)
  {
    assert (b + [s])[..|b|] == b;
  }

  /** A session has ended before a later one begins, and by now. */
  ghost predicate Before(history: seq<Act>, now: int, i: nat, j: nat) {
    i < j <= |history| && history[i].Session? ==>
      && history[i].begun <= history[i].ended
      && (j < |history| && history[j].Session? ==> history[i].ended <= history[j].begun)
      && (j == |history| ==> history[i].ended <= now)
  }

  /** From the `n`th act on, one session runs at a time. */
  ghost predicate InTurn(history: seq<Act>, n: nat, now: int) {
    forall i: nat, j: nat :: n <= i ==> Before(history, now, i, j)
  }

  lemma NextInTurn(history: seq<Act>, n: nat, now: int, a: Act, later: int)
    requires InTurn(history, n, now) && now <= later
    requires a.Session? ==> now <= a.begun <= a.ended <= later
    ensures InTurn(history + [a], n, later)
  {
    forall i: nat, j: nat | n <= i ensures Before(history + [a], later, i, j) {
      assert Before(history, now, i, j) && Before(history, now, i, |history|);
    }
  }

  // --------------------------------------------------------- legs of a stage

  /** What happened since a mark, and then one more ordinal was dispatched. */
  lemma Joined(m: Mark, b: seq<Act>, c: seq<Act>, w: World, step: nat, now: int, timeout: nat,
               ordinals: seq<int>, ordinal: int, deadline: Option<int>)
    requires Adds(w, timeout, deadline, m.history, b) && Adds(w, timeout, deadline, b, c)
    requires Opens(m.history, b, w, m.step, m.now, timeout, ordinals, deadline)
    requires Opens(b, c, w, step, now, timeout, [ordinal], deadline)
    requires ordinals == [] ==> b == m.history && step == m.step && now == m.now
    ensures Adds(w, timeout, deadline, m.history, c)
    ensures Opens(m.history, c, w, m.step, m.now, timeout, ordinals + [ordinal], deadline)
  {
    AddsMore(w, timeout, deadline, m.history, b, c);
    OpensMore(m.history, b, c, w, m.step, m.now, step, now, timeout, ordinals, [ordinal], deadline);
  }

  /** Where a stage stood; `settled` says that whoever was completed had a receipt. */
  datatype Mark = Mark(history: seq<Act>, step: nat, now: int, completed: set<int>, dispatched: seq<int>, gaps: seq<string>, settled: bool)

  /** What happened from one mark to another while the first `i` targets were dealt with. */
  ghost predicate DealtWith(m: Mark, t: Mark, w: World, members: seq<string>, timeout: nat, deadline: Option<int>,
                            round: int, targets: seq<int>, i: nat)
    requires i <= |targets|
  {
    && Adds(w, timeout, deadline, m.history, t.history)
    && t.completed == m.completed + OrdinalsOf(round, targets, i)
    && t.dispatched == m.dispatched + Missing(round, targets, i, m.completed)
    && (Smooth(w) && m.settled ==> t.settled)
    && (Missing(round, targets, i, m.completed) == [] ==> t.history == m.history && t.now == m.now && t.step == m.step)
    && Opens(m.history, t.history, w, m.step, m.now, timeout, Missing(round, targets, i, m.completed), deadline)
    && t.gaps == m.gaps + GapNames(members, t.history, |m.history|)
  }

  /** A leg that was cut while the targets were dealt with had still begun with the first of them. */
  ghost predicate CutShort(m: Mark, t: Mark, w: World, timeout: nat, deadline: Option<int>, round: int, targets: seq<int>) {
    && !Smooth(w) && Adds(w, timeout, deadline, m.history, t.history) && m.dispatched <= t.dispatched
    && Opens(m.history, t.history, w, m.step, m.now, timeout, Missing(round, targets, |targets|, m.completed), deadline)
  }

  lemma PassedOver(m: Mark, t: Mark, w: World, members: seq<string>, timeout: nat, deadline: Option<int>, round: int, targets: seq<int>, i: nat)
    requires i < |targets| && DealtWith(m, t, w, members, timeout, deadline, round, targets, i)
    requires ContributionOrdinal(round, targets[i]) in t.completed
    ensures DealtWith(m, t, w, members, timeout, deadline, round, targets, i + 1) && m.dispatched <= t.dispatched
  {}

  lemma OneDispatched(m: Mark, u: Mark, t: Mark, w: World, members: seq<string>, timeout: nat, deadline: Option<int>,
                      round: int, targets: seq<int>, i: nat)
    requires i < |targets| && DealtWith(m, u, w, members, timeout, deadline, round, targets, i)
    requires var o := ContributionOrdinal(round, targets[i]);
             && o !in u.completed && EndsWith(u.history, t.history, Support, o)
             && t.completed == u.completed + {o} && t.dispatched == u.dispatched + [o]
    requires t.gaps == u.gaps + GapName(members, t.history[|t.history| - 1]) && (Smooth(w) && u.settled ==> t.settled)
    requires Adds(w, timeout, deadline, m.history, t.history)
    requires Opens(m.history, t.history, w, m.step, m.now, timeout,
                   Missing(round, targets, i, m.completed) + [ContributionOrdinal(round, targets[i])], deadline)
    ensures DealtWith(m, t, w, members, timeout, deadline, round, targets, i + 1)
  {
    EndNames(members, m.history, u.history, t.history, Support, ContributionOrdinal(round, targets[i]));
  }

  /** A first dispatch stays the first, whatever is left to dispatch. */
  lemma OpensStill(m: Mark, history: seq<Act>, w: World, round: int, targets: seq<int>, i: nat, timeout: nat, deadline: Option<int>)
    requires i <= |targets| && Missing(round, targets, i, m.completed) != []
    requires Opens(m.history, history, w, m.step, m.now, timeout, Missing(round, targets, i, m.completed), deadline)
    ensures Opens(m.history, history, w, m.step, m.now, timeout, Missing(round, targets, |targets|, m.completed), deadline)
  {
    MissingGrows(round, targets, i, |targets|, m.completed);
  }

  lemma OneDealtWith(m: Mark, u: Mark, t: Mark, w: World, members: seq<string>, timeout: nat, deadline: Option<int>,
                     round: int, targets: seq<int>, i: nat, alive: bool)
    requires i < |targets| && DealtWith(m, u, w, members, timeout, deadline, round, targets, i)
    requires ContributionOrdinal(round, targets[i]) !in u.completed
    requires t.dispatched == u.dispatched + [ContributionOrdinal(round, targets[i])] && (Smooth(w) ==> alive)
    requires Adds(w, timeout, deadline, u.history, t.history)
    requires Fitting(deadline, u.now, timeout) ==>
               Starts(u.history, t.history, SessionOf(w, u.step, u.now, timeout, Support, ContributionOrdinal(round, targets[i]), deadline))
    requires alive ==>
               && EndsWith(u.history, t.history, Support, ContributionOrdinal(round, targets[i]))
               && t.completed == u.completed + {ContributionOrdinal(round, targets[i])}
               && t.gaps == u.gaps + GapName(members, t.history[|t.history| - 1]) && (Smooth(w) && u.settled ==> t.settled)
    ensures alive ==> DealtWith(m, t, w, members, timeout, deadline, round, targets, i + 1)
    ensures !alive ==> CutShort(m, t, w, timeout, deadline, round, targets)
  {
    Joined(m, u.history, t.history, w, u.step, u.now, timeout,
           Missing(round, targets, i, m.completed), ContributionOrdinal(round, targets[i]), deadline);
    if alive {
      OneDispatched(m, u, t, w, members, timeout, deadline, round, targets, i);
    } else {
      OpensStill(m, t.history, w, round, targets, i + 1, timeout, deadline);
    }
  }

  class Stage {
    const topology: Topology
    const sessionTimeout: nat
    /** Persisted: survives a leg. */
    var receipts: Receipts
    ghost var history: seq<Act>
    /** Of the current leg. */
    var completed: set<int>
    var gaps: seq<string>
    var round: int
    var integrations: nat
    var deadline: Option<int>
    var now: int
    var step: nat
    /** Ordinals dispatched in this leg, in order, and receipts it failed to keep. */
    ghost var dispatched: seq<int>
    ghost var lost: set<int>
    /** Where the leg's own acts begin. */
    ghost var start: nat

    ghost predicate Valid() reads this {
      && |topology.members| <= MAX_SUPPORT_PERSONAS + 1
      && Orderly(history) && receipts == KeptIn(history)
      && (forall o :: o in receipts ==> Admitted(topology, o))
    }

    /** In a leg: whoever has a receipt is known to be completed, and sessions take turns. */
    ghost predicate InLeg() reads this { Valid() && receipts.Keys <= completed && InTurn(history, start, now) }

    /** Every link whose receipt says it gapped is listed. */
    ghost predicate GapsListed() reads this {
      forall o :: o in receipts && receipts[o] == Gapped && 1 <= o <= |topology.members| ==> topology.members[o - 1] in gaps
    }

    constructor (topology: Topology, sessionTimeout: nat)
      requires |topology.members| <= MAX_SUPPORT_PERSONAS + 1
      ensures Valid() && this.topology == topology && this.sessionTimeout == sessionTimeout
      ensures history == [] && receipts == map[]
    {
      this.topology, this.sessionTimeout := topology, sessionTimeout;
      receipts, history, completed, gaps, dispatched, lost := map[], [], {}, [], [], {};
      round, integrations, deadline, now, step, start := 1, 0, None, 0, 0, 0;
    }

    ghost method Record(a: Act)
      requires Orderly(history) && Fits(a, history)
      modifies this`history
      ensures Orderly(history) && history == old(history) + [a]
      ensures KeptIn(history) == if a.Kept? then KeptIn(old(history))[a.ordinal := a.choice] else KeptIn(old(history))
    {
      Appended(history, a);
      history := history + [a];
    }

    /** One session, at most `sessionTimeout` long. */
    method RunSession(w: World, role: Role, ordinal: int) returns (ok: bool, alive: bool)
      requires InLeg() && (role == Integrator || ordinal !in receipts)
      requires Fitting(deadline, now, sessionTimeout)
      modifies this`now, this`step, this`history
      ensures InLeg() && history == old(history) + [SessionOf(w, old(step), old(now), sessionTimeout, role, ordinal, deadline)]
      ensures step == old(step) + 1 && ok == w.succeeds(step) && alive == w.alive(step)
      ensures now == history[|history| - 1].ended
    {
      ghost var before := history;
      var prepared := w.preparing(step);
      var lasts := if w.lasts(step) < sessionTimeout then w.lasts(step) else sessionTimeout;
      now := now + prepared;
      Record(Session(role, ordinal, now, now + lasts, prepared, deadline, w.succeeds(step + 1)));
      now := now + lasts;
      NextInTurn(before, start, old(now), history[|history| - 1], now);
      step := step + 1;
      ok, alive := w.succeeds(step), w.alive(step);
    }

    /** So many sessions of a persona since the mark, all of them in vain. */
    ghost predicate Failing(m: Mark, w: World, role: Role, ordinal: int, n: nat) reads this {
      && Adds(w, sessionTimeout, deadline, m.history, history) && Grows(m.history, history, n, role, ordinal, deadline)
      && |history| == |m.history| + n && step == m.step + n
      && (forall i :: |m.history| <= i < |history| ==> !history[i].succeeded)
      && (forall k :: m.step < k <= step ==> !w.succeeds(k))
      && (n > 0 ==> Fitting(deadline, m.now, sessionTimeout)
                    && Starts(m.history, history, SessionOf(w, m.step, m.now, sessionTimeout, role, ordinal, deadline)))
      && (n == 0 ==> now == m.now && history == m.history)
    }

    method TryOnce(w: World, role: Role, ordinal: int, n: nat, ghost m: Mark) returns (ok: bool, alive: bool)
      requires InLeg() && (role == Integrator || ordinal !in receipts)
      requires Fitting(deadline, now, sessionTimeout) && Failing(m, w, role, ordinal, n)
      modifies this`now, this`step, this`history
      ensures InLeg() && Adds(w, sessionTimeout, deadline, m.history, history) && Grows(m.history, history, n + 1, role, ordinal, deadline)
      ensures |history| == |m.history| + n + 1 && step == m.step + n + 1
      ensures ok == w.succeeds(step) == history[|history| - 1].succeeded && alive == w.alive(step)
      ensures forall i :: |m.history| <= i < |history| - 1 ==> !history[i].succeeded
      ensures Fitting(deadline, m.now, sessionTimeout)
      ensures Starts(m.history, history, SessionOf(w, m.step, m.now, sessionTimeout, role, ordinal, deadline))
      ensures !ok && alive ==> Failing(m, w, role, ordinal, n + 1)
    {
      ghost var before := history;
      ghost var a := SessionOf(w, step, now, sessionTimeout, role, ordinal, deadline);
      ok, alive := RunSession(w, role, ordinal);
      OneMore(w, sessionTimeout, m.history, before, a, n);
    }

    /** Up to two sessions, each only while a full one still fits. */
    method RunPersona(w: World, role: Role, ordinal: int) returns (ok: bool, alive: bool)
      requires InLeg() && (role == Integrator || ordinal !in receipts)
      modifies this`now, this`step, this`history
      ensures InLeg() && Grows(old(history), history, MAX_PERSONA_ATTEMPTS, role, ordinal, deadline)
      ensures Adds(w, sessionTimeout, deadline, old(history), history)
      ensures !Fitting(deadline, old(now), sessionTimeout) ==> !ok && alive && history == old(history)
      ensures Fitting(deadline, old(now), sessionTimeout) ==>
                Starts(old(history), history, SessionOf(w, old(step), old(now), sessionTimeout, role, ordinal, deadline))
      ensures step == old(step) + |history| - |old(history)|
      ensures role != Lead ==> Evidence(history, role, ordinal, if ok then Done else Gapped, |history| - |old(history)|)
      ensures ok ==> w.succeeds(step)
      ensures alive && !ok ==> forall n :: old(step) < n <= step ==> !w.succeeds(n)
      ensures alive && !ok && |history| < |old(history)| + 2 ==> !Fitting(deadline, now, sessionTimeout)
      ensures !alive ==> |history| > |old(history)| && !w.alive(step)
      ensures Smooth(w) ==> alive
    {
      ok, alive := false, true;
      ghost var m := Here();
      for attempt := 0 to MAX_PERSONA_ATTEMPTS
        invariant InLeg() && alive && !ok && Failing(m, w, role, ordinal, attempt)
      {
        if !Fitting(deadline, now, sessionTimeout) { return false, true; }
        ok, alive := TryOnce(w, role, ordinal, attempt, m);
        if ok || !alive { return; }
      }
    }

    /** The receipt of an ordinal that has none; the write may be lost. */
    method PutReceipt(w: World, role: Role, ordinal: int, choice: Choice, ghost tried: nat) returns (alive: bool)
      requires InLeg() && ordinal !in receipts && ordinal in completed && Admitted(topology, ordinal)
      requires Evidence(history, role, ordinal, choice, tried)
      modifies this`receipts, this`history, this`step, this`now, this`lost
      ensures InLeg()
      ensures Smooth(w) ==> alive && receipts.Keys == old(receipts).Keys + {ordinal}
      ensures history == old(history) + [if w.keeps(old(step) + 1) then Kept(role, ordinal, choice, tried) else Lost(role, ordinal, choice, tried)]
      ensures || (receipts == old(receipts)[ordinal := choice] && lost == old(lost))
              || (receipts == old(receipts) && lost == old(lost) + {ordinal})
      ensures now == old(now) + w.pause(step)
    {
      step := step + 1;
      if w.keeps(step) {
        Record(Kept(role, ordinal, choice, tried));
        receipts := receipts[ordinal := choice];
      } else {
        Record(Lost(role, ordinal, choice, tried));
        lost := lost + {ordinal};
      }
      now := now + w.pause(step);
      NextInTurn(old(history), start, old(now), history[|history| - 1], now);
      alive := w.alive(step);
    }

    /** A persona runs and leaves its receipt. */
    method Serve(w: World, role: Role, ordinal: int) returns (ok: bool, alive: bool)
      requires InLeg() && ordinal !in completed && role in {Support, Link} && Admitted(topology, ordinal)
      modifies this`receipts, this`history, this`completed, this`step, this`now, this`lost
      ensures InLeg() && Adds(w, sessionTimeout, deadline, old(history), history)
      ensures alive ==> completed == old(completed) + {ordinal}
      ensures old(receipts).Keys <= receipts.Keys <= old(receipts).Keys + {ordinal}
      ensures alive ==> receipts.Keys + lost == old(receipts.Keys + lost) + {ordinal}
      ensures forall o :: o in receipts ==> if o in old(receipts) then receipts[o] == old(receipts)[o] else receipts[o] == if ok then Done else Gapped
      ensures Fitting(deadline, old(now), sessionTimeout) ==>
                Starts(old(history), history, SessionOf(w, old(step), old(now), sessionTimeout, role, ordinal, deadline))
      ensures Smooth(w) ==> alive && receipts.Keys == old(receipts).Keys + {ordinal}
      ensures (Hopeless(w) ==> !ok) && (Hopeful(w) && Fitting(deadline, old(now), sessionTimeout) ==> ok)
      ensures alive ==> EndsWith(old(history), history, role, ordinal) && history[|history| - 1].choice == if ok then Done else Gapped
    {
      ok, alive := RunPersona(w, role, ordinal);
      if alive {
        completed := completed + {ordinal};
        ghost var before := history;
        alive := PutReceipt(w, role, ordinal, if ok then Done else Gapped, |history| - |old(history)|);
        assert history[..|history| - 1] == before;
      }
    }

    /** A support without a receipt for the round is dispatched and gets one. */
    method DispatchSupport(w: World, position: int) returns (alive: bool)
      requires InLeg() && 1 <= round <= MAX_DISSENT_ROUNDS && (round > 1 ==> topology.mode == Mob)
      requires 1 <= position <= |topology.members| && ContributionOrdinal(round, position) !in completed
      modifies this`receipts, this`history, this`completed, this`gaps, this`step, this`now, this`dispatched, this`lost
      ensures InLeg() && Adds(w, sessionTimeout, deadline, old(history), history)
      ensures dispatched == old(dispatched) + [ContributionOrdinal(round, position)]
      ensures alive ==> completed == old(completed) + {ContributionOrdinal(round, position)}
      ensures Fitting(deadline, old(now), sessionTimeout) ==>
                Starts(old(history), history, SessionOf(w, old(step), old(now), sessionTimeout, Support, ContributionOrdinal(round, position), deadline))
      ensures Smooth(w) ==> alive && receipts.Keys == old(receipts).Keys + {ContributionOrdinal(round, position)}
      ensures alive ==> EndsWith(old(history), history, Support, ContributionOrdinal(round, position))
      ensures alive ==> gaps == old(gaps) + GapName(topology.members, history[|history| - 1])
    {
      var ordinal := ContributionOrdinal(round, position);
      dispatched := dispatched + [ordinal];
      var ok;
      ok, alive := Serve(w, Support, ordinal);
      if alive {
        PositionOf(round, position);
        NamedByPosition(topology.members, history[|history| - 1], position);
        if !ok { gaps := gaps + [topology.members[position - 1]]; }
      }
    }

    ghost function Here(): Mark reads this { Mark(history, step, now, completed, dispatched, gaps, completed == receipts.Keys) }

    /** How far the first `i` targets have been dealt with since the mark. */
    ghost predicate Since(m: Mark, w: World, targets: seq<int>, i: nat)
      requires i <= |targets|
      reads this
    {
      DealtWith(m, Here(), w, topology.members, sessionTimeout, deadline, round, targets, i)
    }

    /** A target is passed over if it already has its receipt, from this leg or an earlier one. */
    method DispatchTarget(w: World, targets: seq<int>, i: nat, ghost m: Mark) returns (alive: bool)
      requires InLeg() && 1 <= round <= MAX_DISSENT_ROUNDS && (round > 1 ==> topology.mode == Mob)
      requires i < |targets| && 1 <= targets[i] <= |topology.members| && Since(m, w, targets, i)
      modifies this`receipts, this`history, this`completed, this`gaps, this`step, this`now, this`dispatched, this`lost
      ensures InLeg() && (alive ==> Since(m, w, targets, i + 1))
      ensures !alive ==> CutShort(m, Here(), w, sessionTimeout, deadline, round, targets)
    {
      ghost var u := Here();
      if ContributionOrdinal(round, targets[i]) in completed {
        PassedOver(m, u, w, topology.members, sessionTimeout, deadline, round, targets, i);
        return true;
      }
      alive := DispatchSupport(w, targets[i]);
      OneDealtWith(m, u, Here(), w, topology.members, sessionTimeout, deadline, round, targets, i, alive);
    }

    method DispatchEach(w: World, targets: seq<int>, ghost m: Mark) returns (alive: bool)
      requires InLeg() && 1 <= round <= MAX_DISSENT_ROUNDS && (round > 1 ==> topology.mode == Mob)
      requires forall i :: 0 <= i < |targets| ==> 1 <= targets[i] <= |topology.members|
      requires Since(m, w, targets, 0)
      modifies this`receipts, this`history, this`completed, this`gaps, this`step, this`now, this`dispatched, this`lost
      ensures InLeg() && (alive ==> Since(m, w, targets, |targets|))
      ensures !alive ==> CutShort(m, Here(), w, sessionTimeout, deadline, round, targets)
    {
      alive := true;
      for i := 0 to |targets|
        invariant InLeg()
        invariant alive && Since(m, w, targets, i)
      {
        alive := DispatchTarget(w, targets, i, m);
        if !alive { return; }
      }
    }

    method DispatchSupports(w: World, targets: seq<int>) returns (alive: bool)
      requires InLeg() && 1 <= round <= MAX_DISSENT_ROUNDS && (round > 1 ==> topology.mode == Mob)
      requires forall i :: 0 <= i < |targets| ==> 1 <= targets[i] <= |topology.members|
      modifies this`receipts, this`history, this`completed, this`gaps, this`step, this`now, this`dispatched, this`lost
      ensures InLeg() && Adds(w, sessionTimeout, deadline, old(history), history)
      ensures alive ==> dispatched == old(dispatched) + Missing(round, targets, |targets|, old(completed))
      ensures alive ==> gaps == old(gaps) + GapNames(topology.members, history, |old(history)|)
      ensures alive ==> completed == old(completed) + OrdinalsOf(round, targets, |targets|)
      ensures old(dispatched) <= dispatched
      ensures Opens(old(history), history, w, old(step), old(now), sessionTimeout, Missing(round, targets, |targets|, old(completed)), deadline)
      ensures Smooth(w) ==> alive && (old(completed == receipts.Keys) ==> completed == receipts.Keys)
    {
      alive := DispatchEach(w, targets, Here());
    }

    method Integrate(w: World) returns (alive: bool)
      requires InLeg()
      modifies this`history, this`gaps, this`step, this`now, this`integrations
      ensures InLeg() && Grows(old(history), history, MAX_PERSONA_ATTEMPTS, Integrator, 0, deadline)
      ensures Adds(w, sessionTimeout, deadline, old(history), history)
      ensures integrations == old(integrations) + 1
      ensures gaps == old(gaps) + if alive && !(|history| > |old(history)| && history[|history| - 1].succeeded) then ["integrator"] else []
      ensures AddedGaps(topology.members, history, |old(history)|, old(gaps), gaps)
      ensures Smooth(w) ==> alive
    {
      integrations := integrations + 1;
      var ok;
      ok, alive := RunPersona(w, Integrator, 0);
      ghost var names := GapNames(topology.members, history, |old(history)|);
      SessionsGapNobody(topology.members, history, |old(history)|);
      if alive && !ok { gaps := gaps + ["integrator"]; }
    }

    /** Supports, integration and, for a mob, dissent rounds. */
    method RunHubAndSpoke(w: World) returns (alive: bool)
      requires InLeg() && topology.mode != Pipeline && completed == receipts.Keys && integrations == 0 && dispatched == []
      modifies this`receipts, this`history, this`completed, this`gaps, this`round, this`integrations, this`now, this`step, this`dispatched, this`lost
      ensures InLeg() && Adds(w, sessionTimeout, deadline, old(history), history)
      ensures round <= MAX_DISSENT_ROUNDS && integrations <= 1 + MAX_DISSENT_ROUNDS - LatestRound(old(receipts).Keys)
      ensures alive ==> FirstDispatched(topology, old(receipts).Keys) <= dispatched
      ensures alive ==> AddedGaps(topology.members, history, |old(history)|, old(gaps), gaps)
      ensures Opens(old(history), history, w, old(step), old(now), sessionTimeout, FirstDispatched(topology, old(receipts).Keys), deadline)
      ensures Steady(w) ==> alive && receipts.Keys == LeftBehind(topology, old(receipts).Keys, w.objectors(0))
    {
      alive := DispatchFirst(w);
      if alive {
        ghost var before, listed := history, gaps;
        alive := IntegrateAndTriage(w);
        AddsMore(w, sessionTimeout, deadline, old(history), before, history);
        if alive { AddedMore(topology.members, old(history), before, history, old(gaps), listed, gaps); }
      }
    }

    /** The latest round that the receipts know of is taken up again. */
    method DispatchFirst(w: World) returns (alive: bool)
      requires InLeg() && topology.mode != Pipeline && completed == receipts.Keys && dispatched == []
      modifies this`receipts, this`history, this`completed, this`gaps, this`step, this`now, this`dispatched, this`lost, this`round
      ensures InLeg() && Adds(w, sessionTimeout, deadline, old(history), history)
      ensures 1 <= round == LatestRound(old(receipts).Keys) <= MAX_DISSENT_ROUNDS && (round > 1 ==> topology.mode == Mob)
      ensures alive ==> FirstDispatched(topology, old(receipts).Keys) == dispatched
      ensures alive ==> AddedGaps(topology.members, history, |old(history)|, old(gaps), gaps)
      ensures Opens(old(history), history, w, old(step), old(now), sessionTimeout, FirstDispatched(topology, old(receipts).Keys), deadline)
      ensures Smooth(w) ==> alive && completed == receipts.Keys == old(receipts).Keys + OrdinalsOf(round, Positions(|topology.members|), |topology.members|)
    {
      LatestIsAdmitted(topology, receipts.Keys);
      round := LatestOf(receipts.Keys);
      alive := DispatchSupports(w, Positions(|topology.members|));
      if alive { AddedAll(topology.members, history, |old(history)|, old(gaps), gaps); }
    }

    method IntegrateAndTriage(w: World) returns (alive: bool)
      requires InLeg() && 1 <= round <= MAX_DISSENT_ROUNDS && (round > 1 ==> topology.mode == Mob)
      modifies this`receipts, this`history, this`completed, this`gaps, this`round, this`integrations, this`now, this`step, this`dispatched, this`lost
      ensures InLeg() && Adds(w, sessionTimeout, deadline, old(history), history) && old(dispatched) <= dispatched
      ensures round <= MAX_DISSENT_ROUNDS && integrations <= old(integrations) + 1 + MAX_DISSENT_ROUNDS - old(round)
      ensures Steady(w) && old(completed == receipts.Keys) ==>
                alive && receipts.Keys == old(receipts).Keys + Dissented(topology, old(round), w.objectors(0))
      ensures alive ==> AddedGaps(topology.members, history, |old(history)|, old(gaps), gaps)
    {
      while true
        invariant InLeg() && Adds(w, sessionTimeout, deadline, old(history), history) && old(dispatched) <= dispatched
        invariant old(round) <= round <= MAX_DISSENT_ROUNDS && (round > 1 ==> topology.mode == Mob)
        invariant integrations == old(integrations) + round - old(round)
        invariant AddedGaps(topology.members, history, |old(history)|, old(gaps), gaps)
        invariant round == old(round) ==> completed == old(completed) && receipts == old(receipts)
        invariant Steady(w) && old(completed == receipts.Keys) && round > old(round) ==>
                    receipts.Keys == old(receipts).Keys + Dissented(topology, old(round), w.objectors(0))
        decreases MAX_DISSENT_ROUNDS - round
      {
        ghost var before, listed := history, gaps;
        alive := Integrate(w);
        AddsMore(w, sessionTimeout, deadline, old(history), before, history);
        AddedMore(topology.members, old(history), before, history, old(gaps), listed, gaps);
        if !alive || topology.mode != Mob { return; }
        before, listed := history, gaps;
        var again;
        again, alive := TriageDissent(w);
        AddsMore(w, sessionTimeout, deadline, old(history), before, history);
        if alive { AddedMore(topology.members, old(history), before, history, old(gaps), listed, gaps); }
        if !again || !alive { return; }
      }
    }

    /** Another round for the supports that still object, while a round is left. */
    method TriageDissent(w: World) returns (again: bool, alive: bool)
      requires InLeg() && 1 <= round <= MAX_DISSENT_ROUNDS && topology.mode == Mob
      modifies this`receipts, this`history, this`completed, this`gaps, this`step, this`now, this`dispatched, this`lost, this`round
      ensures InLeg() && Adds(w, sessionTimeout, deadline, old(history), history) && old(dispatched) <= dispatched
      ensures again == (Among(|topology.members|, w.objectors(old(step))) != [] && old(round) < MAX_DISSENT_ROUNDS)
      ensures round == old(round) + if again then 1 else 0
      ensures !again ==> alive && receipts == old(receipts) && completed == old(completed) && dispatched == old(dispatched)
      ensures alive ==> AddedGaps(topology.members, history, |old(history)|, old(gaps), gaps)
      ensures again && alive ==>
                var maintained := Among(|topology.members|, w.objectors(old(step)));
                dispatched == old(dispatched) + Missing(round, maintained, |maintained|, old(completed))
      ensures Steady(w) && old(completed == receipts.Keys) ==>
                alive && receipts.Keys == old(receipts).Keys + Dissented(topology, old(round), w.objectors(0))
    {
      var maintained := Among(|topology.members|, w.objectors(step));
      again, alive := false, true;
      AddedAll(topology.members, history, |history|, gaps, gaps);
      if maintained == [] || round >= MAX_DISSENT_ROUNDS { return; }
      again, round := true, round + 1;
      AmongAre(|topology.members|, w.objectors(step));
      alive := DispatchSupports(w, maintained);
      if alive { AddedAll(topology.members, history, |old(history)|, old(gaps), gaps); }
    }

    /** How far the first `i` links have been dealt with since the mark. */
    ghost predicate LinksSince(m: Mark, w: World, i: nat) reads this {
      && GapsListed() && completed == receipts.Keys + lost && (forall o :: 1 <= o <= i ==> o in completed)
      && Adds(w, sessionTimeout, deadline, m.history, history)
      && gaps == m.gaps + GapNames(topology.members, history, |m.history|)
    }

    /** Ordered links; link 1 is the lead session that has already run. */
    method RunPipeline(w: World) returns (alive: bool)
      requires InLeg() && completed == receipts.Keys && GapsListed() && lost == {}
      modifies this`receipts, this`history, this`completed, this`gaps, this`step, this`now, this`lost
      ensures InLeg() && Adds(w, sessionTimeout, deadline, old(history), history)
      ensures alive ==> GapsListed() && forall o :: 1 <= o <= |topology.members| ==> o in receipts.Keys + lost
      ensures alive ==> gaps == old(gaps) + GapNames(topology.members, history, |old(history)|)
      ensures old(receipts).Keys <= receipts.Keys
    {
      alive := true;
      ghost var m := Here();
      for i := 0 to |topology.members|
        invariant InLeg() && alive && LinksSince(m, w, i) && old(receipts).Keys <= receipts.Keys
      {
        if i + 1 in completed { continue; }
        alive := NextLink(w, i, m);
        if !alive { return; }
      }
    }

    method NextLink(w: World, i: nat, ghost m: Mark) returns (alive: bool)
      requires InLeg() && i < |topology.members| && i + 1 !in completed && LinksSince(m, w, i)
      modifies this`receipts, this`history, this`completed, this`gaps, this`step, this`now, this`lost
      ensures InLeg() && Adds(w, sessionTimeout, deadline, m.history, history)
      ensures alive ==> LinksSince(m, w, i + 1)
      ensures old(receipts).Keys <= receipts.Keys
    {
      ghost var before := history;
      alive := RunLink(w, i);
      AddsMore(w, sessionTimeout, deadline, m.history, before, history);
      if alive { EndNames(topology.members, m.history, before, history, if i == 0 then Lead else Link, i + 1); }
    }

    method RunLink(w: World, i: nat) returns (alive: bool)
      requires InLeg() && i < |topology.members| && i + 1 !in completed && GapsListed() && completed == receipts.Keys + lost
      modifies this`receipts, this`history, this`completed, this`gaps, this`step, this`now, this`lost
      ensures InLeg() && Adds(w, sessionTimeout, deadline, old(history), history)
      ensures alive ==> GapsListed() && completed == old(completed) + {i + 1} == receipts.Keys + lost
      ensures alive ==> EndsWith(old(history), history, if i == 0 then Lead else Link, i + 1)
      ensures alive ==> gaps == old(gaps) + GapName(topology.members, history[|history| - 1])
      ensures old(receipts).Keys <= receipts.Keys
    {
      var ok := true;
      if i == 0 {
        completed := completed + {1};
        alive := PutReceipt(w, Lead, 1, Done, 0);
        assert history[..|history| - 1] == old(history);
      } else {
        ok, alive := Serve(w, Link, i + 1);
      }
      if alive {
        PositionOf(1, i + 1);
        NamedByPosition(topology.members, history[|history| - 1], i + 1);
        if !ok { gaps := gaps + [topology.members[i]]; }
      }
    }

    /** A leg knows what the receipts say, and nothing else of the legs before it. */
    method Begin(startedAt: int, deadline: Option<int>)
      requires Valid()
      modifies this`gaps, this`round, this`integrations, this`dispatched, this`lost, this`deadline, this`now, this`step, this`start, this`completed
      ensures InLeg() && completed == receipts.Keys && gaps == [] && round == 1 && integrations == 0 && dispatched == [] && lost == {}
      ensures this.deadline == deadline && now == startedAt && step == 0 && start == |history|
    {
      gaps, round, integrations, dispatched, lost := [], 1, 0, [], {};
      this.deadline, now, step, start := deadline, startedAt, 0, |history|;
      completed := receipts.Keys;
    }

    /** One leg, from reading the receipts to the end or to where it was cut. */
    method RunLeg(w: World, startedAt: int, deadline: Option<int>) returns (ended: bool)
      requires Valid()
      modifies this
      ensures Valid() && Adds(w, sessionTimeout, deadline, old(history), history)
      ensures InTurn(history, |old(history)|, now)
      ensures !w.readable ==> !ended && history == old(history) && receipts == old(receipts) && gaps == ["ensemble"]
      ensures topology.mode != Pipeline ==> integrations <= 1 + MAX_DISSENT_ROUNDS - LatestRound(old(receipts).Keys)
      ensures topology.mode != Pipeline && ended ==> FirstDispatched(topology, old(receipts).Keys) <= dispatched
      ensures topology.mode != Pipeline && ended ==> AddedGaps(topology.members, history, |old(history)|, [], gaps)
      ensures w.readable && topology.mode != Pipeline ==>
                Opens(old(history), history, w, 0, startedAt, sessionTimeout, FirstDispatched(topology, old(receipts).Keys), deadline)
      ensures w.readable && topology.mode != Pipeline && Steady(w) ==>
                ended && receipts.Keys == LeftBehind(topology, old(receipts).Keys, w.objectors(0))
      ensures topology.mode == Pipeline && ended ==>
                GapsListed() && forall o :: 1 <= o <= |topology.members| ==> o in receipts.Keys + lost
      ensures topology.mode == Pipeline && ended ==>
                forall name :: name in gaps <==>
                  name in GappedLinks(old(receipts), topology.members, |topology.members|) || name in GapNames(topology.members, history, |old(history)|)
      ensures forall o :: o in receipts && topology.mode != Pipeline ==> 1 <= RoundOfOrdinal(o) <= MAX_DISSENT_ROUNDS
    {
      LatestIsAdmitted(topology, receipts.Keys);
      Begin(startedAt, deadline);
      if !w.readable {
        gaps := ["ensemble"];
        return false;
      }
      if topology.mode == Pipeline {
        RestoreGaps();
        ended := RunPipeline(w);
      } else {
        ended := RunHubAndSpoke(w);
      }
    }

    /** Gaps that earlier legs recorded, and no others, reach this leg's evidence. */
    method RestoreGaps()
      requires InLeg() && gaps == []
      modifies this`gaps
      ensures GapsListed()
      ensures forall name :: name in gaps <==> name in GappedLinks(receipts, topology.members, |topology.members|)
    {
      for i := 0 to |topology.members|
        invariant forall name :: name in gaps <==> name in GappedLinks(receipts, topology.members, i)
      {
        if i + 1 in receipts && receipts[i + 1] == Gapped && topology.members[i] !in gaps {
          gaps := gaps + [topology.members[i]];
        }
      }
      forall o | o in receipts && receipts[o] == Gapped && 1 <= o <= |topology.members| ensures topology.members[o - 1] in gaps {
        GappedLinksHas(receipts, topology.members, |topology.members|, o);
      }
    }
  }

  // -------------------------------------------------------------- helpers

  function Positions(n: nat): (positions: seq<int>)
    ensures |positions| == n && forall i :: 0 <= i < n ==> positions[i] == i + 1
  {
    if n == 0 then [] else Positions(n - 1) + [n]
  }

  /** Positions of the members in a set, in order. */
  function Among(n: nat, s: set<int>): seq<int> {
    if n == 0 then [] else Among(n - 1, s) + if n in s then [n] else []
  }

  lemma {:induction false} AmongAre(n: nat, s: set<int>)
    ensures forall i :: 0 <= i < |Among(n, s)| ==> 1 <= Among(n, s)[i] <= n && Among(n, s)[i] in s
    ensures forall p :: 1 <= p <= n && p in s ==> p in Among(n, s)
  {
    if n > 0 { AmongAre(n - 1, s); }
  }

  /** Ordinals of the first `n` targets. */
  function OrdinalsOf(round: int, targets: seq<int>, n: nat): set<int>
    requires n <= |targets|
  {
    if n == 0 then {} else OrdinalsOf(round, targets, n - 1) + {ContributionOrdinal(round, targets[n - 1])}
  }

  function Absent(ordinal: int, completed: set<int>): seq<int> { if ordinal in completed then [] else [ordinal] }

  /** The first `n` targets that have no receipt for the round yet, each once. */
  function Missing(round: int, targets: seq<int>, n: nat, completed: set<int>): seq<int>
    requires n <= |targets|
  {
    if n == 0 then []
    else
      Missing(round, targets, n - 1, completed)
      + Absent(ContributionOrdinal(round, targets[n - 1]), completed + OrdinalsOf(round, targets, n - 1))
  }

  lemma {:induction false} MissingGrows(round: int, targets: seq<int>, k: nat, n: nat, completed: set<int>)
    requires k <= n <= |targets|
    ensures Missing(round, targets, k, completed) <= Missing(round, targets, n, completed)
  {
    if k < n { MissingGrows(round, targets, k, n - 1, completed); }
  }

  lemma NoMember(s: set<int>)
    requires forall o: int :: o !in s
    ensures s == {}
  {
    var none: set<int> := {};
    assert forall o :: o in s <==> o in none;
  }

  lemma HasMember(s: set<int>)
    requires s != {}
    ensures exists o :: o in s
  {
    if forall o: int :: o !in s { NoMember(s); }
  }

  /** The latest round of any of the receipts, and at least the first. */
  ghost predicate IsLatest(ordinals: set<int>, round: int) {
    && 1 <= round && (forall o :: o in ordinals ==> RoundOfOrdinal(o) <= round)
    && (round > 1 ==> exists o :: o in ordinals && RoundOfOrdinal(o) == round)
  }

  /** `Math.max(1, ...rounds of the receipts)`. */
  ghost function LatestRound(ordinals: set<int>): (round: int)
    ensures IsLatest(ordinals, round)
  {
    if ordinals == {} then 1
    else
      HasMember(ordinals);
      var o :| o in ordinals;
      var others := LatestRound(ordinals - {o});
      if RoundOfOrdinal(o) > others then RoundOfOrdinal(o) else others
  }

  lemma LatestIsUnique(ordinals: set<int>, round: int, round2: int)
    requires IsLatest(ordinals, round) && IsLatest(ordinals, round2)
    ensures round == round2
  {}

  method LatestOf(ordinals: set<int>) returns (round: int)
    ensures round == LatestRound(ordinals)
  {
    round := 1;
    var rest := ordinals;
    while rest != {}
      invariant rest <= ordinals && IsLatest(ordinals - rest, round)
      decreases |rest|
    {
      HasMember(rest);
      var o :| o in rest;
      ghost var seen := ordinals - rest;
      rest := rest - {o};
      assert ordinals - rest == seen + {o};
      if RoundOfOrdinal(o) > round { round := RoundOfOrdinal(o); }
    }
    assert ordinals - rest == ordinals;
    LatestIsUnique(ordinals, round, LatestRound(ordinals));
  }

  /** On an admitted topology the latest round is within the bound, and only a mob gets beyond the first. */
  lemma LatestIsAdmitted(t: Topology, ordinals: set<int>)
    requires |t.members| < DISSENT_ORDINAL_BASE && forall o :: o in ordinals ==> Admitted(t, o)
    ensures 1 <= LatestRound(ordinals) <= MAX_DISSENT_ROUNDS
    ensures LatestRound(ordinals) > 1 ==> t.mode == Mob
    ensures forall o :: o in ordinals ==> 1 <= RoundOfOrdinal(o) <= LatestRound(ordinals)
  {}

  /** Whom a leg dispatches before anything else. */
  ghost function FirstDispatched(t: Topology, ordinals: set<int>): seq<int> {
    Missing(LatestRound(ordinals), Positions(|t.members|), |t.members|, ordinals)
  }

  /** Ordinals of the second round, when this one is the first of a mob. */
  function Dissented(t: Topology, round: int, objectors: set<int>): set<int> {
    if t.mode == Mob && round < MAX_DISSENT_ROUNDS then
      OrdinalsOf(round + 1, Among(|t.members|, objectors), |Among(|t.members|, objectors)|)
    else {}
  }

  /** The receipts after a leg in which nothing goes wrong. */
  ghost function LeftBehind(t: Topology, ordinals: set<int>, objectors: set<int>): set<int> {
    var round := LatestRound(ordinals);
    ordinals + OrdinalsOf(round, Positions(|t.members|), |t.members|) + Dissented(t, round, objectors)
  }

  /** Nothing cuts the leg and no write is lost. */
  ghost predicate Smooth(w: World) { (forall step :: w.alive(step)) && forall step :: w.keeps(step) }

  /** No session succeeds, or every one does. */
  ghost predicate Hopeless(w: World) { forall step :: !w.succeeds(step) }

  ghost predicate Hopeful(w: World) { forall step :: w.succeeds(step) }

  /** And the same supports object all along. */
  ghost predicate Steady(w: World) { Smooth(w) && forall step :: w.objectors(step) == w.objectors(0) }

  lemma {:induction false} OrdinalsOfPositions(round: int, n: nat, k: nat, o: int)
    requires k <= n
    ensures o in OrdinalsOf(round, Positions(n), k) <==> ContributionOrdinal(round, 0) < o <= ContributionOrdinal(round, k)
  {
    if k > 0 { OrdinalsOfPositions(round, n, k - 1, o); }
  }

  lemma {:induction false} MissingPositions(round: int, n: nat, k: nat, completed: set<int>, o: int)
    requires k <= n
    ensures o in Missing(round, Positions(n), k, completed) <==>
              ContributionOrdinal(round, 0) < o <= ContributionOrdinal(round, k) && o !in completed
  {
    if k > 0 {
      MissingPositions(round, n, k - 1, completed, o);
      OrdinalsOfPositions(round, n, k - 1, ContributionOrdinal(round, k));
    }
  }

  /** A leg that starts in some round dispatches every support that lacks the receipt
      of that round, and nobody who has it. */
  lemma MissingIff(t: Topology, ordinals: set<int>, o: int)
    ensures var round := LatestRound(ordinals);
            o in FirstDispatched(t, ordinals) <==>
              ContributionOrdinal(round, 0) < o <= ContributionOrdinal(round, |t.members|) && o !in ordinals
  {
    MissingPositions(LatestRound(ordinals), |t.members|, |t.members|, ordinals, o);
  }

  /** A session of one of the legs. */
  ghost predicate OfLegs(legs: seq<(World, int, Option<int>)>, timeout: nat, a: Act) {
    exists k :: 0 <= k < |legs| && BornIn(legs[k].0, timeout, legs[k].2, a)
  }

  /** Any number of legs, each cut anywhere: whoever has a receipt keeps it, and is
      never dispatched again (`NeverAgain`), and every session is one of its leg's
      world and deadline (`OverrunIsPreparation`). */
  method RunLegs(stage: Stage, legs: seq<(World, int, Option<int>)>)
    requires stage.Valid()
    modifies stage
    ensures stage.Valid() && Orderly(stage.history) && old(stage.history) <= stage.history
    ensures stage.receipts == KeptIn(stage.history)
    ensures forall o :: o in stage.receipts ==> Admitted(stage.topology, o)
    ensures forall i :: |old(stage.history)| <= i < |stage.history| ==> OfLegs(legs, stage.sessionTimeout, stage.history[i])
  {
    for i := 0 to |legs|
      invariant stage.Valid() && old(stage.history) <= stage.history
      invariant forall j :: |old(stage.history)| <= j < |stage.history| ==> OfLegs(legs, stage.sessionTimeout, stage.history[j])
    {
      ghost var before := stage.history;
      var _ := stage.RunLeg(legs[i].0, legs[i].1, legs[i].2);
      LegAdds(legs, i, stage.sessionTimeout, before, stage.history, |old(stage.history)|);
    }
  }

  lemma LegAdds(legs: seq<(World, int, Option<int>)>, k: nat, timeout: nat, before: seq<Act>, after: seq<Act>, n: nat)
    requires k < |legs| && n <= |before| && Adds(legs[k].0, timeout, legs[k].2, before, after)
    requires forall j :: n <= j < |before| ==> OfLegs(legs, timeout, before[j])
    ensures forall j :: n <= j < |after| ==> OfLegs(legs, timeout, after[j])
  {
    forall j | n <= j < |after| ensures OfLegs(legs, timeout, after[j]) {
      if j < |before| {
        assert after[j] == before[j];
      } else {
        BornAt(legs[k].0, timeout, legs[k].2, after, |before|, j);
      }
    }
  }

  /** A leg of a fresh stage with room for just one session, which ends as long after
      the deadline as it took to prepare. */
  method LegThatOverruns(topology: Topology, timeout: nat, startedAt: int, p: nat) returns (stage: Stage)
    requires topology.mode != Pipeline && 1 <= |topology.members| <= MAX_SUPPORT_PERSONAS
    ensures stage.Valid() && stage.history != [] && stage.history[0].Session?
    ensures stage.history[0].deadline == Some(startedAt + timeout)
    ensures stage.history[0].ended == startedAt + timeout + p
  {
    stage := new Stage(topology, timeout);
    MissingIff(topology, {}, 1);
    assert LatestRound({}) == 1 && stage.receipts.Keys == {};
    var _ := stage.RunLeg(Slow(timeout, p), startedAt, Some(startedAt + timeout));
  }

  lemma {:induction false} OrdinalsOfAmong(round: int, targets: seq<int>, n: nat, p: int)
    requires n <= |targets|
    ensures ContributionOrdinal(round, p) in OrdinalsOf(round, targets, n) <==> p in targets[..n]
  {
    if n > 0 {
      OrdinalsOfAmong(round, targets, n - 1, p);
      assert targets[..n] == targets[..n - 1] + [targets[n - 1]];
    }
  }

  /** A leg of a mob in which some support objects ends in round two, where only the
      objectors are asked again. Were it taken up once more, it would dispatch exactly
      those that did not object. */
  lemma ResumeDispatchesTheSilent(t: Topology, objectors: set<int>, p: int)
    requires t.mode == Mob && 1 <= p <= |t.members| <= MAX_SUPPORT_PERSONAS
    requires exists o :: o in objectors && 1 <= o <= |t.members|
    ensures var left := LeftBehind(t, {}, objectors);
            LatestRound(left) == 2 && (ContributionOrdinal(2, p) in FirstDispatched(t, left) <==> p !in objectors)
  {
    var n, again, left := |t.members|, Among(|t.members|, objectors), LeftBehind(t, {}, objectors);
    assert LatestRound({}) == 1;
    AmongAre(n, objectors);
    var o :| o in objectors && 1 <= o <= n;
    OrdinalsOfAmong(2, again, |again|, o);
    OrdinalsOfAmong(2, again, |again|, p);
    assert again[..|again|] == again;
    forall q | q in left ensures 1 <= RoundOfOrdinal(q) <= 2 { LeftIsAdmitted(t, objectors, q); }
    assert ContributionOrdinal(2, o) in left;
    LatestIsUnique(left, 2, LatestRound(left));
    OrdinalsOfPositions(1, n, n, ContributionOrdinal(2, p));
    MissingIff(t, left, ContributionOrdinal(2, p));
  }

  lemma LeftIsAdmitted(t: Topology, objectors: set<int>, q: int)
    requires t.mode == Mob && |t.members| <= MAX_SUPPORT_PERSONAS && q in LeftBehind(t, {}, objectors)
    ensures Admitted(t, q)
  {
    var again := Among(|t.members|, objectors);
    assert LatestRound({}) == 1;
    OrdinalsOfPositions(1, |t.members|, |t.members|, q);
    AmongAre(|t.members|, objectors);
    if !(1 <= q <= |t.members|) { OrdinalsAreOf(2, again, |again|, q); }
  }

  lemma {:induction false} OrdinalsAreOf(round: int, targets: seq<int>, n: nat, o: int)
    requires n <= |targets| && o in OrdinalsOf(round, targets, n)
    ensures exists i :: 0 <= i < n && o == ContributionOrdinal(round, targets[i])
  {
    if o != ContributionOrdinal(round, targets[n - 1]) { OrdinalsAreOf(round, targets, n - 1, o); }
  }

  /** Such a stage, taken up once more by a leg that is not cut in its first dispatch. */
  method ResumedMob(topology: Topology, w: World, next: World, timeout: nat) returns (stage: Stage, ended: bool)
    requires topology.mode == Mob && |topology.members| <= MAX_SUPPORT_PERSONAS
    requires Steady(w) && w.readable && next.readable
    requires exists o :: o in w.objectors(0) && 1 <= o <= |topology.members|
    ensures ended ==> forall p :: 1 <= p <= |topology.members| && p !in w.objectors(0) ==> ContributionOrdinal(2, p) in stage.dispatched
  {
    stage := new Stage(topology, timeout);
    assert stage.receipts.Keys == {};
    var _ := stage.RunLeg(w, 0, None);
    ghost var left := stage.receipts.Keys;
    ended := stage.RunLeg(next, 0, None);
    forall p | ended && 1 <= p <= |topology.members| && p !in w.objectors(0) ensures ContributionOrdinal(2, p) in stage.dispatched {
      ResumeDispatchesTheSilent(topology, w.objectors(0), p);
      assert ContributionOrdinal(2, p) in FirstDispatched(topology, left);
    }
  }
}
