/** The creation guard of `getOrCreateDiscussion`.  Unlike the append guard it
    has no owner token: the winner deletes the row by key alone, and the window
    (30 s) equals the configured executor lifetime (30 s).  That this is enough
    rests on the arithmetic of whole seconds: both the expiry and the clock are
    floored, and the takeover condition is strict. */
module CreationGuard {

  const CREATION_SECONDS: nat := 30
  const POLL_ATTEMPTS: nat := 3
  const PUT_ATTEMPTS: nat := 2

  datatype Anchor = Anchor(rootId: string, entityType: string, entityId: string)

  datatype Discussion = Discussion(id: nat, anchor: Anchor)

  /** `writer` is the request that wrote the row; the table does not store it and
      no step of the handler reads it. */
  datatype Row = Row(writer: nat, expiresAt: nat)

  datatype Reply = Ok(discussion: Discussion) | Missing | InProgress

  datatype Phase =
    | Lookup
    | Acquire(attempt: nat)
    | PutSent(attempt: nat, expiresAt: nat, nowSeconds: nat)
    | Won
    | Create
    | DeleteFound(discussion: Discussion)
    | DeleteCreated
    | ReadBack
    | Poll(attempt: nat, polls: nat)
    | Inspect(attempt: nat)
    | Replied(reply: Reply)
    | Crashed

  datatype Exec = Exec(anchor: Anchor, start: nat, phase: Phase)

  datatype World = World(now: nat, rows: map<Anchor, Row>, threads: seq<Discussion>, execs: map<nat, Exec>)

  datatype Event =
    | Tick(ms: nat)
    | Arrive(id: nat, anchor: Anchor)
    | Step(id: nat)
    | LostPutReply(id: nat)
    | LostDelete(id: nat)
    | Crash(id: nat)
    | Ttl(anchor: Anchor)

  const INIT := World(0, map[], [], map[])

  function Seconds(ms: nat): nat { ms / 1000 }

  predicate Alive(w: World, e: Exec, life: nat) { w.now <= e.start + life }

  predicate Finished(p: Phase) { p.Replied? || p.Crashed? }

  predicate Deleting(p: Phase) { p.DeleteFound? || p.DeleteCreated? }

  /** The oldest thread of the anchor, if there is one. */
  function Find(threads: seq<Discussion>, anchor: Anchor): (r: seq<Discussion>)
    ensures |r| <= 1
    ensures r == [] <==> forall d | d in threads :: d.anchor != anchor
    ensures r != [] ==> r[0] in threads && r[0].anchor == anchor
  {
    if threads == [] then []
    else if threads[0].anchor == anchor then [threads[0]]
    else Find(threads[1..], anchor)
  }

  predicate PutAllowed(w: World, anchor: Anchor, nowSeconds: nat) {
    anchor !in w.rows || w.rows[anchor].expiresAt < nowSeconds
  }

  predicate Enabled(w: World, ev: Event, life: nat) {
    match ev
    case Tick(_) => true
    case Arrive(id, _) => id !in w.execs
    case Step(id) => id in w.execs && !Finished(w.execs[id].phase) && Alive(w, w.execs[id], life)
    case LostPutReply(id) =>
      && id in w.execs && w.execs[id].phase.PutSent? && Alive(w, w.execs[id], life)
      && PutAllowed(w, w.execs[id].anchor, w.execs[id].phase.nowSeconds)
    case LostDelete(id) => id in w.execs && Deleting(w.execs[id].phase) && Alive(w, w.execs[id], life)
    case Crash(id) => id in w.execs && !Finished(w.execs[id].phase)
    case Ttl(anchor) => anchor in w.rows && w.rows[anchor].expiresAt < Seconds(w.now)
  }

  function Enter(w: World, id: nat, p: Phase): World
    requires id in w.execs
  {
    w.(execs := w.execs[id := w.execs[id].(phase := p)])
  }

  function PutRow(w: World, id: nat): World
    requires id in w.execs && w.execs[id].phase.PutSent?
  {
    var e := w.execs[id];
    w.(rows := w.rows[e.anchor := Row(id, e.phase.expiresAt)])
  }

  function AfterDelete(p: Phase): Phase
    requires Deleting(p)
  {
    if p.DeleteFound? then Replied(Ok(p.discussion)) else ReadBack
  }

  function Advance(w: World, id: nat): World
    requires id in w.execs && !Finished(w.execs[id].phase)
  {
    var e := w.execs[id];
    var found := Find(w.threads, e.anchor);
    match e.phase
    case Lookup => Enter(w, id, if found != [] then Replied(Ok(found[0])) else Acquire(0))
    case Acquire(a) => Enter(w, id, PutSent(a, Seconds(w.now) + CREATION_SECONDS, Seconds(w.now)))
    case PutSent(a, _, n) =>
      if PutAllowed(w, e.anchor, n) then Enter(PutRow(w, id), id, Won) else Enter(w, id, Poll(a, 0))
    case Won => Enter(w, id, if found != [] then DeleteFound(found[0]) else Create)
    case Create => Enter(w.(threads := w.threads + [Discussion(id, e.anchor)]), id, DeleteCreated)
    case DeleteFound(_) => Enter(w.(rows := w.rows - {e.anchor}), id, AfterDelete(e.phase))
    case DeleteCreated => Enter(w.(rows := w.rows - {e.anchor}), id, AfterDelete(e.phase))
    case ReadBack => Enter(w, id, Replied(if found != [] then Ok(found[0]) else Missing))
    case Poll(a, n) =>
      if found != [] then Enter(w, id, Replied(Ok(found[0])))
      else Enter(w, id, if n + 1 < POLL_ATTEMPTS then Poll(a, n + 1) else Inspect(a))
    case Inspect(a) =>
      if e.anchor in w.rows && w.rows[e.anchor].expiresAt >= Seconds(w.now) then Enter(w, id, Replied(InProgress))
      else Enter(w, id, if a + 1 < PUT_ATTEMPTS then Acquire(a + 1) else Replied(InProgress))
    case Replied(_) => w
    case Crashed => w
  }

  function Apply(w: World, ev: Event, life: nat): World
    requires Enabled(w, ev, life)
  {
    match ev
    case Tick(ms) => w.(now := w.now + ms)
    case Arrive(id, anchor) => w.(execs := w.execs[id := Exec(anchor, w.now, Lookup)])
    case Step(id) => Advance(w, id)
    case LostPutReply(id) => Enter(PutRow(w, id), id, Poll(w.execs[id].phase.attempt, 0))
    case LostDelete(id) => Enter(w, id, AfterDelete(w.execs[id].phase))
    case Crash(id) => Enter(w, id, Crashed)
    case Ttl(anchor) => w.(rows := w.rows - {anchor})
  }

  /** Whoever does not hear of its put goes on like one that lost the guard. */
  lemma LostReplyIsALoss(w: World, v: World, id: nat, life: nat)
    requires Enabled(w, LostPutReply(id), life) && id in v.execs && v.execs[id] == w.execs[id]
    requires !PutAllowed(v, v.execs[id].anchor, v.execs[id].phase.nowSeconds)
    ensures Apply(w, LostPutReply(id), life).execs[id] == Advance(v, id).execs[id]
  {}

  predicate ValidRun(w: World, evs: seq<Event>, life: nat)
    decreases |evs|
  {
    evs == [] || (Enabled(w, evs[0], life) && ValidRun(Apply(w, evs[0], life), evs[1..], life))
  }

  function Run(w: World, evs: seq<Event>, life: nat): World
    requires ValidRun(w, evs, life)
    decreases |evs|
  {
    if evs == [] then w else Run(Apply(w, evs[0], life), evs[1..], life)
  }

  // ---------------------------------------------------------------- safety

  ghost predicate UniqueThreads(threads: seq<Discussion>) {
    forall i, j :: 0 <= i < j < |threads| ==> threads[i].anchor != threads[j].anchor
  }

  predicate Holding(p: Phase) { p.Won? || p.Create? || Deleting(p) }

  ghost predicate OwnRow(w: World, id: nat)
    requires id in w.execs
  {
    var e := w.execs[id];
    && e.anchor in w.rows
    && w.rows[e.anchor].writer == id
    && w.rows[e.anchor].expiresAt >= Seconds(e.start) + CREATION_SECONDS
  }

  ghost predicate ExecOk(w: World, id: nat, life: nat)
    requires id in w.execs
  {
    var e := w.execs[id];
    && e.start <= w.now
    && (Holding(e.phase) && Alive(w, e, life) ==> OwnRow(w, id))
    && (e.phase.Create? && Alive(w, e, life) ==> Find(w.threads, e.anchor) == [])
    && (e.phase.DeleteCreated? || e.phase.ReadBack? ==> Find(w.threads, e.anchor) != [])
    && (e.phase.PutSent? ==>
          e.phase.expiresAt >= Seconds(e.start) + CREATION_SECONDS && e.phase.nowSeconds <= Seconds(w.now))
    && (e.phase.DeleteFound? ==> e.phase.discussion in w.threads && e.phase.discussion.anchor == e.anchor)
    && (e.phase.Replied? ==> Served(w, e, e.phase.reply))
  }

  /** A 200 always carries a persisted thread of the requested anchor. */
  ghost predicate Served(w: World, e: Exec, reply: Reply) {
    && reply != Missing
    && (reply.Ok? ==> reply.discussion in w.threads && reply.discussion.anchor == e.anchor)
  }

  ghost predicate Inv(w: World, life: nat) {
    && UniqueThreads(w.threads)
    && (forall id | id in w.execs :: ExecOk(w, id, life))
  }

  /** The whole-seconds argument, tight at equal bounds: a row that is strictly
      expired was written by a request that is past its last allowed step. */
  lemma ExpiredMeansDead(w: World, id: nat, n: nat, life: nat)
    requires life <= 1000 * CREATION_SECONDS
    requires id in w.execs && OwnRow(w, id)
    requires w.rows[w.execs[id].anchor].expiresAt < n <= Seconds(w.now)
    ensures !Alive(w, w.execs[id], life)
  {
  }

  lemma SingleHolder(w: World, a: nat, b: nat, life: nat)
    requires Inv(w, life)
    requires a in w.execs && b in w.execs && w.execs[a].anchor == w.execs[b].anchor
    requires Holding(w.execs[a].phase) && Alive(w, w.execs[a], life)
    requires Holding(w.execs[b].phase) && Alive(w, w.execs[b], life)
    ensures a == b
  {
    assert ExecOk(w, a, life) && ExecOk(w, b, life);
  }

  lemma PutKeeps(w: World, id: nat, p: Phase, life: nat)
    requires life <= 1000 * CREATION_SECONDS
    requires Inv(w, life)
    requires id in w.execs && w.execs[id].phase.PutSent? && Alive(w, w.execs[id], life)
    requires PutAllowed(w, w.execs[id].anchor, w.execs[id].phase.nowSeconds)
    requires p == Won || p.Poll?
    ensures Inv(Enter(PutRow(w, id), id, p), life)
  {
    var e := w.execs[id];
    var w' := Enter(PutRow(w, id), id, p);
    assert ExecOk(w, id, life);
    forall x | x in w'.execs ensures ExecOk(w', x, life) {
      assert ExecOk(w, x, life);
      if x != id && w.execs[x].anchor == e.anchor && Holding(w.execs[x].phase) && Alive(w, w.execs[x], life) {
        ExpiredMeansDead(w, x, e.phase.nowSeconds, life);
      }
    }
  }

  lemma DeleteKeeps(w: World, id: nat, life: nat)
    requires Inv(w, life)
    requires id in w.execs && Deleting(w.execs[id].phase) && Alive(w, w.execs[id], life)
    ensures Inv(Advance(w, id), life)
  {
    var w' := Advance(w, id);
    assert ExecOk(w, id, life);
    forall x | x in w'.execs ensures ExecOk(w', x, life) {
      assert ExecOk(w, x, life);
      if x != id && w.execs[x].anchor == w.execs[id].anchor && Holding(w.execs[x].phase) && Alive(w, w.execs[x], life) {
        SingleHolder(w, id, x, life);
      }
    }
  }

  lemma CreateKeeps(w: World, id: nat, life: nat)
    requires Inv(w, life)
    requires id in w.execs && w.execs[id].phase.Create? && Alive(w, w.execs[id], life)
    ensures Inv(Advance(w, id), life)
  {
    var e := w.execs[id];
    var w' := Advance(w, id);
    assert ExecOk(w, id, life);
    forall i, j | 0 <= i < j < |w'.threads| ensures w'.threads[i].anchor != w'.threads[j].anchor {
      assert w'.threads[i] == w.threads[i];
    }
    var d := Discussion(id, e.anchor);
    assert d in w'.threads;
    forall x | x in w'.execs ensures ExecOk(w', x, life) {
      assert ExecOk(w, x, life);
      if x != id && w.execs[x].phase.Create? && Alive(w, w.execs[x], life) {
        if w.execs[x].anchor == e.anchor { SingleHolder(w, id, x, life); }
      }
    }
  }

  lemma PhaseKeeps(w: World, id: nat, p: Phase, life: nat)
    requires Inv(w, life) && id in w.execs
    requires ExecOk(Enter(w, id, p), id, life)
    ensures Inv(Enter(w, id, p), life)
  {
    var w' := Enter(w, id, p);
    forall x | x in w'.execs ensures ExecOk(w', x, life) {
      assert ExecOk(w, x, life);
    }
  }

  lemma StepKeeps(w: World, id: nat, life: nat)
    requires life <= 1000 * CREATION_SECONDS
    requires Inv(w, life) && Enabled(w, Step(id), life)
    ensures Inv(Advance(w, id), life)
  {
    var e := w.execs[id];
    assert ExecOk(w, id, life);
    match e.phase
    case PutSent(a, _, n) =>
      if PutAllowed(w, e.anchor, n) { PutKeeps(w, id, Won, life); } else { PhaseKeeps(w, id, Poll(a, 0), life); }
    case Create => CreateKeeps(w, id, life);
    case DeleteFound(_) => DeleteKeeps(w, id, life);
    case DeleteCreated => DeleteKeeps(w, id, life);
    case Lookup => PhaseKeeps(w, id, Advance(w, id).execs[id].phase, life);
    case Acquire(_) => PhaseKeeps(w, id, Advance(w, id).execs[id].phase, life);
    case Won => PhaseKeeps(w, id, Advance(w, id).execs[id].phase, life);
    case ReadBack => PhaseKeeps(w, id, Advance(w, id).execs[id].phase, life);
    case Poll(_, _) => PhaseKeeps(w, id, Advance(w, id).execs[id].phase, life);
    case Inspect(_) => PhaseKeeps(w, id, Advance(w, id).execs[id].phase, life);
  }

  lemma EventKeeps(w: World, ev: Event, life: nat)
    requires life <= 1000 * CREATION_SECONDS
    requires Inv(w, life) && Enabled(w, ev, life)
    ensures Inv(Apply(w, ev, life), life)
  {
    var w' := Apply(w, ev, life);
    match ev
    case Step(id) => StepKeeps(w, id, life);
    case LostPutReply(id) => PutKeeps(w, id, w'.execs[id].phase, life);
    case LostDelete(id) => assert ExecOk(w, id, life); PhaseKeeps(w, id, w'.execs[id].phase, life);
    case Crash(id) => assert ExecOk(w, id, life); PhaseKeeps(w, id, Crashed, life);
    case Tick(_) =>
      forall x | x in w'.execs ensures ExecOk(w', x, life) { assert ExecOk(w, x, life); }
    case Arrive(_, _) =>
      forall x | x in w'.execs ensures ExecOk(w', x, life) { if x in w.execs { assert ExecOk(w, x, life); } }
    case Ttl(anchor) =>
      forall x | x in w'.execs ensures ExecOk(w', x, life) {
        assert ExecOk(w, x, life);
        if w.execs[x].anchor == anchor && Holding(w.execs[x].phase) && Alive(w, w.execs[x], life) {
          ExpiredMeansDead(w, x, Seconds(w.now), life);
        }
      }
  }

  lemma {:induction false} RunKeeps(w: World, evs: seq<Event>, life: nat)
    requires life <= 1000 * CREATION_SECONDS
    requires Inv(w, life) && ValidRun(w, evs, life)
    ensures Inv(Run(w, evs, life), life)
    decreases |evs|
  {
    if evs != [] {
      EventKeeps(w, evs[0], life);
      RunKeeps(Apply(w, evs[0], life), evs[1..], life);
    }
  }

  /** The guard delete of a live winner finds its own row under the key. */
  lemma DeleteRemovesOwnRow(evs: seq<Event>, id: nat, life: nat)
    requires life <= 1000 * CREATION_SECONDS
    requires ValidRun(INIT, evs, life)
    ensures var w := Run(INIT, evs, life);
            Enabled(w, Step(id), life) && Deleting(w.execs[id].phase) ==>
              && w.execs[id].anchor in w.rows && w.rows[w.execs[id].anchor].writer == id
              && Apply(w, Step(id), life).rows == w.rows - {w.execs[id].anchor}
  {
    RunKeeps(INIT, evs, life);
    var w := Run(INIT, evs, life);
    if id in w.execs { assert ExecOk(w, id, life); }
  }

  /** Every 200 names the one thread of its anchor, so all callers agree. */
  lemma RepliesAgree(evs: seq<Event>, a: nat, b: nat, life: nat)
    requires life <= 1000 * CREATION_SECONDS
    requires ValidRun(INIT, evs, life)
    requires var w := Run(INIT, evs, life);
             && a in w.execs && b in w.execs && w.execs[a].anchor == w.execs[b].anchor
             && w.execs[a].phase.Replied? && w.execs[a].phase.reply.Ok?
             && w.execs[b].phase.Replied? && w.execs[b].phase.reply.Ok?
    ensures var w := Run(INIT, evs, life);
            && w.execs[a].phase.reply == w.execs[b].phase.reply
            && w.execs[a].phase.reply.discussion in w.threads
            && w.execs[a].phase.reply.discussion.anchor == w.execs[a].anchor
  {
    RunKeeps(INIT, evs, life);
    var w := Run(INIT, evs, life);
    assert ExecOk(w, a, life) && ExecOk(w, b, life);
    var i :| 0 <= i < |w.threads| && w.threads[i] == w.execs[a].phase.reply.discussion;
    var j :| 0 <= j < |w.threads| && w.threads[j] == w.execs[b].phase.reply.discussion;
  }

  // ------------------------------------------------------------- exactness

  lemma {:induction false} Extend(w: World, evs: seq<Event>, ev: Event, life: nat)
    requires ValidRun(w, evs, life) && Enabled(Run(w, evs, life), ev, life)
    ensures ValidRun(w, evs + [ev], life)
    ensures Run(w, evs + [ev], life) == Apply(Run(w, evs, life), ev, life)
    decreases |evs|
  {
    if evs == [] {
      assert (evs + [ev])[1..] == [];
    } else {
      assert (evs + [ev])[1..] == evs[1..] + [ev];
      Extend(Apply(w, evs[0], life), evs[1..], ev, life);
    }
  }

  lemma Do(evs: seq<Event>, ev: Event, life: nat) returns (evs': seq<Event>, w: World)
    requires ValidRun(INIT, evs, life) && Enabled(Run(INIT, evs, life), ev, life)
    ensures ValidRun(INIT, evs', life) && w == Run(INIT, evs', life)
    ensures w == Apply(Run(INIT, evs, life), ev, life)
  {
    Extend(INIT, evs, ev, life);
    evs' := evs + [ev];
    w := Run(INIT, evs', life);
  }

  /** A new request finds no thread, claims the guard and rechecks, undisturbed. */
  lemma Ask(evs: seq<Event>, id: nat, a: Anchor, life: nat) returns (evs': seq<Event>, w': World)
    requires ValidRun(INIT, evs, life)
    requires var w := Run(INIT, evs, life); id !in w.execs && w.threads == []
    ensures ValidRun(INIT, evs', life) && w' == Run(INIT, evs', life)
    ensures var w := Run(INIT, evs, life);
            w' == w.(execs := w.execs[id := Exec(a, w.now, PutSent(0, Seconds(w.now) + CREATION_SECONDS, Seconds(w.now)))])
  {
    evs', w' := Do(evs, Arrive(id, a), life);
    evs', w' := Do(evs', Step(id), life);
    evs', w' := Do(evs', Step(id), life);
  }

  lemma Claim(evs: seq<Event>, id: nat, a: Anchor, life: nat) returns (evs': seq<Event>, w': World)
    requires ValidRun(INIT, evs, life)
    requires var w := Run(INIT, evs, life);
             id !in w.execs && PutAllowed(w, a, Seconds(w.now)) && w.threads == []
    ensures ValidRun(INIT, evs', life) && w' == Run(INIT, evs', life)
    ensures var w := Run(INIT, evs, life);
            w' == World(w.now, w.rows[a := Row(id, Seconds(w.now) + CREATION_SECONDS)],
                        [], w.execs[id := Exec(a, w.now, Create)])
  {
    evs', w' := Ask(evs, id, a, life);
    evs', w' := Do(evs', Step(id), life);
    evs', w' := Do(evs', Step(id), life);
  }

  lemma LongerLifetimeDuplicates(life: nat) returns (evs: seq<Event>)
    requires life > 1000 * CREATION_SECONDS
    ensures ValidRun(INIT, evs, life)
    ensures !UniqueThreads(Run(INIT, evs, life).threads)
  {
    var a := Anchor("s", "task", "t");
    var w: World;
    evs, w := Do([], Tick(999), life);
    evs, w := Claim(evs, 1, a, life);
    evs, w := Do(evs, Tick(30001), life);
    evs, w := Claim(evs, 2, a, life);
    assert w.execs == map[1 := Exec(a, 999, Create), 2 := Exec(a, 31000, Create)];
    evs, w := Do(evs, Step(2), life);
    evs, w := Do(evs, Step(1), life);
    assert w.threads[0].anchor == w.threads[1].anchor;
  }

  ghost predicate NeverDuplicates(life: nat) {
    forall evs | ValidRun(INIT, evs, life) :: UniqueThreads(Run(INIT, evs, life).threads)
  }

  /** At most one thread per anchor in every interleaving, exactly for executor
      lifetimes up to and including the creation window. */
  lemma UniqueIffLifetimeFits(life: nat)
    ensures NeverDuplicates(life) <==> life <= 1000 * CREATION_SECONDS
  {
    if life <= 1000 * CREATION_SECONDS {
      forall evs | ValidRun(INIT, evs, life) ensures UniqueThreads(Run(INIT, evs, life).threads) {
        RunKeeps(INIT, evs, life);
      }
    } else {
      var evs := LongerLifetimeDuplicates(life);
    }
  }

  // ---------------------------------------------------- left undisturbed

  predicate StepsOf(evs: seq<Event>, id: nat) { forall i :: 0 <= i < |evs| ==> evs[i] == Step(id) }

  /** The request gets from `w` to `w'` while nothing else happens. */
  ghost predicate Alone(w: World, id: nat, w': World, life: nat) {
    exists evs :: StepsOf(evs, id) && ValidRun(w, evs, life) && Run(w, evs, life) == w'
  }

  lemma AloneNow(w: World, id: nat, life: nat)
    ensures Alone(w, id, w, life)
  {
    var none: seq<Event> := [];
    assert StepsOf(none, id) && ValidRun(w, none, life) && Run(w, none, life) == w;
  }

  lemma AloneStep(w: World, id: nat, w': World, life: nat)
    requires Enabled(w, Step(id), life) && Alone(Apply(w, Step(id), life), id, w', life)
    ensures Alone(w, id, w', life)
  {
    var rest :| StepsOf(rest, id) && ValidRun(Apply(w, Step(id), life), rest, life) && Run(Apply(w, Step(id), life), rest, life) == w';
    var evs := [Step(id)] + rest;
    assert evs[1..] == rest && StepsOf(evs, id);
    assert ValidRun(w, evs, life) && Run(w, evs, life) == w';
  }

  function InPhase(w: World, id: nat, p: Phase): World
    requires id in w.execs
  {
    var e := w.execs[id];
    w.(execs := w.execs[id := Exec(e.anchor, e.start, p)])
  }

  /** What asking for a thread does when nobody interferes: an existing thread is handed out
      and the table left alone, a free guard leads to a new thread and no row, and a
      guard that is taken to a retry. */
  function Asking(w: World, id: nat): World
    requires id in w.execs
  {
    var e := w.execs[id];
    var stored, made := Find(w.threads, e.anchor), Discussion(id, e.anchor);
    if stored != [] then InPhase(w, id, Replied(Ok(stored[0])))
    else if PutAllowed(w, e.anchor, Seconds(w.now)) then
      InPhase(w.(threads := w.threads + [made], rows := w.rows - {e.anchor}), id, Replied(Ok(made)))
    else InPhase(w, id, Replied(InProgress))
  }

  function Winning(w: World, id: nat): World
    requires id in w.execs
  {
    InPhase(w.(rows := w.rows[w.execs[id].anchor := Row(id, Seconds(w.now) + CREATION_SECONDS)]), id, Won)
  }

  lemma {:induction false} FindAppended(threads: seq<Discussion>, d: Discussion)
    requires Find(threads, d.anchor) == []
    ensures Find(threads + [d], d.anchor) == [d]
  {
    if threads != [] {
      assert (threads + [d])[1..] == threads[1..] + [d];
      FindAppended(threads[1..], d);
    }
  }

  lemma CreatedEnds(w: World, id: nat, life: nat)
    requires id in w.execs && Alive(w, w.execs[id], life) && PutAllowed(w, w.execs[id].anchor, Seconds(w.now))
    requires Find(w.threads, w.execs[id].anchor) == []
    ensures Alone(InPhase(Winning(w, id).(threads := w.threads + [Discussion(id, w.execs[id].anchor)]), id, DeleteCreated), id, Asking(w, id), life)
  {
    var d := Discussion(id, w.execs[id].anchor);
    FindAppended(w.threads, d);
    var w2 := InPhase(Winning(w, id).(threads := w.threads + [d]), id, DeleteCreated);
    var w3 := InPhase(w.(threads := w.threads + [d], rows := w.rows - {d.anchor}), id, ReadBack);
    assert Apply(w2, Step(id), life) == w3;
    assert Apply(w3, Step(id), life) == Asking(w, id);
    AloneNow(Asking(w, id), id, life);
    AloneStep(w3, id, Asking(w, id), life);
    AloneStep(w2, id, Asking(w, id), life);
  }

  lemma CreatorEnds(w: World, id: nat, life: nat)
    requires id in w.execs && Alive(w, w.execs[id], life) && PutAllowed(w, w.execs[id].anchor, Seconds(w.now))
    requires Find(w.threads, w.execs[id].anchor) == []
    ensures Alone(Winning(w, id), id, Asking(w, id), life)
  {
    var d, w0 := Discussion(id, w.execs[id].anchor), Winning(w, id);
    var w1 := InPhase(w0, id, Create);
    var w2 := InPhase(w0.(threads := w.threads + [d]), id, DeleteCreated);
    CreatedEnds(w, id, life);
    assert Apply(w0, Step(id), life) == w1 && Apply(w1, Step(id), life) == w2;
    AloneStep(w1, id, Asking(w, id), life);
    AloneStep(w0, id, Asking(w, id), life);
  }

  /** A winner whom another creator has just preceded hands that thread out, and gives the guard back. */
  lemma PrecededWinnerEnds(w: World, id: nat, life: nat)
    requires id in w.execs && Alive(w, w.execs[id], life) && Find(w.threads, w.execs[id].anchor) != []
    ensures var stored := Find(w.threads, w.execs[id].anchor)[0];
            Alone(Winning(w, id), id, InPhase(w.(rows := w.rows - {w.execs[id].anchor}), id, Replied(Ok(stored))), life)
  {
    var stored, w0 := Find(w.threads, w.execs[id].anchor)[0], Winning(w, id);
    var w1 := InPhase(w0, id, DeleteFound(stored));
    var w2 := InPhase(w.(rows := w.rows - {w.execs[id].anchor}), id, Replied(Ok(stored)));
    assert Apply(w0, Step(id), life) == w1 && Apply(w1, Step(id), life) == w2;
    AloneNow(w2, id, life);
    AloneStep(w1, id, w2, life);
    AloneStep(w0, id, w2, life);
  }

  lemma AcquirerEnds(w: World, id: nat, life: nat, a: nat)
    requires id in w.execs && Alive(w, w.execs[id], life) && PutAllowed(w, w.execs[id].anchor, Seconds(w.now))
    requires Find(w.threads, w.execs[id].anchor) == []
    ensures Alone(InPhase(w, id, Acquire(a)), id, Asking(w, id), life)
  {
    var w0 := InPhase(w, id, Acquire(a));
    var w1 := Apply(w0, Step(id), life);
    assert Apply(w1, Step(id), life) == Winning(w, id);
    CreatorEnds(w, id, life);
    AloneStep(w1, id, Asking(w, id), life);
    AloneStep(w0, id, Asking(w, id), life);
  }

  /** Three looks for the winner's thread, each of which would do; then an abandoned guard is
      taken over, but only once. */
  lemma LoserEnds(w: World, id: nat, life: nat, a: nat)
    requires id in w.execs && Alive(w, w.execs[id], life)
    ensures var e, stored := w.execs[id], Find(w.threads, w.execs[id].anchor);
            var answer := if stored == [] && PutAllowed(w, e.anchor, Seconds(w.now)) && a >= 1 then InPhase(w, id, Replied(InProgress)) else Asking(w, id);
            && Alone(InPhase(w, id, Poll(a, 0)), id, answer, life)
            && Alone(InPhase(w, id, Poll(a, 2)), id, answer, life)
            && (stored == [] ==> Alone(InPhase(w, id, Poll(a, 0)), id, InPhase(w, id, Poll(a, 2)), life))
  {
    var e, stored := w.execs[id], Find(w.threads, w.execs[id].anchor);
    var answer := if stored == [] && PutAllowed(w, e.anchor, Seconds(w.now)) && a >= 1 then InPhase(w, id, Replied(InProgress)) else Asking(w, id);
    var w0, w1, w2 := InPhase(w, id, Poll(a, 0)), InPhase(w, id, Poll(a, 1)), InPhase(w, id, Poll(a, 2));
    if stored == [] {
      assert Apply(w0, Step(id), life) == w1 && Apply(w1, Step(id), life) == w2;
      assert Apply(w2, Step(id), life) == InPhase(w, id, Inspect(a));
      InspectorEnds(w, id, life, a);
      AloneStep(w2, id, answer, life);
      AloneStep(w1, id, answer, life);
      AloneNow(w2, id, life);
      AloneStep(w1, id, w2, life);
      AloneStep(w0, id, w2, life);
    } else {
      assert Apply(w0, Step(id), life) == answer && Apply(w2, Step(id), life) == answer;
      AloneNow(answer, id, life);
      AloneStep(w2, id, answer, life);
    }
    AloneStep(w0, id, answer, life);
  }

  lemma InspectorEnds(w: World, id: nat, life: nat, a: nat)
    requires id in w.execs && Alive(w, w.execs[id], life) && Find(w.threads, w.execs[id].anchor) == []
    ensures Alone(InPhase(w, id, Inspect(a)), id,
                  if PutAllowed(w, w.execs[id].anchor, Seconds(w.now)) && a >= 1 then InPhase(w, id, Replied(InProgress)) else Asking(w, id), life)
  {
    var w0 := InPhase(w, id, Inspect(a));
    var w1 := Apply(w0, Step(id), life);
    if PutAllowed(w, w.execs[id].anchor, Seconds(w.now)) && a == 0 {
      assert w1 == InPhase(w, id, Acquire(1));
      AcquirerEnds(w, id, life, 1);
      AloneStep(w0, id, Asking(w, id), life);
    } else {
      assert w1 == InPhase(w, id, Replied(InProgress));
      AloneNow(w1, id, life);
      AloneStep(w0, id, w1, life);
    }
  }

  /** From any state of guard and graph whatsoever, a request that is left alone does just that. */
  lemma AskingAlone(w: World, id: nat, anchor: Anchor, life: nat)
    requires id !in w.execs
    ensures var arrived := Apply(w, Arrive(id, anchor), life); Alone(arrived, id, Asking(arrived, id), life)
  {
    var w0 := Apply(w, Arrive(id, anchor), life);
    var w1 := Apply(w0, Step(id), life);
    if Find(w.threads, anchor) != [] {
      assert w1 == Asking(w0, id);
      AloneNow(w1, id, life);
    } else if PutAllowed(w0, anchor, Seconds(w0.now)) {
      assert w1 == InPhase(w0, id, Acquire(0));
      AcquirerEnds(w0, id, life, 0);
    } else {
      var w2 := Apply(w1, Step(id), life);
      assert Apply(w2, Step(id), life) == InPhase(w0, id, Poll(0, 0));
      LoserEnds(w0, id, life, 0);
      AloneStep(w2, id, Asking(w0, id), life);
      AloneStep(w1, id, Asking(w0, id), life);
    }
    AloneStep(w0, id, Asking(w0, id), life);
  }
}
