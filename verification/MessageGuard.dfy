/** The append guard of `postMessage`: a conditional row in the lock table, an
    expiry window, an owner token and a bounded executor lifetime together make
    a message append happen at most once per (discussion, message id), although
    the graph store itself would accept a second vertex with the same id.

    The protocol is a state machine.  One event is one remote effect of one
    request (or a clock tick, a TTL deletion or a crash), so a list of events is
    an interleaving.  Every request carries its own step budget: it may take a
    step only up to `life` milliseconds after it started. */
module MessageGuard {

  const PENDING_SECONDS: nat := 120
  const COMPLETE_SECONDS: nat := 3600
  const POLL_ATTEMPTS: nat := 3
  const PUT_ATTEMPTS: nat := 2

  datatype Key = Key(discussionId: string, messageId: string)

  /** Author, content and canonical mentions.  SHA-256 is taken as injective, so
      the payload stands for (authorId, payloadHash). */
  datatype Payload = Payload(author: string, content: string, mentions: seq<string>)

  /** A request's guard key and what it posts. */
  type Arrival = (Key, Payload)

  datatype Message = Message(key: Key, payload: Payload)

  /** A row of the lock table.  The owner token is the id of the request. */
  datatype Row = Row(owner: nat, complete: bool, payload: Payload, expiresAt: nat)

  /** Which of the three places of the handler answers with an existing message. */
  datatype Branch = WinnerRecheck | GuardComplete | Polling

  datatype Reply =
    | Created(message: Message)
    | Existing(message: Message, branch: Branch)
    | DuplicateId
    | InProgress

  datatype Phase =
    | Acquire(attempt: nat)
    | PutSent(attempt: nat, expiresAt: nat, nowSeconds: nat)
    | Won
    | Write
    | Complete(reply: Reply)
    | Restore
    | Inspect(attempt: nat)
    | Echo
    | Poll(polls: nat)
    | Replied(reply: Reply)
    | Crashed

  datatype Exec = Exec(key: Key, payload: Payload, start: nat, phase: Phase)

  /** `now` is in milliseconds; the handler only ever sees whole seconds. */
  datatype World = World(now: nat, rows: map<Key, Row>, vertices: seq<Message>, execs: map<nat, Exec>)

  datatype Event =
    | Tick(ms: nat)
    | Arrive(id: nat, key: Key, payload: Payload)
    | Step(id: nat)
    | LostPutReply(id: nat)
    | LostDelete(id: nat)
    | Crash(id: nat)
    | Ttl(key: Key)

  const INIT := World(0, map[], [], map[])

  function Seconds(ms: nat): nat { ms / 1000 }

  predicate Alive(w: World, e: Exec, life: nat) { w.now <= e.start + life }

  predicate Finished(p: Phase) { p.Replied? || p.Crashed? }

  /** First vertex with the key, as a graph lookup by id returns it. */
  function Find(vertices: seq<Message>, key: Key): (r: seq<Message>)
    ensures |r| <= 1
    ensures r == [] <==> forall m | m in vertices :: m.key != key
    ensures r != [] ==> r[0] in vertices && r[0].key == key
  {
    if vertices == [] then []
    else if vertices[0].key == key then [vertices[0]]
    else Find(vertices[1..], key)
  }

  predicate PutAllowed(w: World, key: Key, nowSeconds: nat) {
    key !in w.rows || (!w.rows[key].complete && w.rows[key].expiresAt < nowSeconds)
  }

  function NextAttempt(attempt: nat): Phase {
    if attempt + 1 < PUT_ATTEMPTS then Acquire(attempt + 1) else Replied(InProgress)
  }

  predicate Enabled(w: World, ev: Event, life: nat) {
    match ev
    case Tick(_) => true
    case Arrive(id, _, _) => id !in w.execs
    case Step(id) => id in w.execs && !Finished(w.execs[id].phase) && Alive(w, w.execs[id], life)
    case LostPutReply(id) =>
      && id in w.execs && w.execs[id].phase.PutSent? && Alive(w, w.execs[id], life)
      && PutAllowed(w, w.execs[id].key, w.execs[id].phase.nowSeconds)
    case LostDelete(id) => id in w.execs && w.execs[id].phase.Restore? && Alive(w, w.execs[id], life)
    case Crash(id) => id in w.execs && !Finished(w.execs[id].phase)
    case Ttl(key) => key in w.rows && w.rows[key].expiresAt < Seconds(w.now)
  }

  function Enter(w: World, id: nat, p: Phase): World
    requires id in w.execs
  {
    w.(execs := w.execs[id := w.execs[id].(phase := p)])
  }

  function PutRow(w: World, id: nat): World
    requires id in w.execs && w.execs[id].phase.PutSent?
  {
    var e := w.execs[id];
    w.(rows := w.rows[e.key := Row(id, false, e.payload, e.phase.expiresAt)])
  }

  /** `completeGuard`: the transition happens only under the request's own token. */
  function CompleteRow(w: World, id: nat): World
    requires id in w.execs
  {
    var key := w.execs[id].key;
    if key in w.rows && w.rows[key].owner == id then
      w.(rows := w.rows[key := w.rows[key].(complete := true, expiresAt := Seconds(w.now) + COMPLETE_SECONDS)])
    else w
  }

  /** Another request's row stays as it is. */
  lemma OthersRowStays(w: World, id: nat, key: Key)
    requires id in w.execs
    ensures key in CompleteRow(w, id).rows <==> key in w.rows
    ensures key in w.rows && (w.rows[key].owner != id || key != w.execs[id].key) ==> CompleteRow(w, id).rows[key] == w.rows[key]
  {}

  function AfterInspect(w: World, e: Exec, attempt: nat): Phase {
    if e.key !in w.rows then NextAttempt(attempt)
    else
      var row := w.rows[e.key];
      if row.payload != e.payload then Replied(DuplicateId)
      else if row.complete then Echo
      else if row.expiresAt >= Seconds(w.now) then Poll(0)
      else NextAttempt(attempt)
  }

  /** One step of the handler, phase by phase. */
  function Advance(w: World, id: nat): World
    requires id in w.execs && !Finished(w.execs[id].phase)
  {
    var e := w.execs[id];
    var found := Find(w.vertices, e.key);
    match e.phase
    case Acquire(a) => Enter(w, id, PutSent(a, Seconds(w.now) + PENDING_SECONDS, Seconds(w.now)))
    case PutSent(a, _, n) =>
      if PutAllowed(w, e.key, n) then Enter(PutRow(w, id), id, Won) else Enter(w, id, Inspect(a))
    case Won =>
      if found == [] then Enter(w, id, Write)
      else if found[0].payload == e.payload then Enter(w, id, Complete(Existing(found[0], WinnerRecheck)))
      else Enter(w, id, Restore)
    case Write =>
      var m := Message(e.key, e.payload);
      Enter(w.(vertices := w.vertices + [m]), id, Complete(Created(m)))
    case Complete(reply) => Enter(CompleteRow(w, id), id, Replied(reply))
    case Restore => Enter(w.(rows := w.rows - {e.key}), id, Replied(DuplicateId))
    case Inspect(a) => Enter(w, id, AfterInspect(w, e, a))
    case Echo => Enter(w, id, Replied(if found == [] then InProgress else Existing(found[0], GuardComplete)))
    case Poll(n) =>
      if found != [] then Enter(w, id, Replied(Existing(found[0], Polling)))
      else if n + 1 < POLL_ATTEMPTS then Enter(w, id, Poll(n + 1))
      else Enter(w, id, Replied(InProgress))
    case Replied(_) => w
    case Crashed => w
  }

  function Apply(w: World, ev: Event, life: nat): World
    requires Enabled(w, ev, life)
  {
    match ev
    case Tick(ms) => w.(now := w.now + ms)
    case Arrive(id, key, payload) => w.(execs := w.execs[id := Exec(key, payload, w.now, Acquire(0))])
    case Step(id) => Advance(w, id)
    case LostPutReply(id) => Enter(PutRow(w, id), id, Inspect(w.execs[id].phase.attempt))
    case LostDelete(id) => Enter(w, id, Replied(DuplicateId))
    case Crash(id) => Enter(w, id, Crashed)
    case Ttl(key) => w.(rows := w.rows - {key})
  }

  /** Every event of the list is enabled when its turn comes, starting in `w`. */
  predicate ValidRun(w: World, evs: seq<Event>, life: nat)
    decreases |evs|
  {
    evs == [] || (Enabled(w, evs[0], life) && ValidRun(Apply(w, evs[0], life), evs[1..], life))
  }

  function Run(w: World, evs: seq<Event>, life: nat): World
    requires ValidRun(w, evs, life)
    decreases |evs|
  {
    if evs == [] then w else Run(Apply(w, evs[0], life), evs[1..], life)
  }

  // ---------------------------------------------------------------- safety

  ghost predicate UniqueVertices(vertices: seq<Message>) {
    forall i, j :: 0 <= i < j < |vertices| ==> vertices[i].key != vertices[j].key
  }

  /** The phases in which a request relies on the guard row being its own. */
  predicate Holding(p: Phase) { p.Won? || p.Write? || p.Complete? || p.Restore? }

  ghost predicate OwnRow(w: World, id: nat)
    requires id in w.execs
  {
    var e := w.execs[id];
    && e.key in w.rows
    && w.rows[e.key].owner == id
    && !w.rows[e.key].complete
    && w.rows[e.key].payload == e.payload
    && w.rows[e.key].expiresAt >= Seconds(e.start) + PENDING_SECONDS
  }

  /** What is known of one request in a given phase. */
  ghost predicate ExecOk(w: World, id: nat, life: nat)
    requires id in w.execs
  {
    var e := w.execs[id];
    var own := Message(e.key, e.payload);
    && e.start <= w.now
    && (Holding(e.phase) && Alive(w, e, life) ==> OwnRow(w, id))
    && (e.phase.Write? && Alive(w, e, life) ==> Find(w.vertices, e.key) == [])
    && (e.phase.Complete? ==>
          && own in w.vertices
          && (e.phase.reply == Created(own) || e.phase.reply == Existing(own, WinnerRecheck)))
    && (e.phase.Echo? ==> own in w.vertices)
    && (e.phase.PutSent? ==>
          e.phase.expiresAt >= Seconds(e.start) + PENDING_SECONDS && e.phase.nowSeconds <= Seconds(w.now))
    && (e.phase.Replied? ==> ServedOwn(w, e, e.phase.reply))
  }

  /** A 201, and a 200 that does not come from the polling loop, carries the
      caller's own message, and that message is in the graph. */
  ghost predicate ServedOwn(w: World, e: Exec, reply: Reply) {
    (reply.Created? || (reply.Existing? && reply.branch != Polling)) ==>
      reply.message == Message(e.key, e.payload) && reply.message in w.vertices
  }

  ghost predicate CompleteRowsBacked(w: World) {
    forall k | k in w.rows && w.rows[k].complete :: Message(k, w.rows[k].payload) in w.vertices
  }

  ghost predicate Inv(w: World, life: nat) {
    && UniqueVertices(w.vertices)
    && CompleteRowsBacked(w)
    && (forall id | id in w.execs :: ExecOk(w, id, life))
  }

  /** An expired pending row proves that the request that wrote it is dead. */
  lemma ExpiredMeansDead(w: World, id: nat, n: nat, life: nat)
    requires life <= 1000 * PENDING_SECONDS
    requires id in w.execs && OwnRow(w, id)
    requires w.rows[w.execs[id].key].expiresAt < n <= Seconds(w.now)
    ensures !Alive(w, w.execs[id], life)
  {
  }

  /** Two live requests of the same key never both rely on the guard. */
  lemma SingleHolder(w: World, a: nat, b: nat, life: nat)
    requires Inv(w, life)
    requires a in w.execs && b in w.execs && w.execs[a].key == w.execs[b].key
    requires Holding(w.execs[a].phase) && Alive(w, w.execs[a], life)
    requires Holding(w.execs[b].phase) && Alive(w, w.execs[b], life)
    ensures a == b
  {
    assert ExecOk(w, a, life) && ExecOk(w, b, life);
  }

  lemma UniqueFind(vertices: seq<Message>, m: Message)
    requires UniqueVertices(vertices) && m in vertices
    ensures Find(vertices, m.key) == [m]
  {
    var r := Find(vertices, m.key);
    var i :| 0 <= i < |vertices| && vertices[i] == m;
    var j :| 0 <= j < |vertices| && vertices[j] == r[0];
  }

  /** Writing row `k` for request `id` keeps every other request's knowledge,
      because no other live request relied on that row. */
  lemma PutKeeps(w: World, id: nat, p: Phase, life: nat)
    requires life <= 1000 * PENDING_SECONDS
    requires Inv(w, life)
    requires id in w.execs && w.execs[id].phase.PutSent? && Alive(w, w.execs[id], life)
    requires PutAllowed(w, w.execs[id].key, w.execs[id].phase.nowSeconds)
    requires p == Won || p.Inspect?
    ensures Inv(Enter(PutRow(w, id), id, p), life)
  {
    var e := w.execs[id];
    var w' := Enter(PutRow(w, id), id, p);
    assert ExecOk(w, id, life);
    forall x | x in w'.execs ensures ExecOk(w', x, life) {
      assert ExecOk(w, x, life);
      if x != id && w.execs[x].key == e.key && Holding(w.execs[x].phase) && Alive(w, w.execs[x], life) {
        ExpiredMeansDead(w, x, e.phase.nowSeconds, life);
      }
    }
  }

  /** Removing or completing a row is safe when it is the request's own. */
  lemma OwnRowChangeKeeps(w: World, id: nat, w': World, reply: Reply, life: nat)
    requires Inv(w, life)
    requires id in w.execs && Holding(w.execs[id].phase) && Alive(w, w.execs[id], life)
    requires w'.now == w.now && w'.vertices == w.vertices
    requires w'.execs == w.execs[id := w.execs[id].(phase := Replied(reply))]
    requires forall k | k != w.execs[id].key :: (k in w'.rows <==> k in w.rows) && (k in w.rows ==> w'.rows[k] == w.rows[k])
    requires CompleteRowsBacked(w')
    requires ServedOwn(w', w.execs[id], reply)
    ensures Inv(w', life)
  {
    var e := w.execs[id];
    assert ExecOk(w, id, life);
    forall x | x in w'.execs ensures ExecOk(w', x, life) {
      assert ExecOk(w, x, life);
      if x != id && w.execs[x].key == e.key && Holding(w.execs[x].phase) && Alive(w, w.execs[x], life) {
        SingleHolder(w, id, x, life);
      }
    }
  }

  /** Appending the one vertex of a live writer. */
  lemma WriteKeeps(w: World, id: nat, life: nat)
    requires Inv(w, life)
    requires id in w.execs && w.execs[id].phase.Write? && Alive(w, w.execs[id], life)
    ensures Inv(Advance(w, id), life)
  {
    var e := w.execs[id];
    var w' := Advance(w, id);
    assert ExecOk(w, id, life);
    forall i, j | 0 <= i < j < |w'.vertices| ensures w'.vertices[i].key != w'.vertices[j].key {
      assert w'.vertices[i] == w.vertices[i];
    }
    forall x | x in w'.execs ensures ExecOk(w', x, life) {
      assert ExecOk(w, x, life);
      if x != id && w.execs[x].phase.Write? && Alive(w, w.execs[x], life) {
        if w.execs[x].key == e.key { SingleHolder(w, id, x, life); }
      }
    }
  }

  /** A step that changes only the phase of one request. */
  lemma PhaseKeeps(w: World, id: nat, p: Phase, life: nat)
    requires Inv(w, life) && id in w.execs
    requires ExecOk(Enter(w, id, p), id, life)
    ensures Inv(Enter(w, id, p), life)
  {
    var w' := Enter(w, id, p);
    forall x | x in w'.execs ensures ExecOk(w', x, life) {
      assert ExecOk(w, x, life);
    }
  }

  /** Steps that write nothing. */
  lemma QuietStepKeeps(w: World, id: nat, life: nat)
    requires life <= 1000 * PENDING_SECONDS
    requires Inv(w, life) && Enabled(w, Step(id), life)
    requires var p := w.execs[id].phase; p.Echo? || p.Acquire? || p.Won? || p.Inspect? || p.Poll?
    ensures Inv(Advance(w, id), life)
  {
    var e := w.execs[id];
    assert ExecOk(w, id, life);
    if e.phase.Echo? { UniqueFind(w.vertices, Message(e.key, e.payload)); }
    PhaseKeeps(w, id, Advance(w, id).execs[id].phase, life);
  }

  lemma StepKeeps(w: World, id: nat, life: nat)
    requires life <= 1000 * PENDING_SECONDS
    requires Inv(w, life) && Enabled(w, Step(id), life)
    ensures Inv(Advance(w, id), life)
  {
    var e := w.execs[id];
    assert ExecOk(w, id, life);
    match e.phase
    case PutSent(a, _, n) =>
      if PutAllowed(w, e.key, n) { PutKeeps(w, id, Won, life); } else { PhaseKeeps(w, id, Inspect(a), life); }
    case Write => WriteKeeps(w, id, life);
    case Complete(reply) => OwnRowChangeKeeps(w, id, Advance(w, id), reply, life);
    case Restore => OwnRowChangeKeeps(w, id, Advance(w, id), DuplicateId, life);
    case _ => QuietStepKeeps(w, id, life);
  }

  /** Every event keeps the invariant, as long as the lifetime fits the window. */
  lemma EventKeeps(w: World, ev: Event, life: nat)
    requires life <= 1000 * PENDING_SECONDS
    requires Inv(w, life) && Enabled(w, ev, life)
    ensures Inv(Apply(w, ev, life), life)
  {
    var w' := Apply(w, ev, life);
    match ev
    case Step(id) => StepKeeps(w, id, life);
    case LostPutReply(id) => PutKeeps(w, id, Inspect(w.execs[id].phase.attempt), life);
    case LostDelete(id) => PhaseKeeps(w, id, Replied(DuplicateId), life);
    case Crash(id) => assert ExecOk(w, id, life); PhaseKeeps(w, id, Crashed, life);
    case Tick(_) =>
      forall x | x in w'.execs ensures ExecOk(w', x, life) { assert ExecOk(w, x, life); }
    case Arrive(_, _, _) =>
      forall x | x in w'.execs ensures ExecOk(w', x, life) { if x in w.execs { assert ExecOk(w, x, life); } }
    case Ttl(key) =>
      forall x | x in w'.execs ensures ExecOk(w', x, life) {
        assert ExecOk(w, x, life);
        if w.execs[x].key == key && Holding(w.execs[x].phase) && Alive(w, w.execs[x], life) {
          ExpiredMeansDead(w, x, Seconds(w.now), life);
        }
      }
  }

  lemma {:induction false} RunKeeps(w: World, evs: seq<Event>, life: nat)
    requires life <= 1000 * PENDING_SECONDS
    requires Inv(w, life) && ValidRun(w, evs, life)
    ensures Inv(Run(w, evs, life), life)
    decreases |evs|
  {
    if evs != [] {
      EventKeeps(w, evs[0], life);
      RunKeeps(Apply(w, evs[0], life), evs[1..], life);
    }
  }

  /** In every interleaving, at most one vertex per (discussion, message id). */
  lemma AtMostOneVertex(evs: seq<Event>, life: nat)
    requires life <= 1000 * PENDING_SECONDS
    requires ValidRun(INIT, evs, life)
    ensures UniqueVertices(Run(INIT, evs, life).vertices)
  {
    RunKeeps(INIT, evs, life);
  }

  /** A live winner's `completeGuard` always meets its own token. */
  lemma CompleteMeetsOwnToken(evs: seq<Event>, id: nat, life: nat)
    requires life <= 1000 * PENDING_SECONDS
    requires ValidRun(INIT, evs, life)
    ensures var w := Run(INIT, evs, life);
            id in w.execs && w.execs[id].phase.Complete? && Alive(w, w.execs[id], life) ==>
              w.execs[id].key in w.rows && w.rows[w.execs[id].key].owner == id
  {
    RunKeeps(INIT, evs, life);
    var w := Run(INIT, evs, life);
    if id in w.execs { assert ExecOk(w, id, life); }
  }

  /** The unconditional delete of a live winner removes nobody else's row. */
  lemma RestoreDeletesOwnRow(evs: seq<Event>, id: nat, life: nat)
    requires life <= 1000 * PENDING_SECONDS
    requires ValidRun(INIT, evs, life)
    ensures var w := Run(INIT, evs, life);
            Enabled(w, Step(id), life) && w.execs[id].phase.Restore? ==>
              && w.execs[id].key in w.rows && w.rows[w.execs[id].key].owner == id
              && Apply(w, Step(id), life).rows == w.rows - {w.execs[id].key}
  {
    RunKeeps(INIT, evs, life);
    var w := Run(INIT, evs, life);
    if id in w.execs { assert ExecOk(w, id, life); }
  }

  /** A complete guard row is backed by the vertex it promises, and every reply
      outside the polling loop serves the caller's own, persisted message. */
  lemma CompleteImpliesVertex(evs: seq<Event>, life: nat)
    requires life <= 1000 * PENDING_SECONDS
    requires ValidRun(INIT, evs, life)
    ensures var w := Run(INIT, evs, life);
            && (forall k | k in w.rows && w.rows[k].complete :: Find(w.vertices, k) == [Message(k, w.rows[k].payload)])
            && (forall id | id in w.execs && w.execs[id].phase.Replied? :: ServedOwn(w, w.execs[id], w.execs[id].phase.reply))
  {
    RunKeeps(INIT, evs, life);
    var w := Run(INIT, evs, life);
    forall k | k in w.rows && w.rows[k].complete ensures Find(w.vertices, k) == [Message(k, w.rows[k].payload)] {
      UniqueFind(w.vertices, Message(k, w.rows[k].payload));
    }
    forall id | id in w.execs && w.execs[id].phase.Replied?
      ensures ServedOwn(w, w.execs[id], w.execs[id].phase.reply)
    {
      assert ExecOk(w, id, life);
    }
  }

  // ------------------------------------------------------------- exactness

  /** Runs compose: one more enabled event at the end. */
  lemma {:induction false} Extend(w: World, evs: seq<Event>, ev: Event, life: nat)
    requires ValidRun(w, evs, life) && Enabled(Run(w, evs, life), ev, life)
    ensures ValidRun(w, evs + [ev], life)
    ensures Run(w, evs + [ev], life) == Apply(Run(w, evs, life), ev, life)
    decreases |evs|
  {
    if evs == [] {
      assert (evs + [ev])[1..] == [];
    } else {
      assert (evs + [ev])[1..] == evs[1..] + [ev];
      Extend(Apply(w, evs[0], life), evs[1..], ev, life);
    }
  }

  lemma Do(evs: seq<Event>, ev: Event, life: nat) returns (evs': seq<Event>, w: World)
    requires ValidRun(INIT, evs, life) && Enabled(Run(INIT, evs, life), ev, life)
    ensures evs' == evs + [ev] && ValidRun(INIT, evs', life) && w == Run(INIT, evs', life)
    ensures w == Apply(Run(INIT, evs, life), ev, life)
  {
    Extend(INIT, evs, ev, life);
    evs' := evs + [ev];
    w := Run(INIT, evs', life);
  }

  /** A new request claims the guard undisturbed, up to its recheck. */
  lemma Claim(evs: seq<Event>, id: nat, k: Key, p: Payload, life: nat) returns (evs': seq<Event>, w': World)
    requires ValidRun(INIT, evs, life)
    requires var w := Run(INIT, evs, life); id !in w.execs && PutAllowed(w, k, Seconds(w.now))
    ensures evs' == evs + [Arrive(id, k, p), Step(id), Step(id)]
    ensures ValidRun(INIT, evs', life) && w' == Run(INIT, evs', life)
    ensures var w := Run(INIT, evs, life);
            w' == World(w.now, w.rows[k := Row(id, false, p, Seconds(w.now) + PENDING_SECONDS)],
                        w.vertices, w.execs[id := Exec(k, p, w.now, Won)])
  {
    evs', w' := Do(evs, Arrive(id, k, p), life);
    evs', w' := Do(evs', Step(id), life);
    evs', w' := Do(evs', Step(id), life);
  }

  /** A first winner that is about to write, and a second one that took its row over. */
  lemma TwoWinners(k: Key, p: Payload, life: nat) returns (evs: seq<Event>, w: World)
    requires life > 1000 * PENDING_SECONDS
    ensures ValidRun(INIT, evs, life) && w == Run(INIT, evs, life)
    ensures w.execs == map[1 := Exec(k, p, 999, Write), 2 := Exec(k, p, 121000, Write)] && w.vertices == []
    ensures w.now == 121000
  {
    evs, w := Do([], Tick(999), life);
    evs, w := Claim(evs, 1, k, p, life);
    evs, w := Do(evs, Step(1), life);
    evs, w := Do(evs, Tick(120001), life);
    evs, w := Claim(evs, 2, k, p, life);
    evs, w := Do(evs, Step(2), life);
  }

  /** One millisecond more than the window and two vertices can share an id: the
      first winner starts at 999 ms, so its row says second 120, and a second
      request takes the row over at second 121 while the first may still write. */
  lemma LongerLifetimeDuplicates(life: nat) returns (evs: seq<Event>)
    requires life > 1000 * PENDING_SECONDS
    ensures ValidRun(INIT, evs, life)
    ensures !UniqueVertices(Run(INIT, evs, life).vertices)
  {
    var k := Key("d", "dm-1");
    var p := Payload("alice", "hi", []);
    var w: World;
    evs, w := TwoWinners(k, p, life);
    evs, w := Do(evs, Step(2), life);
    evs, w := Do(evs, Step(1), life);
    assert w.vertices == [Message(k, p), Message(k, p)];
    assert w.vertices[0].key == w.vertices[1].key;
  }

  ghost predicate NeverDuplicates(life: nat) {
    forall evs | ValidRun(INIT, evs, life) :: UniqueVertices(Run(INIT, evs, life).vertices)
  }

  /** The exact bound: appends are unique in every interleaving if and only if
      the executor lifetime does not exceed the pending window.  The load-time
      check (window strictly above the configured timeout) lies inside it. */
  lemma UniqueIffLifetimeFits(life: nat)
    ensures NeverDuplicates(life) <==> life <= 1000 * PENDING_SECONDS
  {
    if life <= 1000 * PENDING_SECONDS {
      forall evs | ValidRun(INIT, evs, life) ensures UniqueVertices(Run(INIT, evs, life).vertices) {
        AtMostOneVertex(evs, life);
      }
    } else {
      var evs := LongerLifetimeDuplicates(life);
    }
  }

  // ---------------------------------------------------- the polling branch

  /** The arrivals of a run are among those permitted. */
  ghost predicate Admitted(evs: seq<Event>, permitted: iset<Arrival>) {
    forall i :: 0 <= i < |evs| && evs[i].Arrive? ==> (evs[i].key, evs[i].payload) in permitted
  }

  ghost predicate OnePayloadPerKey(permitted: iset<Arrival>) {
    forall k, p, q :: (k, p) in permitted && (k, q) in permitted ==> p == q
  }

  ghost predicate ReplyPermitted(e: Exec, reply: Reply, permitted: iset<Arrival>) {
    reply.Existing? ==> reply.message.key == e.key && (e.key, reply.message.payload) in permitted
  }

  /** Everything in the graph, and everything replied, has arrived before. */
  ghost predicate FromPermitted(w: World, permitted: iset<Arrival>) {
    && (forall m | m in w.vertices :: (m.key, m.payload) in permitted)
    && (forall id | id in w.execs :: ExecPermitted(w.execs[id], permitted))
  }

  ghost predicate ExecPermitted(e: Exec, permitted: iset<Arrival>) {
    && (e.key, e.payload) in permitted
    && (e.phase.Complete? || e.phase.Replied? ==> ReplyPermitted(e, e.phase.reply, permitted))
  }

  lemma EventKeepsPermitted(w: World, ev: Event, life: nat, permitted: iset<Arrival>)
    requires FromPermitted(w, permitted) && Enabled(w, ev, life)
    requires ev.Arrive? ==> (ev.key, ev.payload) in permitted
    ensures FromPermitted(Apply(w, ev, life), permitted)
  {
    var w' := Apply(w, ev, life);
    if ev.Step? { assert ExecPermitted(w.execs[ev.id], permitted); }
    forall id | id in w'.execs ensures ExecPermitted(w'.execs[id], permitted) {
      if id in w.execs { assert ExecPermitted(w.execs[id], permitted); }
    }
  }

  lemma {:induction false} RunKeepsPermitted(w: World, evs: seq<Event>, life: nat, permitted: iset<Arrival>)
    requires FromPermitted(w, permitted) && ValidRun(w, evs, life) && Admitted(evs, permitted)
    ensures FromPermitted(Run(w, evs, life), permitted)
    decreases |evs|
  {
    if evs != [] {
      assert forall i :: 0 <= i < |evs| - 1 ==> evs[1..][i] == evs[i + 1];
      EventKeepsPermitted(w, evs[0], life, permitted);
      RunKeepsPermitted(Apply(w, evs[0], life), evs[1..], life, permitted);
    }
  }

  /** Whoever was answered by the polling loop was given its own message. */
  ghost predicate PolledOwn(w: World) {
    forall id | id in w.execs && w.execs[id].phase.Replied? && w.execs[id].phase.reply.Existing?
                && w.execs[id].phase.reply.branch == Polling ::
      w.execs[id].phase.reply.message == Message(w.execs[id].key, w.execs[id].payload)
  }

  ghost predicate PollingServesOwn(permitted: iset<Arrival>, life: nat) {
    forall evs | ValidRun(INIT, evs, life) && Admitted(evs, permitted) :: PolledOwn(Run(INIT, evs, life))
  }

  /** Exactly when the unchecked answer of the polling loop is right in every run:
      when no message id is ever sent with two different payloads.  The lifetime
      of the requests does not matter. */
  lemma PollingServesOwnIff(permitted: iset<Arrival>, life: nat)
    ensures PollingServesOwn(permitted, life) <==> OnePayloadPerKey(permitted)
  {
    if OnePayloadPerKey(permitted) {
      forall evs | ValidRun(INIT, evs, life) && Admitted(evs, permitted) ensures PolledOwn(Run(INIT, evs, life)) {
        RunKeepsPermitted(INIT, evs, life, permitted);
        OnePayloadMeansOwn(Run(INIT, evs, life), permitted);
      }
    } else {
      var k, p, q :| (k, p) in permitted && (k, q) in permitted && p != q;
      var evs, id := PollingServesForeignMessage(k, p, q, life);
      assert Admitted(evs, permitted);
      assert !PolledOwn(Run(INIT, evs, life));
    }
  }

  lemma OnePayloadMeansOwn(w: World, permitted: iset<Arrival>)
    requires FromPermitted(w, permitted) && OnePayloadPerKey(permitted)
    ensures PolledOwn(w)
  {
    forall id | id in w.execs && w.execs[id].phase.Replied? && w.execs[id].phase.reply.Existing?
                && w.execs[id].phase.reply.branch == Polling
      ensures w.execs[id].phase.reply.message == Message(w.execs[id].key, w.execs[id].payload)
    {
      assert ExecPermitted(w.execs[id], permitted);
    }
  }

  /** All arrivals of the run send this id with one of these payloads. */
  ghost predicate Sends(evs: seq<Event>, k: Key, payloads: set<Payload>) {
    forall i :: 0 <= i < |evs| && evs[i].Arrive? ==> evs[i].key == k && evs[i].payload in payloads
  }

  /** A first request writes its vertex at time zero. */
  lemma Written(k: Key, p: Payload, life: nat) returns (evs: seq<Event>, w: World)
    ensures Sends(evs, k, {p}) && ValidRun(INIT, evs, life) && w == Run(INIT, evs, life)
    ensures w == World(0, map[k := Row(1, false, p, PENDING_SECONDS)], [Message(k, p)],
                       map[1 := Exec(k, p, 0, Complete(Created(Message(k, p))))])
  {
    evs, w := Claim([], 1, k, p, life);
    evs, w := Do(evs, Step(1), life);
    evs, w := Do(evs, Step(1), life);
  }

  /** And completes its row. */
  lemma Posted(k: Key, p: Payload, life: nat) returns (evs: seq<Event>, w: World)
    ensures Sends(evs, k, {p}) && ValidRun(INIT, evs, life) && w == Run(INIT, evs, life)
    ensures w.now == 0 && w.rows == map[k := Row(1, true, p, COMPLETE_SECONDS)]
    ensures w.vertices == [Message(k, p)] && w.execs.Keys == {1}
  {
    evs, w := Written(k, p, life);
    evs, w := Do(evs, Step(1), life);
  }

  /** The polling loop is the one place that answers without comparing payloads.
      After the complete row of an older message was cleaned up, a request that
      reuses the id takes the guard, and a second request with that same payload
      polls and is handed the older message as its own: for any id and any two
      payloads. */
  lemma PollingServesForeignMessage(k: Key, p: Payload, q: Payload, life: nat) returns (evs: seq<Event>, id: nat)
    requires p != q
    ensures ValidRun(INIT, evs, life)
    ensures Sends(evs, k, {p, q})
    ensures var w := Run(INIT, evs, life);
            && id in w.execs && w.execs[id].payload == q
            && w.execs[id].phase == Replied(Existing(Message(k, p), Polling))
  {
    var w: World;
    evs, w := Posted(k, p, life);
    evs, w := Do(evs, Tick(3601000), life);
    evs, w := Do(evs, Ttl(k), life);
    assert k !in w.rows;
    evs, w := Claim(evs, 2, k, q, life);
    evs, w := Do(evs, Arrive(3, k, q), life);
    evs, w := PollOnce(evs, w, k, p, q, life);
    id := 3;
  }

  /** The second request finds the row pending, waits for it and reads the graph. */
  lemma PollOnce(evs: seq<Event>, w: World, k: Key, p: Payload, q: Payload, life: nat) returns (evs': seq<Event>, w': World)
    requires ValidRun(INIT, evs, life) && w == Run(INIT, evs, life) && p != q
    requires w.vertices == [Message(k, p)] && 3 in w.execs && w.execs[3] == Exec(k, q, w.now, Acquire(0))
    requires k in w.rows && w.rows[k] == Row(2, false, q, Seconds(w.now) + PENDING_SECONDS)
    ensures evs' == evs + [Step(3), Step(3), Step(3), Step(3)] && ValidRun(INIT, evs', life) && w' == Run(INIT, evs', life)
    ensures 3 in w'.execs && w'.execs[3] == Exec(k, q, w.now, Replied(Existing(Message(k, p), Polling)))
  {
    evs', w' := Do(evs, Step(3), life);
    evs', w' := Do(evs', Step(3), life);
    assert w'.execs[3].phase == Inspect(0);
    evs', w' := Do(evs', Step(3), life);
    assert w'.execs[3].phase == Poll(0);
    evs', w' := Do(evs', Step(3), life);
  }

  // ------------------------------------------------- refused as duplicates

  ghost predicate AnotherPayload(e: Exec, permitted: iset<Arrival>) { exists q :: q != e.payload && (e.key, q) in permitted }

  /** Rows hold payloads that arrived, and whoever is refused as a duplicate has met another one. */
  ghost predicate Refuted(w: World, permitted: iset<Arrival>) {
    RowsPermitted(w, permitted) && forall id | id in w.execs :: RefutedExec(w.execs[id], permitted)
  }

  ghost predicate RowsPermitted(w: World, permitted: iset<Arrival>) { forall k | k in w.rows :: (k, w.rows[k].payload) in permitted }

  ghost predicate RefutedExec(e: Exec, permitted: iset<Arrival>) {
    e.phase.Restore? || e.phase == Replied(DuplicateId) || e.phase == Complete(DuplicateId) ==> AnotherPayload(e, permitted)
  }

  lemma StepRefutes(w: World, id: nat, life: nat, permitted: iset<Arrival>)
    requires FromPermitted(w, permitted) && Refuted(w, permitted) && Enabled(w, Step(id), life)
    ensures RefutedExec(Advance(w, id).execs[id], permitted)
  {
    var e := w.execs[id];
    assert RefutedExec(e, permitted);
    var found := Find(w.vertices, e.key);
    if found != [] { assert (e.key, found[0].payload) in permitted; }
    if e.key in w.rows { assert (e.key, w.rows[e.key].payload) in permitted; }
  }

  lemma EventKeepsRows(w: World, ev: Event, life: nat, permitted: iset<Arrival>)
    requires FromPermitted(w, permitted) && RowsPermitted(w, permitted) && Enabled(w, ev, life)
    ensures RowsPermitted(Apply(w, ev, life), permitted)
  {
    if ev.Step? || ev.LostPutReply? { assert ExecPermitted(w.execs[ev.id], permitted); }
  }

  lemma OthersStay(w: World, id: nat, life: nat)
    requires Enabled(w, Step(id), life)
    ensures Advance(w, id).execs.Keys == w.execs.Keys
    ensures forall x :: x in w.execs && x != id ==> Advance(w, id).execs[x] == w.execs[x]
  {}

  lemma EventKeepsRefuted(w: World, ev: Event, life: nat, permitted: iset<Arrival>)
    requires FromPermitted(w, permitted) && Refuted(w, permitted) && Enabled(w, ev, life)
    requires ev.Arrive? ==> (ev.key, ev.payload) in permitted
    ensures Refuted(Apply(w, ev, life), permitted)
  {
    EventKeepsRows(w, ev, life, permitted);
    if ev.Step? {
      StepRefutes(w, ev.id, life, permitted);
      OthersStay(w, ev.id, life);
      forall id | id in Advance(w, ev.id).execs ensures RefutedExec(Advance(w, ev.id).execs[id], permitted) {
        if id != ev.id { assert RefutedExec(w.execs[id], permitted); }
      }
    } else {
      OtherEventRefutes(w, ev, life, permitted);
    }
  }

  lemma OtherEventRefutes(w: World, ev: Event, life: nat, permitted: iset<Arrival>)
    requires Refuted(w, permitted) && Enabled(w, ev, life) && !ev.Step?
    ensures forall id | id in Apply(w, ev, life).execs :: RefutedExec(Apply(w, ev, life).execs[id], permitted)
  {
    forall id | id in Apply(w, ev, life).execs ensures RefutedExec(Apply(w, ev, life).execs[id], permitted) {
      if id in w.execs { assert RefutedExec(w.execs[id], permitted); }
    }
  }

  lemma {:induction false} RunKeepsRefuted(w: World, evs: seq<Event>, life: nat, permitted: iset<Arrival>)
    requires FromPermitted(w, permitted) && Refuted(w, permitted) && ValidRun(w, evs, life) && Admitted(evs, permitted)
    ensures Refuted(Run(w, evs, life), permitted)
    decreases |evs|
  {
    if evs != [] {
      assert forall i :: 0 <= i < |evs| - 1 ==> evs[1..][i] == evs[i + 1];
      EventKeepsPermitted(w, evs[0], life, permitted);
      EventKeepsRefuted(w, evs[0], life, permitted);
      RunKeepsRefuted(Apply(w, evs[0], life), evs[1..], life, permitted);
    }
  }

  ghost predicate RefusedAsDuplicate(w: World, id: nat) { id in w.execs && w.execs[id].phase == Replied(DuplicateId) }

  /** In every run, whoever is refused as a duplicate shares its id with another payload. */
  lemma DuplicateMeetsAnotherPayload(evs: seq<Event>, id: nat, life: nat)
    requires ValidRun(INIT, evs, life) && RefusedAsDuplicate(Run(INIT, evs, life), id)
    ensures var e := Run(INIT, evs, life).execs[id];
            exists i :: 0 <= i < |evs| && evs[i].Arrive? && evs[i].key == e.key && evs[i].payload != e.payload
  {
    var arrived: iset<Arrival> := iset i | 0 <= i < |evs| && evs[i].Arrive? :: (evs[i].key, evs[i].payload);
    RunKeepsRefuted(INIT, evs, life, arrived);
    assert RefutedExec(Run(INIT, evs, life).execs[id], arrived);
  }

  ghost predicate NobodyRefused(permitted: iset<Arrival>, life: nat) {
    forall evs, id | ValidRun(INIT, evs, life) && Admitted(evs, permitted) :: !RefusedAsDuplicate(Run(INIT, evs, life), id)
  }

  lemma NotRefused(w: World, id: nat, permitted: iset<Arrival>)
    requires OnePayloadPerKey(permitted) && FromPermitted(w, permitted) && Refuted(w, permitted) && id in w.execs
    ensures !RefusedAsDuplicate(w, id)
  {
    assert ExecPermitted(w.execs[id], permitted) && RefutedExec(w.execs[id], permitted);
  }

  /** Nobody is refused as a duplicate in any run exactly when no message id is sent with
      two different payloads: repeats, takeovers and crashes alone refuse nobody. */
  lemma NobodyRefusedIff(permitted: iset<Arrival>, life: nat)
    ensures NobodyRefused(permitted, life) <==> OnePayloadPerKey(permitted)
  {
    if OnePayloadPerKey(permitted) {
      forall evs, id | ValidRun(INIT, evs, life) && Admitted(evs, permitted) ensures !RefusedAsDuplicate(Run(INIT, evs, life), id) {
        RunKeepsPermitted(INIT, evs, life, permitted);
        RunKeepsRefuted(INIT, evs, life, permitted);
        if id in Run(INIT, evs, life).execs { NotRefused(Run(INIT, evs, life), id, permitted); }
      }
    } else {
      var k, p, q :| (k, p) in permitted && (k, q) in permitted && p != q;
      var evs := Clash(k, p, q, life);
      assert Admitted(evs, permitted);
    }
  }

  /** A second payload meets the row of the first. */
  lemma Clash(k: Key, p: Payload, q: Payload, life: nat) returns (evs: seq<Event>)
    requires p != q
    ensures ValidRun(INIT, evs, life) && Sends(evs, k, {p, q}) && RefusedAsDuplicate(Run(INIT, evs, life), 2)
  {
    var w: World;
    evs, w := Claim([], 1, k, p, life);
    evs, w := Do(evs, Arrive(2, k, q), life);
    assert w.rows[k].payload == p && w.rows[k].expiresAt == PENDING_SECONDS;
    evs := Refuse(evs, w, k, q, life);
  }

  lemma Refuse(evs: seq<Event>, w: World, k: Key, q: Payload, life: nat) returns (evs': seq<Event>)
    requires ValidRun(INIT, evs, life) && w == Run(INIT, evs, life) && 2 in w.execs && w.execs[2] == Exec(k, q, w.now, Acquire(0))
    requires k in w.rows && w.rows[k].payload != q && !PutAllowed(w, k, Seconds(w.now))
    ensures evs' == evs + [Step(2), Step(2), Step(2)] && ValidRun(INIT, evs', life) && RefusedAsDuplicate(Run(INIT, evs', life), 2)
  {
    var w': World;
    evs', w' := Do(evs, Step(2), life);
    evs', w' := Do(evs', Step(2), life);
    assert w'.execs[2].phase == Inspect(0);
    evs', w' := Do(evs', Step(2), life);
  }

  // ---------------------------------------------------- left undisturbed

  predicate StepsOf(evs: seq<Event>, id: nat) { forall i :: 0 <= i < |evs| ==> evs[i] == Step(id) }

  /** The request gets from `w` to `w'` while nothing else happens. */
  ghost predicate Alone(w: World, id: nat, w': World, life: nat) {
    exists evs :: StepsOf(evs, id) && ValidRun(w, evs, life) && Run(w, evs, life) == w'
  }

  lemma AloneNow(w: World, id: nat, life: nat)
    ensures Alone(w, id, w, life)
  {
    var none: seq<Event> := [];
    assert StepsOf(none, id) && ValidRun(w, none, life) && Run(w, none, life) == w;
  }

  lemma AloneStep(w: World, id: nat, w': World, life: nat)
    requires Enabled(w, Step(id), life) && Alone(Apply(w, Step(id), life), id, w', life)
    ensures Alone(w, id, w', life)
  {
    var rest :| StepsOf(rest, id) && ValidRun(Apply(w, Step(id), life), rest, life) && Run(Apply(w, Step(id), life), rest, life) == w';
    var evs := [Step(id)] + rest;
    assert evs[1..] == rest && StepsOf(evs, id);
    assert ValidRun(w, evs, life) && Run(w, evs, life) == w';
  }

  function InPhase(w: World, id: nat, p: Phase): World
    requires id in w.execs
  {
    var e := w.execs[id];
    w.(execs := w.execs[id := Exec(e.key, e.payload, e.start, p)])
  }

  /** What posting does when nobody interferes: the winner of a free guard writes its message
      unless it is there already, or gives the guard back to another message; everybody else
      is answered from the row and the graph. */
  function Posting(w: World, id: nat): World
    requires id in w.execs
  {
    var e := w.execs[id];
    var own := Message(e.key, e.payload);
    var stored := Find(w.vertices, e.key);
    var done := w.(rows := w.rows[e.key := Row(id, true, e.payload, Seconds(w.now) + COMPLETE_SECONDS)]);
    if PutAllowed(w, e.key, Seconds(w.now)) then
      if stored == [] then InPhase(done.(vertices := w.vertices + [own]), id, Replied(Created(own)))
      else if stored[0] == own then InPhase(done, id, Replied(Existing(own, WinnerRecheck)))
      else InPhase(w.(rows := w.rows - {e.key}), id, Replied(DuplicateId))
    else if w.rows[e.key].payload != e.payload then InPhase(w, id, Replied(DuplicateId))
    else if stored == [] then InPhase(w, id, Replied(InProgress))
    else InPhase(w, id, Replied(Existing(stored[0], if w.rows[e.key].complete then GuardComplete else Polling)))
  }

  function Winning(w: World, id: nat): World
    requires id in w.execs
  {
    var e := w.execs[id];
    InPhase(w.(rows := w.rows[e.key := Row(id, false, e.payload, Seconds(w.now) + PENDING_SECONDS)]), id, Won)
  }

  lemma WriterEnds(w: World, id: nat, life: nat)
    requires id in w.execs && Alive(w, w.execs[id], life) && PutAllowed(w, w.execs[id].key, Seconds(w.now))
    requires Find(w.vertices, w.execs[id].key) == []
    ensures Alone(Winning(w, id), id, Posting(w, id), life)
  {
    var w0 := Winning(w, id);
    var w1 := Apply(w0, Step(id), life);
    assert w1 == InPhase(w0, id, Write);
    var w2 := Apply(w1, Step(id), life);
    var w3 := Apply(w2, Step(id), life);
    assert w3 == Posting(w, id);
    AloneNow(w3, id, life);
    AloneStep(w2, id, w3, life);
    AloneStep(w1, id, w3, life);
    AloneStep(w0, id, w3, life);
  }

  lemma WinnerEnds(w: World, id: nat, life: nat)
    requires id in w.execs && Alive(w, w.execs[id], life) && PutAllowed(w, w.execs[id].key, Seconds(w.now))
    ensures Alone(Winning(w, id), id, Posting(w, id), life)
  {
    if Find(w.vertices, w.execs[id].key) == [] {
      WriterEnds(w, id, life);
    } else {
      var w0 := Winning(w, id);
      var w1 := Apply(w0, Step(id), life);
      var w2 := Apply(w1, Step(id), life);
      assert w2 == Posting(w, id);
      AloneNow(w2, id, life);
      AloneStep(w1, id, w2, life);
      AloneStep(w0, id, w2, life);
    }
  }

  lemma AcquirerEnds(w: World, id: nat, life: nat, a: nat)
    requires id in w.execs && Alive(w, w.execs[id], life) && PutAllowed(w, w.execs[id].key, Seconds(w.now))
    ensures Alone(InPhase(w, id, Acquire(a)), id, Posting(w, id), life)
  {
    var w0 := InPhase(w, id, Acquire(a));
    var w1 := Apply(w0, Step(id), life);
    assert Apply(w1, Step(id), life) == Winning(w, id);
    WinnerEnds(w, id, life);
    AloneStep(w1, id, Posting(w, id), life);
    AloneStep(w0, id, Posting(w, id), life);
  }

  /** Who lost the guard looks at the row, and takes an abandoned one over, but only once. */
  lemma LoserEnds(w: World, id: nat, life: nat, a: nat)
    requires id in w.execs && Alive(w, w.execs[id], life)
    requires PutAllowed(w, w.execs[id].key, Seconds(w.now)) && w.execs[id].key in w.rows ==> w.rows[w.execs[id].key].payload == w.execs[id].payload
    ensures var free := PutAllowed(w, w.execs[id].key, Seconds(w.now));
            Alone(InPhase(w, id, Inspect(a)), id, if free && a >= 1 then InPhase(w, id, Replied(InProgress)) else Posting(w, id), life)
  {
    var w0 := InPhase(w, id, Inspect(a));
    var w1 := Apply(w0, Step(id), life);
    if PutAllowed(w, w.execs[id].key, Seconds(w.now)) {
      if a == 0 {
        AcquirerEnds(w, id, life, 1);
        assert w1 == InPhase(w, id, Acquire(1));
        AloneStep(w0, id, Posting(w, id), life);
      } else {
        assert w1 == InPhase(w, id, Replied(InProgress));
        AloneNow(w1, id, life);
        AloneStep(w0, id, w1, life);
      }
    } else {
      RefusedEnds(w, id, life, w0, w1);
    }
  }

  lemma RefusedEnds(w: World, id: nat, life: nat, w0: World, w1: World)
    requires id in w.execs && Alive(w, w.execs[id], life) && !PutAllowed(w, w.execs[id].key, Seconds(w.now))
    requires id in w0.execs && w0 == InPhase(w, id, w0.execs[id].phase) && w0.execs[id].phase.Inspect?
    requires w1 == Apply(w0, Step(id), life)
    ensures Alone(w0, id, Posting(w, id), life)
  {
    var e := w.execs[id];
    if w.rows[e.key].payload != e.payload {
      assert w1 == Posting(w, id);
      AloneNow(w1, id, life);
    } else if w.rows[e.key].complete {
      assert w1 == InPhase(w, id, Echo);
      assert Apply(w1, Step(id), life) == Posting(w, id);
      AloneNow(Posting(w, id), id, life);
      AloneStep(w1, id, Posting(w, id), life);
    } else {
      assert w1 == InPhase(w, id, Poll(0));
      PollerEnds(w, id, life);
    }
    AloneStep(w0, id, Posting(w, id), life);
  }

  /** Three looks at the graph, and each would do. */
  lemma PollerEnds(w: World, id: nat, life: nat)
    requires id in w.execs && Alive(w, w.execs[id], life)
    ensures var stored := Find(w.vertices, w.execs[id].key);
            var answer := InPhase(w, id, Replied(if stored == [] then InProgress else Existing(stored[0], Polling)));
            && Alone(InPhase(w, id, Poll(0)), id, answer, life)
            && Alone(InPhase(w, id, Poll(2)), id, answer, life)
            && (stored == [] ==> Alone(InPhase(w, id, Poll(0)), id, InPhase(w, id, Poll(2)), life))
  {
    var stored := Find(w.vertices, w.execs[id].key);
    var answer := InPhase(w, id, Replied(if stored == [] then InProgress else Existing(stored[0], Polling)));
    var w0, w1, w2 := InPhase(w, id, Poll(0)), InPhase(w, id, Poll(1)), InPhase(w, id, Poll(2));
    assert Apply(w2, Step(id), life) == answer;
    AloneNow(answer, id, life);
    AloneStep(w2, id, answer, life);
    if stored == [] {
      assert Apply(w0, Step(id), life) == w1 && Apply(w1, Step(id), life) == w2;
      AloneStep(w1, id, answer, life);
      AloneNow(w2, id, life);
      AloneStep(w1, id, w2, life);
      AloneStep(w0, id, w2, life);
    } else {
      assert Apply(w0, Step(id), life) == answer;
    }
    AloneStep(w0, id, answer, life);
  }

  /** From any state of guard and graph whatsoever, a request that is left alone does just that. */
  lemma PostingAlone(w: World, id: nat, k: Key, p: Payload, life: nat)
    requires id !in w.execs
    ensures var arrived := Apply(w, Arrive(id, k, p), life); Alone(arrived, id, Posting(arrived, id), life)
  {
    var w0 := Apply(w, Arrive(id, k, p), life);
    if PutAllowed(w0, k, Seconds(w0.now)) {
      AcquirerEnds(w0, id, life, 0);
      assert InPhase(w0, id, Acquire(0)) == w0;
    } else {
      var w1 := Apply(w0, Step(id), life);
      var w2 := InPhase(w0, id, Inspect(0));
      assert Apply(w1, Step(id), life) == w2;
      RefusedEnds(w0, id, life, w2, Apply(w2, Step(id), life));
      AloneStep(w1, id, Posting(w0, id), life);
      AloneStep(w0, id, Posting(w0, id), life);
    }
  }
}
