/** The base relation of the environment store and the check that guards every
    write to it (`assertAcyclicBase`), over whole runs of requests. */
module BaseStore {
  import opened RebuildOrder
  import opened StringOrder
  import opened Wrappers

  /** Base of every stored environment, "" for none. */
  type Store = map<string, string>

  function Parents(store: Store): map<string, string> {
    map k | k in store.Keys && store[k] != "" :: store[k]
  }

  ghost predicate Acyclic(store: Store) { !HasCycle(Parents(store)) }

  ghost predicate Reaches(parent: map<string, string>, x: string, target: string) {
    exists n: nat :: Up(parent, x, n) == target
  }

  ghost predicate Ends(parent: map<string, string>, x: string) {
    exists n: nat :: Up(parent, x, n) !in parent
  }

  /** What the walk decides, for any store: the chain of bases from the candidate
      comes to an end and never meets the environment itself. */
  method AssertAcyclicBase(store: Store, id: string, base: string) returns (ok: bool)
    ensures ok <==> base == "" || (Ends(Parents(store), base) && !Reaches(Parents(store), base, id))
  {
    ghost var parent := Parents(store);
    var visited: set<string> := {};
    var candidate := base;
    ghost var n: nat := 0;
    while candidate != ""
      invariant base == "" ==> candidate == ""
      invariant candidate != "" ==> candidate == Up(parent, base, n) && AllIn(parent, base, n)
      invariant forall k: nat | k < n :: Up(parent, base, k) != id
      invariant forall y | y in visited :: Climbed(parent, base, n, y)
      invariant candidate == "" && base != "" ==> n > 0 && Up(parent, base, n - 1) !in parent
      decreases store.Keys - visited, candidate != ""
    {
      if candidate == id { return false; }
      if candidate in visited {
        ghost var k: nat :| k < n && Up(parent, base, k) == candidate;
        RepeatNeverEnds(parent, base, k, n);
        return false;
      }
      UpStep(parent, base, n);
      visited := visited + {candidate};
      assert forall y | y in visited :: Climbed(parent, base, n + 1, y) by { Grows(parent, base, n, visited); }
      candidate := if candidate in store then store[candidate] else "";
      n := n + 1;
    }
    if base != "" { CleanEnd(parent, base, n - 1, id); }
    return true;
  }

  ghost predicate AllIn(parent: map<string, string>, x: string, n: nat) {
    forall k: nat | k < n :: Up(parent, x, k) in parent
  }

  lemma Grows(parent: map<string, string>, x: string, n: nat, visited: set<string>)
    requires forall y | y in visited :: Climbed(parent, x, n, y) || y == Up(parent, x, n)
    ensures forall y | y in visited :: Climbed(parent, x, n + 1, y)
  {
    forall y | y in visited ensures Climbed(parent, x, n + 1, y) {
      if y == Up(parent, x, n) { assert n < n + 1; }
    }
  }

  /** A climb that comes back to an earlier point goes on forever. */
  lemma RepeatNeverEnds(parent: map<string, string>, x: string, k: nat, n: nat)
    requires k < n && Up(parent, x, k) == Up(parent, x, n) && AllIn(parent, x, n)
    ensures !Ends(parent, x)
  {
    forall m: nat ensures Up(parent, x, m) in parent { Periodic(parent, x, k, n, m); }
  }

  lemma {:induction false} Periodic(parent: map<string, string>, x: string, k: nat, n: nat, m: nat)
    requires k < n && Up(parent, x, k) == Up(parent, x, n) && AllIn(parent, x, n)
    ensures Up(parent, x, m) in parent
    decreases m
  {
    if m >= n {
      UpAdds(parent, x, n, m - n);
      UpAdds(parent, x, k, m - n);
      Periodic(parent, x, k, n, k + m - n);
    }
  }

  lemma CleanEnd(parent: map<string, string>, x: string, n: nat, id: string)
    requires Up(parent, x, n) !in parent
    requires forall k: nat | k <= n :: Up(parent, x, k) != id
    ensures Ends(parent, x) && !Reaches(parent, x, id)
  {
    forall m: nat ensures Up(parent, x, m) != id {
      if m > n { Settled(parent, x, n, m); }
    }
  }

  lemma UpStep(parent: map<string, string>, x: string, n: nat)
    ensures var y := Up(parent, x, n); Up(parent, x, n + 1) == if y in parent then parent[y] else y
  {
    UpAdds(parent, x, n, 1);
    assert Up(parent, Up(parent, x, n), 1) == if Up(parent, x, n) in parent then Up(parent, parent[Up(parent, x, n)], 0) else Up(parent, x, n);
  }

  lemma Settled(parent: map<string, string>, x: string, n: nat, m: nat)
    requires n <= m && Up(parent, x, n) !in parent
    ensures Up(parent, x, m) == Up(parent, x, n)
  {
    UpAdds(parent, x, n, m - n);
    Rooted(parent, Up(parent, x, n), m - n);
  }

  // ------------------------------------- the check is exactly acyclicity

  /** Two relations that agree away from `id` climb alike until they meet it. */
  lemma {:induction false} ClimbsAlike(p: map<string, string>, q: map<string, string>, id: string, x: string, n: nat)
    requires forall y | y != id :: (y in p <==> y in q) && (y in p ==> p[y] == q[y])
    requires forall k: nat | k < n :: Up(p, x, k) != id
    ensures Up(q, x, n) == Up(p, x, n)
    decreases n
  {
    if n > 0 {
      ClimbsAlike(p, q, id, x, n - 1);
      UpStep(p, x, n - 1);
      UpStep(q, x, n - 1);
    }
  }

  lemma {:induction false} LeastReach(parent: map<string, string>, x: string, target: string, n: nat) returns (k: nat)
    requires Up(parent, x, n) == target
    ensures k <= n && Up(parent, x, k) == target && forall j: nat | j < k :: Up(parent, x, j) != target
    decreases n
  {
    k := n;
    if exists j: nat :: j < n && Up(parent, x, j) == target {
      var j: nat :| j < n && Up(parent, x, j) == target;
      k := LeastReach(parent, x, target, j);
    }
  }

  /** In a store without cycles every chain of bases ends. */
  lemma AcyclicEnds(store: Store, x: string)
    requires Acyclic(store)
    ensures Ends(Parents(store), x)
  {
    var parent := Parents(store);
    if !Ends(parent, x) {
      var stuck := set y | y in parent.Keys && Reaches(parent, x, y);
      assert Up(parent, x, 0) == x && Up(parent, x, 0) in parent;
      assert x in stuck;
      forall y | y in stuck ensures parent[y] in stuck {
        var n: nat :| Up(parent, x, n) == y;
        UpStep(parent, x, n);
        assert Up(parent, x, n + 1) in parent;
      }
      StuckMeansCycle(parent, stuck);
    }
  }

  /** A cycle of the rewritten store that meets `id` shows that the new base
      already reached `id` before the write. */
  lemma CycleThroughId(store: Store, id: string, base: string, n: nat)
    requires base != "" && Returns(Parents(store[id := base]), id, n)
    ensures Reaches(Parents(store), base, id)
  {
    var parent' := Parents(store[id := base]);
    assert Up(parent', base, n - 1) == id;
    var k := LeastReach(parent', base, id, n - 1);
    ClimbsAlike(parent', Parents(store), id, base, k);
  }

  lemma CycleMeetsId(store: Store, id: string, base: string, x: string, n: nat)
    requires Acyclic(store) && base != "" && Returns(Parents(store[id := base]), x, n)
    ensures Returns(Parents(store[id := base]), id, n)
  {
    var parent' := Parents(store[id := base]);
    if forall k: nat | k < n :: Up(parent', x, k) != id {
      assert Up(parent', x, 0) == x;
      ClimbsAlike(parent', Parents(store), id, x, n);
      assert Returns(Parents(store), x, n);
      assert false;
    }
    var k: nat :| k < n && Up(parent', x, k) == id;
    UpAdds(parent', x, k, n);
    UpAdds(parent', x, n, k);
  }

  /** In an acyclic store the check accepts a base exactly when writing it keeps
      the store acyclic. */
  lemma CheckIsExact(store: Store, id: string, base: string)
    requires Acyclic(store) && base != ""
    ensures (Ends(Parents(store), base) && !Reaches(Parents(store), base, id)) <==> Acyclic(store[id := base])
  {
    AcyclicEnds(store, base);
    var parent' := Parents(store[id := base]);
    if Reaches(Parents(store), base, id) {
      var n: nat :| Up(Parents(store), base, n) == id;
      var k := LeastReach(Parents(store), base, id, n);
      ClimbsAlike(Parents(store), parent', id, base, k);
      assert Up(parent', id, k + 1) == Up(parent', base, k);
      assert Returns(parent', id, k + 1);
    } else if HasCycle(parent') {
      var x, n :| Returns(parent', x, n);
      CycleMeetsId(store, id, base, x, n);
      CycleThroughId(store, id, base, n);
    }
  }

  /** If a climb in a smaller relation ends on something that still has a base
      there, the larger relation climbs the same way. */
  lemma {:induction false} SmallerClimbs(sub: map<string, string>, sup: map<string, string>, x: string, n: nat)
    requires forall y | y in sub :: y in sup && sup[y] == sub[y]
    requires Up(sub, x, n) in sub
    ensures Up(sup, x, n) == Up(sub, x, n)
    decreases n
  {
    if n > 0 && x in sub { SmallerClimbs(sub, sup, sub[x], n - 1); }
  }

  lemma SmallerHasNoNewCycle(sub: map<string, string>, sup: map<string, string>)
    requires forall y | y in sub :: y in sup && sup[y] == sub[y]
    requires HasCycle(sub)
    ensures HasCycle(sup)
  {
    var x, n :| Returns(sub, x, n);
    SmallerClimbs(sub, sup, x, n);
    assert Returns(sup, x, n);
  }

  lemma DropKeeps(store: Store, id: string)
    requires Acyclic(store)
    ensures Acyclic(store[id := ""])
  {
    if HasCycle(Parents(store[id := ""])) { SmallerHasNoNewCycle(Parents(store[id := ""]), Parents(store)); }
  }

  // --------------------------------------------------------- whole runs

  /** The two kinds of requests that write a base.  `admitted` is the outcome of
      all their other validations.  A published revision may name no base. */
  datatype Request =
    | Create(id: string, base: string, admitted: bool)
    | Publish(id: string, recipeBase: Option<string>, admitted: bool)

  const STANDARD := "standard"
  const SEEDED: Store := map[STANDARD := ""]

  /** The base a request wants to write, if its other validations let it. */
  function Wanted(store: Store, req: Request): Option<string> {
    match req
    case Create(id, base, admitted) =>
      if !admitted || id in store then None else Some(if base == "" then STANDARD else base)
    case Publish(id, base, admitted) =>
      if !admitted || id !in store then None else if id == STANDARD then Some("") else base
  }

  /** New environments get a base of their own choice or the standard one, known ones the base of
      their recipe, and the standard one none; the rest of the store is not asked for. */
  lemma WantedIff(store: Store, req: Request, base: string)
    ensures Wanted(store, req) == Some(base) <==>
              && req.admitted
              && (req.Create? ==> req.id !in store && base == (if req.base != "" then req.base else "standard"))
              && (req.Publish? ==> req.id in store && (if req.id == "standard" then base == "" else req.recipeBase == Some(base)))
  {}

  /** The store after a request: the wanted base is written unless it would close
      a cycle. */
  ghost function Written(store: Store, req: Request): Store {
    var wanted := Wanted(store, req);
    if wanted.Some? && Acyclic(store[req.id := wanted.value]) then store[req.id := wanted.value] else store
  }

  /** One request, taken as atomic. */
  method Handle(store: Store, req: Request) returns (store': Store)
    requires Acyclic(store)
    ensures store' == Written(store, req) && Acyclic(store')
  {
    var id := req.id;
    match req
    case Create(_, wanted, admitted) =>
      var base := if wanted == "" then STANDARD else wanted;
      var ok := AssertAcyclicBase(store, id, base);
      CheckIsExact(store, id, base);
      if !ok || !admitted || id in store { return store; }
      return store[id := base];
    case Publish(_, wanted, admitted) =>
      if id !in store || !admitted { return store; }
      if id == STANDARD {
        DropKeeps(store, id);
        return store[id := ""];
      }
      if wanted.None? { return store; }
      if wanted.value == "" {
        DropKeeps(store, id);
        return store[id := ""];
      }
      var ok := AssertAcyclicBase(store, id, wanted.value);
      CheckIsExact(store, id, wanted.value);
      if !ok { return store; }
      return store[id := wanted.value];
  }

  ghost function WrittenAll(store: Store, reqs: seq<Request>): Store
    decreases |reqs|
  {
    if reqs == [] then store else WrittenAll(Written(store, reqs[0]), reqs[1..])
  }

  lemma {:induction false} RunStaysAcyclic(store: Store, reqs: seq<Request>)
    requires Acyclic(store)
    ensures Acyclic(WrittenAll(store, reqs))
    decreases |reqs|
  {
    if reqs != [] { RunStaysAcyclic(Written(store, reqs[0]), reqs[1..]); }
  }

  /** Rows of the store, as `listEnvironments` and a selection of ids return them. */
  ghost predicate SelectedFrom(store: Store, envs: seq<Environment>) {
    DistinctIds(envs) && forall e | e in envs :: e.id in store && store[e.id] == e.base
  }

  /** No reachable store makes `orderRebuilds` throw, whatever is selected: the
      order exists for every selection. */
  lemma RebuildNeverThrows(reqs: seq<Request>, envs: seq<Environment>, r: Option<seq<Environment>>)
    requires SelectedFrom(WrittenAll(SEEDED, reqs), envs)
    requires OrderSpec(envs, r)
    ensures r.Some?
  {
    assert Acyclic(SEEDED) by {
      assert Parents(SEEDED) == map[];
    }
    RunStaysAcyclic(SEEDED, reqs);
    var store := WrittenAll(SEEDED, reqs);
    if HasCycle(Bases(envs)) { SmallerHasNoNewCycle(Bases(envs), Parents(store)); }
  }

  // ------------------------------------------------------- racing requests

  /** What `AssertAcyclicBase` decides. */
  ghost predicate Passes(store: Store, id: string, base: string) {
    base == "" || (Ends(Parents(store), base) && !Reaches(Parents(store), base, id))
  }

  lemma PassingKeeps(store: Store, id: string, base: string)
    requires Acyclic(store) && Passes(store, id, base)
    ensures Acyclic(store[id := base])
  {
    if base == "" { DropKeeps(store, id); } else { CheckIsExact(store, id, base); }
  }

  /** Two requests that both pass the check on the same store, and then both write. */
  ghost predicate Race(store: Store, a: string, x: string, b: string, y: string) {
    Acyclic(store) && Passes(store, a, x) && Passes(store, b, y)
  }

  lemma ComesBack(parent: map<string, string>, a: string, i: nat)
    requires a in parent && Up(parent, parent[a], i) == a
    ensures HasCycle(parent)
  {
    assert Up(parent, a, i + 1) == a;
    assert Returns(parent, a, i + 1);
  }

  /** A chain from `y` that newly meets `b` runs through the rewritten `a`. */
  lemma NewChainMeetsBoth(store: Store, a: string, x: string, b: string, y: string, n: nat)
    requires Race(store, a, x, b, y) && a != b && x != "" && y != ""
    requires Up(Parents(store[a := x]), y, n) == b
    ensures Reaches(Parents(store), y, a) && Reaches(Parents(store), x, b)
  {
    var old', new' := Parents(store), Parents(store[a := x]);
    if forall k: nat | k < n :: Up(new', y, k) != a {
      ClimbsAlike(new', old', a, y, n);
      assert false;
    }
    var j: nat :| j < n && Up(new', y, j) == a;
    var k := LeastReach(new', y, a, j);
    ClimbsAlike(new', old', a, y, k);
    UpAdds(new', y, k, n - k);
    assert Up(new', x, n - k - 1) == b;
    PassingKeeps(store, a, x);
    forall i: nat | i < n - k - 1 ensures Up(new', x, i) != a {
      if Up(new', x, i) == a { ComesBack(new', a, i); }
    }
    ClimbsAlike(new', old', a, x, n - k - 1);
  }

  /** Two old chains join at `a` into one from `y` to `b`. */
  lemma ChainsJoin(store: Store, a: string, x: string, b: string, y: string)
    requires Race(store, a, x, b, y) && x != ""
    requires Reaches(Parents(store), x, b) && Reaches(Parents(store), y, a)
    ensures Reaches(Parents(store[a := x]), y, b)
  {
    var old', new' := Parents(store), Parents(store[a := x]);
    var m: nat :| Up(old', y, m) == a;
    var k := LeastReach(old', y, a, m);
    ClimbsAlike(old', new', a, y, k);
    var n: nat :| Up(old', x, n) == b;
    ClimbsAlike(old', new', a, x, n);
    UpAdds(new', y, k, n + 1);
    assert Up(new', a, n + 1) == Up(new', x, n);
  }

  /** Exactly when two requests that each pass the check close a cycle together:
      when each one's base already reached the other one's environment. */
  lemma RaceClosesACycleIff(store: Store, a: string, x: string, b: string, y: string)
    requires Race(store, a, x, b, y)
    ensures !Acyclic(store[a := x][b := y]) <==>
              x != "" && y != "" && Reaches(Parents(store), x, b) && Reaches(Parents(store), y, a)
  {
    PassingKeeps(store, a, x);
    PassingKeeps(store, b, y);
    var first := store[a := x];
    if a == b {
      assert first[b := y] == store[b := y];
    } else if y == "" {
      DropKeeps(first, b);
    } else if x == "" {
      DropKeeps(store[b := y], a);
      assert first[b := y] == store[b := y][a := x];
    } else {
      CheckIsExact(first, b, y);
      AcyclicEnds(first, y);
      if Reaches(Parents(first), y, b) {
        var n: nat :| Up(Parents(first), y, n) == b;
        NewChainMeetsBoth(store, a, x, b, y, n);
      }
      if Reaches(Parents(store), x, b) && Reaches(Parents(store), y, a) { ChainsJoin(store, a, x, b, y); }
    }
  }

  /** The first requests that any two environments come from: both on `standard`. */
  function TwoCreates(a: string, b: string): seq<Request> { [Create(a, "", true), Create(b, "", true)] }

  lemma CreateIsWritten(store: Store, id: string)
    requires Acyclic(store) && id !in store && id != STANDARD && STANDARD in store && store[STANDARD] == ""
    ensures Written(store, Create(id, "", true)) == store[id := STANDARD] && Acyclic(store[id := STANDARD])
  {
    StandardIsRoot(store);
    CheckIsExact(store, id, STANDARD);
  }

  lemma StandardIsRoot(store: Store)
    requires STANDARD in store && store[STANDARD] == ""
    ensures Ends(Parents(store), STANDARD) && forall target :: Reaches(Parents(store), STANDARD, target) <==> target == STANDARD
  {
    var parent := Parents(store);
    assert Up(parent, STANDARD, 0) == STANDARD;
    forall n: nat ensures Up(parent, STANDARD, n) == STANDARD { Rooted(parent, STANDARD, n); }
  }

  /** Atomicity matters, in every store that begins as seeded: environments `a` and
      `b` are created on `standard`, revisions that base each on the other both pass
      the check, either of them alone would be published, and both close a cycle. */
  lemma RacingWritesCloseACycle(a: string, b: string)
    requires a != b && a !in {"", STANDARD} && b !in {"", STANDARD}
    ensures var store := WrittenAll(SEEDED, TwoCreates(a, b));
            && store == SEEDED[a := STANDARD][b := STANDARD]
            && Race(store, a, b, b, a)
            && Written(store, Publish(a, Some(b), true)) == store[a := b]
            && Written(store, Publish(b, Some(a), true)) == store[b := a]
            && !Acyclic(store[a := b][b := a])
  {
    assert Parents(SEEDED) == map[];
    CreateIsWritten(SEEDED, a);
    var one := SEEDED[a := STANDARD];
    CreateIsWritten(one, b);
    var store := one[b := STANDARD];
    var reqs := TwoCreates(a, b);
    assert reqs[1..] == [Create(b, "", true)] && reqs[1..][1..] == [];
    assert WrittenAll(one, reqs[1..]) == WrittenAll(store, []);
    StandardIsRoot(store);
    OnStandard(store, a, b);
    OnStandard(store, b, a);
    assert Up(Parents(store), b, 0) == b && Up(Parents(store), a, 0) == a;
    RaceClosesACycleIff(store, a, b, b, a);
    CheckIsExact(store, a, b);
    CheckIsExact(store, b, a);
  }

  /** From an environment on `standard` the chain of bases is that and `standard`. */
  lemma OnStandard(store: Store, a: string, b: string)
    requires Acyclic(store) && STANDARD in store && store[STANDARD] == "" && b in store && store[b] == STANDARD
    requires a != b && a != STANDARD
    ensures Passes(store, a, b)
  {
    var parent := Parents(store);
    AcyclicEnds(store, b);
    forall n: nat ensures Up(parent, b, n) != a {
      if n > 0 {
        assert Up(parent, b, n) == Up(parent, STANDARD, n - 1);
        Rooted(parent, STANDARD, n - 1);
      }
    }
  }
}
