/** `orderRebuilds`: Kahn's algorithm over the selected environments, with the
    ready list kept sorted. */
module RebuildOrder {
  import opened StringOrder
  import opened Wrappers

  /** `base` is "" for an environment without a base. */
  datatype Environment = Environment(id: string, base: string)

  // ------------------------------------------------------------ the graph

  /** `new Map(environments.map(...))`: a later row replaces an earlier one. */
  function ById(envs: seq<Environment>): (m: map<string, Environment>)
    ensures forall e | e in envs :: e.id in m
    ensures forall k | k in m :: m[k].id == k && m[k] in envs
  {
    if envs == [] then map[]
    else
      assert envs == envs[..|envs| - 1] + [envs[|envs| - 1]];
      ById(envs[..|envs| - 1])[envs[|envs| - 1].id := envs[|envs| - 1]]
  }

  /** The environment table is keyed by id, so a selection has no id twice. */
  ghost predicate DistinctIds(envs: seq<Environment>) {
    forall i, j :: 0 <= i < j < |envs| ==> envs[i].id != envs[j].id
  }

  /** The base relation restricted to the selection. */
  function Bases(envs: seq<Environment>): map<string, string> {
    var m := ById(envs);
    map k | k in m.Keys && m[k].base != "" && m[k].base in m.Keys :: m[k].base
  }

  /** The base after `n` hops, or the last one reached. */
  function Up(parent: map<string, string>, x: string, n: nat): string
    decreases n
  {
    if n == 0 || x !in parent then x else Up(parent, parent[x], n - 1)
  }

  ghost predicate Returns(parent: map<string, string>, x: string, n: nat) {
    n > 0 && x in parent && Up(parent, x, n) == x
  }

  ghost predicate HasCycle(parent: map<string, string>) { exists x, n :: Returns(parent, x, n) }

  /** A permutation of `ids` with every base before its dependents. */
  ghost predicate IsOrder(ids: set<string>, parent: map<string, string>, order: seq<string>) {
    && NoDuplicates(order) && Elements(order) == ids
    && (forall k :: 0 <= k < |order| && order[k] in parent ==> parent[order[k]] in order[..k])
  }

  ghost function Ready(ids: set<string>, parent: map<string, string>, prefix: seq<string>): set<string> {
    set x | x in ids && x !in prefix && (x in parent ==> parent[x] in prefix)
  }

  /** Every element is the least one that was ready when it was taken. */
  ghost predicate Greedy(ids: set<string>, parent: map<string, string>, order: seq<string>) {
    forall k :: 0 <= k < |order| ==>
      && order[k] in Ready(ids, parent, order[..k])
      && forall x | x in Ready(ids, parent, order[..k]) :: x == order[k] || Less(order[k], x)
  }

  lemma GreedyIsOrdered(ids: set<string>, parent: map<string, string>, order: seq<string>)
    requires Greedy(ids, parent, order)
    ensures NoDuplicates(order) && Elements(order) <= ids
    ensures forall k :: 0 <= k < |order| && order[k] in parent ==> parent[order[k]] in order[..k]
  {
    forall k | 0 <= k < |order|
      ensures order[k] !in order[..k] && order[k] in ids && (order[k] in parent ==> parent[order[k]] in order[..k])
    {
      assert order[k] in Ready(ids, parent, order[..k]);
    }
    forall i, j | 0 <= i < j < |order| ensures order[i] != order[j] {
      assert order[..j][i] == order[i];
    }
  }

  lemma {:induction false} SameSize(a: seq<string>, b: seq<string>)
    requires NoDuplicates(a) && NoDuplicates(b) && Elements(a) == Elements(b)
    ensures |a| == |b|
  {
    Counts(a);
    Counts(b);
  }

  lemma {:induction false} Counts(a: seq<string>)
    requires NoDuplicates(a)
    ensures |Elements(a)| == |a|
  {
    if a != [] {
      Counts(a[1..]);
      assert Elements(a) == {a[0]} + Elements(a[1..]) by { assert a == [a[0]] + a[1..]; }
      assert a[0] !in a[1..];
    }
  }

  /** A greedy order is the least of all topological orders. */
  lemma GreedyIsLeast(ids: set<string>, parent: map<string, string>, order: seq<string>, other: seq<string>)
    requires Greedy(ids, parent, order) && IsOrder(ids, parent, order) && IsOrder(ids, parent, other)
    ensures |order| == |other| && LexAtMost(order, other)
  {
    SameSize(order, other);
    if order != other {
      var k := FirstDifference(order, other);
      var x := other[k];
      assert x in Elements(other);
      assert x in Ready(ids, parent, order[..k]);
    }
  }

  lemma {:induction false} FirstDifference(a: seq<string>, b: seq<string>) returns (k: nat)
    requires |a| == |b| && a != b
    ensures k < |a| && a[..k] == b[..k] && a[k] != b[k]
  {
    if a[0] != b[0] {
      k := 0;
    } else {
      assert a == [a[0]] + a[1..] && b == [b[0]] + b[1..];
      var j := FirstDifference(a[1..], b[1..]);
      k := j + 1;
      assert a[..k] == [a[0]] + a[1..][..j] && b[..k] == [b[0]] + b[1..][..j];
    }
  }

  // ----------------------------------------------------------- cycles

  lemma {:induction false} UpAdds(parent: map<string, string>, x: string, m: nat, n: nat)
    ensures Up(parent, Up(parent, x, m), n) == Up(parent, x, m + n)
    decreases m
  {
    if m > 0 && x in parent { UpAdds(parent, parent[x], m - 1, n); } else if x !in parent { Rooted(parent, x, n); }
  }

  lemma {:induction false} Rooted(parent: map<string, string>, x: string, n: nat)
    requires x !in parent
    ensures Up(parent, x, n) == x
  {
  }

  /** A set in which every element has its base inside is stuck on a cycle. */
  lemma StuckMeansCycle(parent: map<string, string>, stuck: set<string>)
    requires stuck != {}
    requires forall x | x in stuck :: x in parent && parent[x] in stuck
    ensures HasCycle(parent)
  {
    var x :| x in stuck;
    var i, j := Repeats(parent, stuck, x, |stuck|);
    var y := Up(parent, x, i);
    StaysInside(parent, stuck, x, i);
    UpAdds(parent, x, i, j - i);
    assert Returns(parent, y, j - i);
  }

  lemma {:induction false} StaysInside(parent: map<string, string>, stuck: set<string>, x: string, n: nat)
    requires forall y | y in stuck :: y in parent && parent[y] in stuck
    requires x in stuck
    ensures Up(parent, x, n) in stuck
    decreases n
  {
    if n > 0 { StaysInside(parent, stuck, parent[x], n - 1); }
  }

  /** Pigeonhole: among the first `n` + 1 climbs inside a set of `n` two agree. */
  lemma Repeats(parent: map<string, string>, stuck: set<string>, x: string, n: nat) returns (i: nat, j: nat)
    requires forall y | y in stuck :: y in parent && parent[y] in stuck
    requires x in stuck && n == |stuck|
    ensures i < j && Up(parent, x, i) == Up(parent, x, j)
  {
    i, j := 0, 1;
    if exists i: nat, j: nat :: i < j && Up(parent, x, i) == Up(parent, x, j) {
      i, j :| i < j && Up(parent, x, i) == Up(parent, x, j);
    } else {
      var seen := Distinct(parent, stuck, x, n + 1);
      SubsetSize(seen, stuck);
      assert false;
    }
  }

  ghost predicate Climbed(parent: map<string, string>, x: string, n: nat, y: string) {
    exists i: nat :: i < n && Up(parent, x, i) == y
  }

  lemma {:induction false} Distinct(parent: map<string, string>, stuck: set<string>, x: string, n: nat)
    returns (seen: set<string>)
    requires forall y | y in stuck :: y in parent && parent[y] in stuck
    requires x in stuck
    requires forall i: nat, j: nat :: i < j ==> Up(parent, x, i) != Up(parent, x, j)
    ensures seen <= stuck && |seen| == n
    ensures forall y | y in seen :: Climbed(parent, x, n, y)
    decreases n
  {
    seen := {};
    if n > 0 {
      var before := Distinct(parent, stuck, x, n - 1);
      StaysInside(parent, stuck, x, n - 1);
      var y := Up(parent, x, n - 1);
      seen := before + {y};
      forall z | z in seen ensures Climbed(parent, x, n, z) {
        if z in before { assert Climbed(parent, x, n - 1, z); }
      }
    }
  }

  lemma {:induction false} SubsetSize(a: set<string>, b: set<string>)
    requires a <= b
    ensures |a| <= |b|
  {
    if a != {} {
      var x :| x in a;
      SubsetSize(a - {x}, b - {x});
    }
  }

  /** No order exists around a cycle: climbing strictly decreases the index. */
  lemma OrderMeansNoCycle(ids: set<string>, parent: map<string, string>, order: seq<string>)
    requires IsOrder(ids, parent, order) && parent.Keys <= ids
    ensures !HasCycle(parent)
  {
    if HasCycle(parent) {
      var x, n :| Returns(parent, x, n);
      assert x in Elements(order);
      var k :| 0 <= k < |order| && order[k] == x;
      ClimbsDown(ids, parent, order, k, n);
    }
  }

  lemma {:induction false} ClimbsDown(ids: set<string>, parent: map<string, string>, order: seq<string>, k: nat, n: nat)
    requires IsOrder(ids, parent, order) && k < |order|
    requires order[k] in parent && n > 0
    ensures Up(parent, order[k], n) in order[..k]
    ensures Up(parent, order[k], n) != order[k]
    decreases n
  {
    var p := parent[order[k]];
    assert p in order[..k];
    var i :| 0 <= i < k && order[..k][i] == p;
    if n > 1 && p in parent {
      ClimbsDown(ids, parent, order, i, n - 1);
      var u := Up(parent, p, n - 1);
      var j :| 0 <= j < i && order[..i][j] == u;
      assert order[..k][j] == u;
    } else {
      assert Up(parent, p, n - 1) == p;
    }
    var u := Up(parent, order[k], n);
    var j :| 0 <= j < k && order[..k][j] == u;
  }

  // ------------------------------------------------------ orderRebuilds

  /** How many selected bases of `x` are still to be taken. */
  ghost function Waiting(parent: map<string, string>, taken: seq<string>, x: string): nat {
    if x in parent && parent[x] !in taken then 1 else 0
  }

  /** The dependents recorded under each selected environment. */
  ghost predicate ChildrenOf(ids: set<string>, parent: map<string, string>, children: map<string, seq<string>>) {
    && children.Keys == ids
    && forall p | p in children ::
         NoDuplicates(children[p]) && forall x :: x in children[p] <==> x in parent && parent[x] == p
  }

  ghost predicate Indegrees(ids: set<string>, parent: map<string, string>, taken: seq<string>, indegree: map<string, nat>) {
    indegree.Keys == ids && forall x | x in ids :: indegree[x] == Waiting(parent, taken, x)
  }

  lemma ByIdOfMember(envs: seq<Environment>, i: nat)
    requires DistinctIds(envs) && i < |envs|
    ensures ById(envs)[envs[i].id] == envs[i]
  {
    var e := ById(envs)[envs[i].id];
    var j :| 0 <= j < |envs| && envs[j] == e;
  }

  /** The two maps after the rows with an id in `seen`. */
  ghost predicate Counted(ids: set<string>, parent: map<string, string>, seen: set<string>,
                          indegree: map<string, nat>, children: map<string, seq<string>>) {
    && indegree.Keys == ids && children.Keys == ids
    && (forall x | x in ids :: indegree[x] == if x in seen && x in parent then 1 else 0)
    && (forall p | p in ids ::
          NoDuplicates(children[p]) && forall x :: x in children[p] <==> x in seen && x in parent && parent[x] == p)
  }

  lemma CountStep(ids: set<string>, parent: map<string, string>, seen: set<string>,
                  indegree: map<string, nat>, children: map<string, seq<string>>, x: string)
    requires Counted(ids, parent, seen, indegree, children)
    requires x in ids && x !in seen && x in parent && parent[x] in ids
    ensures Counted(ids, parent, seen + {x}, indegree[x := indegree[x] + 1],
                    children[parent[x] := children[parent[x]] + [x]])
  {
    assert x !in children[parent[x]];
  }

  /** How the rows describe the abstract graph. */
  ghost predicate Describes(envs: seq<Environment>, ids: set<string>, parent: map<string, string>) {
    && (forall i :: 0 <= i < |envs| ==> envs[i].id in ids)
    && |ids| == |envs|
    && (forall i :: 0 <= i < |envs| ==>
          (envs[i].id in parent <==> envs[i].base != "" && envs[i].base in ids)
          && (envs[i].id in parent ==> parent[envs[i].id] == envs[i].base))
  }

  lemma RowsDescribe(envs: seq<Environment>)
    requires DistinctIds(envs)
    ensures Describes(envs, ById(envs).Keys, Bases(envs))
  {
    forall i | 0 <= i < |envs| ensures ById(envs)[envs[i].id] == envs[i] { ByIdOfMember(envs, i); }
    DistinctIdCount(envs);
  }

  ghost function Seen(envs: seq<Environment>, i: nat): set<string>
    requires i <= |envs|
  {
    if i == 0 then {} else Seen(envs, i - 1) + {envs[i - 1].id}
  }

  lemma {:induction false} SeenBefore(envs: seq<Environment>, i: nat, j: nat)
    requires DistinctIds(envs) && i <= j < |envs|
    ensures envs[j].id !in Seen(envs, i)
  {
    if i > 0 { SeenBefore(envs, i - 1, j); }
  }

  lemma SeenStep(envs: seq<Environment>, i: nat)
    requires DistinctIds(envs) && i < |envs|
    ensures envs[i].id !in Seen(envs, i) && Seen(envs, i + 1) == Seen(envs, i) + {envs[i].id}
  {
    SeenBefore(envs, i, i);
  }

  lemma {:induction false} SeenSize(envs: seq<Environment>, ids: set<string>, i: nat)
    requires DistinctIds(envs) && i <= |envs|
    requires forall j :: 0 <= j < |envs| ==> envs[j].id in ids
    ensures Seen(envs, i) <= ids && |Seen(envs, i)| == i
  {
    if i > 0 {
      SeenSize(envs, ids, i - 1);
      SeenBefore(envs, i - 1, i - 1);
    }
  }

  lemma SeenAll(envs: seq<Environment>, ids: set<string>, parent: map<string, string>)
    requires DistinctIds(envs) && Describes(envs, ids, parent)
    ensures Seen(envs, |envs|) == ids
  {
    SeenSize(envs, ids, |envs|);
    if Seen(envs, |envs|) != ids { ProperSubsetSize(Seen(envs, |envs|), ids); }
  }

  /** The body of the first loop. */
  method CountRow(row: Environment, ids: set<string>, ghost parent: map<string, string>, ghost seen: set<string>,
                  degrees: map<string, nat>, kids: map<string, seq<string>>)
    returns (indegree: map<string, nat>, children: map<string, seq<string>>)
    requires Counted(ids, parent, seen, degrees, kids) && row.id in ids && row.id !in seen
    requires row.id in parent <==> row.base != "" && row.base in ids
    requires row.id in parent ==> parent[row.id] == row.base
    ensures Counted(ids, parent, seen + {row.id}, indegree, children)
  {
    indegree, children := degrees, kids;
    if row.base != "" && row.base in ids {
      CountStep(ids, parent, seen, indegree, children, row.id);
      indegree := indegree[row.id := indegree[row.id] + 1];
      children := children[row.base := children[row.base] + [row.id]];
    }
  }

  /** The first loop: count selected bases and collect dependents. */
  method CountBases(envs: seq<Environment>, ids: set<string>, ghost parent: map<string, string>)
    returns (indegree: map<string, nat>, children: map<string, seq<string>>)
    requires DistinctIds(envs) && Describes(envs, ids, parent)
    ensures Counted(ids, parent, ids, indegree, children)
  {
    indegree := map k | k in ids :: 0;
    children := map k | k in ids :: [];
    for i := 0 to |envs|
      invariant Counted(ids, parent, Seen(envs, i), indegree, children)
    {
      SeenStep(envs, i);
      indegree, children := CountRow(envs[i], ids, parent, Seen(envs, i), indegree, children);
    }
    SeenAll(envs, ids, parent);
  }

  /** Taking `id` frees exactly its dependents. */
  method Release(dependents: seq<string>, indegree: map<string, nat>, ready: seq<string>)
    returns (indegree': map<string, nat>, ready': seq<string>)
    requires NoDuplicates(dependents)
    requires forall x | x in dependents :: x in indegree && indegree[x] == 1 && x !in ready
    requires NoDuplicates(ready)
    ensures indegree'.Keys == indegree.Keys
    ensures forall x | x in indegree :: indegree'[x] == if x in dependents then 0 else indegree[x]
    ensures NoDuplicates(ready') && Elements(ready') == Elements(ready) + Elements(dependents)
  {
    indegree', ready' := indegree, ready;
    for i := 0 to |dependents|
      invariant indegree'.Keys == indegree.Keys
      invariant forall x | x in indegree :: indegree'[x] == if x in dependents[..i] then 0 else indegree[x]
      invariant ready' == ready + dependents[..i]
    {
      var child := dependents[i];
      assert child !in dependents[..i];
      var next := indegree'[child] - 1;
      indegree' := indegree'[child := next];
      if next == 0 { ready' := ready' + [child]; }
      assert dependents[..i + 1] == dependents[..i] + [child];
    }
    assert dependents[..|dependents|] == dependents;
    forall i, j | 0 <= i < j < |ready'| ensures ready'[i] != ready'[j] {
      if i < |ready| <= j { assert ready'[j] in dependents && ready'[i] in ready; }
    }
  }

  lemma AscendingDistinct(s: seq<string>)
    requires Ascending(s)
    ensures NoDuplicates(s)
  {
    forall i, j | 0 <= i < j < |s| ensures s[i] != s[j] { Asymmetric(s[i], s[j]); }
  }

  /** One turn of the loop, on the abstract graph. */
  lemma TakeKeeps(ids: set<string>, parent: map<string, string>, taken: seq<string>, ready: seq<string>)
    requires Greedy(ids, parent, taken)
    requires Ascending(ready) && Elements(ready) == Ready(ids, parent, taken) && ready != []
    ensures Greedy(ids, parent, taken + [ready[0]])
    ensures Ready(ids, parent, taken + [ready[0]])
            == (Ready(ids, parent, taken) - {ready[0]}) + set x | x in ids && x in parent && parent[x] == ready[0] && x !in taken && x != ready[0]
  {
    var order := taken + [ready[0]];
    assert ready[0] in Elements(ready);
    forall k | 0 <= k < |order|
      ensures order[k] in Ready(ids, parent, order[..k])
      ensures forall x | x in Ready(ids, parent, order[..k]) :: x == order[k] || Less(order[k], x)
    {
      if k < |taken| {
        assert order[..k] == taken[..k];
      } else {
        assert order[..k] == taken;
        forall x | x in Ready(ids, parent, taken) ensures x == ready[0] || Less(ready[0], x) {
          assert x in Elements(ready);
          HeadIsLeast(ready, x);
        }
      }
    }
  }

  /** `entries().filter(value === 0).map(id)`; the order is that of the rows. */
  function ZeroIds(envs: seq<Environment>, indegree: map<string, nat>): (r: seq<string>)
    requires DistinctIds(envs)
    requires forall e | e in envs :: e.id in indegree
    ensures forall x :: x in r <==> (exists e :: e in envs && e.id == x) && indegree[x] == 0
    ensures NoDuplicates(r)
  {
    if envs == [] then []
    else
      assert envs == [envs[0]] + envs[1..];
      var rest := ZeroIds(envs[1..], indegree);
      if indegree[envs[0].id] == 0 then [envs[0].id] + rest else rest
  }

  /** A dependent is taken only after its base. */
  lemma TakenAfterBase(ids: set<string>, parent: map<string, string>, taken: seq<string>, x: string)
    requires Greedy(ids, parent, taken) && x in taken && x in parent
    ensures parent[x] in taken
  {
    var k :| 0 <= k < |taken| && taken[k] == x;
    assert taken[k] in Ready(ids, parent, taken[..k]);
  }

  lemma {:induction false} DistinctIdCount(envs: seq<Environment>)
    requires DistinctIds(envs)
    ensures |ById(envs).Keys| == |envs|
  {
    if envs != [] {
      var init, last := envs[..|envs| - 1], envs[|envs| - 1];
      DistinctIdCount(init);
      assert last.id !in ById(init).Keys by {
        forall e | e in init ensures e.id != last.id {
          var j :| 0 <= j < |init| && init[j] == e;
          assert envs[j] == e;
        }
      }
      assert ById(envs).Keys == ById(init).Keys + {last.id};
    }
  }

  /** With nothing ready and something left, the rest is stuck on a cycle. */
  lemma LeftoversCycle(ids: set<string>, parent: map<string, string>, taken: seq<string>)
    requires Ready(ids, parent, taken) == {} && !(ids <= Elements(taken))
    requires forall x | x in parent :: parent[x] in ids
    ensures HasCycle(parent)
  {
    var left :| left in ids && left !in Elements(taken);
    var stuck := ids - Elements(taken);
    assert left in stuck;
    forall x | x in stuck ensures x in parent && parent[x] in stuck {
      assert x !in Ready(ids, parent, taken);
    }
    StuckMeansCycle(parent, stuck);
  }

  /** When nothing is ready any more, everything was taken or there is a cycle. */
  lemma Finish(envs: seq<Environment>, taken: seq<string>)
    requires DistinctIds(envs)
    requires Greedy(ById(envs).Keys, Bases(envs), taken)
    requires Ready(ById(envs).Keys, Bases(envs), taken) == {}
    ensures |taken| == |envs| <==> !HasCycle(Bases(envs))
    ensures |taken| == |envs| ==> IsOrder(ById(envs).Keys, Bases(envs), taken)
  {
    var ids, parent := ById(envs).Keys, Bases(envs);
    GreedyIsOrdered(ids, parent, taken);
    DistinctIdCount(envs);
    Counts(taken);
    if Elements(taken) == ids {
      OrderMeansNoCycle(ids, parent, taken);
    } else {
      LeftoversCycle(ids, parent, taken);
      ProperSubsetSize(Elements(taken), ids);
    }
  }

  lemma ProperSubsetSize(a: set<string>, b: set<string>)
    requires a < b
    ensures |a| < |b|
  {
    var x :| x in b && x !in a;
    SubsetSize(a, b - {x});
  }

  ghost function Freed(ids: set<string>, parent: map<string, string>, taken: seq<string>, id: string): set<string> {
    set x | x in ids && x in parent && parent[x] == id && x !in taken && x != id
  }

  lemma DependentsAreFreed(ids: set<string>, parent: map<string, string>, taken: seq<string>, id: string,
                           dependents: seq<string>, indegree: map<string, nat>)
    requires Greedy(ids, parent, taken) && id in Ready(ids, parent, taken)
    requires parent.Keys <= ids && Indegrees(ids, parent, taken, indegree)
    requires forall x :: x in dependents <==> x in parent && parent[x] == id
    ensures Elements(dependents) == Freed(ids, parent, taken, id)
    ensures forall x | x in dependents :: x in ids && indegree[x] == 1 && x !in Ready(ids, parent, taken)
  {
    forall x | x in dependents ensures x !in taken && x != id && x in ids {
      if x in taken { TakenAfterBase(ids, parent, taken, x); }
    }
  }

  /** The state of the main loop. */
  ghost predicate Loop(ids: set<string>, parent: map<string, string>, taken: seq<string>,
                       ready: seq<string>, indegree: map<string, nat>) {
    && parent.Keys <= ids
    && Greedy(ids, parent, taken)
    && Ascending(ready) && Elements(ready) == Ready(ids, parent, taken)
    && Indegrees(ids, parent, taken, indegree)
  }

  lemma ReleasedIndegrees(ids: set<string>, parent: map<string, string>, taken: seq<string>, id: string,
                          dependents: seq<string>, indegree: map<string, nat>, indegree': map<string, nat>)
    requires Indegrees(ids, parent, taken, indegree) && indegree'.Keys == ids
    requires forall x :: x in dependents <==> x in parent && parent[x] == id
    requires forall x | x in ids :: indegree'[x] == if x in dependents then 0 else indegree[x]
    ensures Indegrees(ids, parent, taken + [id], indegree')
  {
    forall x | x in ids ensures indegree'[x] == Waiting(parent, taken + [id], x) {}
  }

  /** The body of the main loop: take the head, release its dependents, sort. */
  method TakeHead(ghost ids: set<string>, ghost parent: map<string, string>, ghost taken: seq<string>,
                  ready: seq<string>, indegree: map<string, nat>, children: map<string, seq<string>>)
    returns (ready': seq<string>, indegree': map<string, nat>)
    requires Loop(ids, parent, taken, ready, indegree) && ready != []
    requires ChildrenOf(ids, parent, children) && ready[0] in ids
    ensures Loop(ids, parent, taken + [ready[0]], ready', indegree')
    ensures ready[0] !in Elements(taken) && Elements(taken + [ready[0]]) == Elements(taken) + {ready[0]}
  {
    var id := ready[0];
    assert id in Elements(ready);
    TakeKeeps(ids, parent, taken, ready);
    AscendingDistinct(ready);
    var dependents := Sorted(children[id]);
    SortedMembers(children[id]);
    DependentsAreFreed(ids, parent, taken, id, dependents, indegree);
    assert Elements(ready[1..]) == Elements(ready) - {id} by { assert ready == [id] + ready[1..]; }
    forall x | x in dependents ensures x !in ready[1..] { assert x !in Elements(ready); }
    var unsorted;
    indegree', unsorted := Release(dependents, indegree, ready[1..]);
    ReleasedIndegrees(ids, parent, taken, id, dependents, indegree, indegree');
    SortedMembers(unsorted);
    ready' := Sorted(unsorted);
  }

  lemma SortedMembers(s: seq<string>)
    requires NoDuplicates(s)
    ensures Ascending(Sorted(s)) && NoDuplicates(Sorted(s))
    ensures forall x :: x in Sorted(s) <==> x in s
  {
    SortedAscends(s);
    AscendingDistinct(Sorted(s));
    forall x ensures x in Sorted(s) <==> x in s {
      assert x in Elements(Sorted(s)) <==> x in Elements(s);
    }
  }

  /** The main loop, from the counted rows to an empty ready list. */
  method Drain(byId: map<string, Environment>, ghost parent: map<string, string>, first: seq<string>,
               degrees: map<string, nat>, children: map<string, seq<string>>)
    returns (ordered: seq<Environment>)
    requires Loop(byId.Keys, parent, [], first, degrees) && ChildrenOf(byId.Keys, parent, children)
    requires forall k | k in byId :: byId[k].id == k
    ensures forall i :: 0 <= i < |ordered| ==> ordered[i].id in byId && ordered[i] == byId[ordered[i].id]
    ensures Greedy(byId.Keys, parent, IdsOf(ordered)) && Ready(byId.Keys, parent, IdsOf(ordered)) == {}
  {
    var ready, indegree := first, degrees;
    ordered := [];
    ghost var taken: seq<string> := [];
    while ready != []
      invariant forall i :: 0 <= i < |ordered| ==> ordered[i].id in byId && ordered[i] == byId[ordered[i].id]
      invariant taken == IdsOf(ordered)
      invariant Loop(byId.Keys, parent, taken, ready, indegree)
      decreases byId.Keys - Elements(taken)
    {
      var id := ready[0];
      assert id in Elements(ready);
      ordered := ordered + [byId[id]];
      ready, indegree := TakeHead(byId.Keys, parent, taken, ready, indegree, children);
      taken := taken + [id];
    }
    assert Elements(ready) == {};
  }

  function IdsOf(envs: seq<Environment>): (r: seq<string>)
    ensures |r| == |envs| && forall i :: 0 <= i < |envs| ==> r[i] == envs[i].id
  {
    seq(|envs|, i requires 0 <= i < |envs| => envs[i].id)
  }

  /** `None` stands for the thrown cycle error.  Otherwise the result is the least
      of all orders of the selection that put every base before its dependents. */
  ghost predicate OrderSpec(envs: seq<Environment>, r: Option<seq<Environment>>) {
    var ids, parent := ById(envs).Keys, Bases(envs);
    && (r.None? <==> HasCycle(parent))
    && (r.Some? ==>
          && (forall e | e in r.value :: e in envs)
          && IsOrder(ids, parent, IdsOf(r.value))
          && forall other | IsOrder(ids, parent, other) :: |other| == |r.value| && LexAtMost(IdsOf(r.value), other))
  }

  lemma OrderFound(envs: seq<Environment>, ordered: seq<Environment>)
    requires DistinctIds(envs)
    requires forall i :: 0 <= i < |ordered| ==> ordered[i] in envs
    requires Greedy(ById(envs).Keys, Bases(envs), IdsOf(ordered))
    requires Ready(ById(envs).Keys, Bases(envs), IdsOf(ordered)) == {}
    ensures OrderSpec(envs, if |ordered| == |envs| then Some(ordered) else None)
  {
    Finish(envs, IdsOf(ordered));
    if |ordered| == |envs| { LeastOfAll(ById(envs).Keys, Bases(envs), IdsOf(ordered)); }
  }

  method OrderRebuilds(envs: seq<Environment>) returns (r: Option<seq<Environment>>)
    requires DistinctIds(envs)
    ensures OrderSpec(envs, r)
  {
    var byId := ById(envs);
    ghost var parent := Bases(envs);
    RowsDescribe(envs);
    var indegree, children := CountBases(envs, byId.Keys, parent);
    var ready := Sorted(ZeroIds(envs, indegree));
    InitiallyReady(envs, indegree);
    var ordered := Drain(byId, parent, ready, indegree, children);
    OrderFound(envs, ordered);
    if |ordered| != |envs| { return None; }
    return Some(ordered);
  }

  lemma InitiallyReady(envs: seq<Environment>, indegree: map<string, nat>)
    requires DistinctIds(envs) && Indegrees(ById(envs).Keys, Bases(envs), [], indegree)
    ensures Loop(ById(envs).Keys, Bases(envs), [], Sorted(ZeroIds(envs, indegree)), indegree)
  {
    var zero, start := ZeroIds(envs, indegree), Ready(ById(envs).Keys, Bases(envs), []);
    SortedMembers(zero);
    forall x ensures x in Elements(Sorted(zero)) <==> x in start {
      if x in start { assert ById(envs)[x] in envs && ById(envs)[x].id == x; }
    }
  }

  lemma LeastOfAll(ids: set<string>, parent: map<string, string>, order: seq<string>)
    requires Greedy(ids, parent, order) && IsOrder(ids, parent, order)
    ensures forall other | IsOrder(ids, parent, other) :: |other| == |order| && LexAtMost(order, other)
  {
    forall other | IsOrder(ids, parent, other) ensures |other| == |order| && LexAtMost(order, other) {
      GreedyIsLeast(ids, parent, order, other);
    }
  }
}
