/** Commits and reachability.  A commit hash stands for the whole history behind
    it, so a commit is the tree of its parents; `id` stands for everything else
    the hash covers (tree, author, message).  The graph is therefore immutable
    and acyclic by construction. */
module CommitGraph {

  datatype Commit = Commit(id: nat, parents: seq<Commit>)

  /** `git merge-base --is-ancestor a b`: every commit is its own ancestor. */
  predicate Ancestor(a: Commit, b: Commit)
    decreases b
  {
    a == b || exists i :: 0 <= i < |b.parents| && Ancestor(a, b.parents[i])
  }

  lemma AncestorOfItself(c: Commit)
    ensures Ancestor(c, c)
  {
  }

  predicate Comparable(a: Commit, b: Commit) { Ancestor(a, b) || Ancestor(b, a) }

  lemma {:induction false} AncestorTransitive(a: Commit, b: Commit, c: Commit)
    requires Ancestor(a, b) && Ancestor(b, c)
    ensures Ancestor(a, c)
    decreases c
  {
    if b != c {
      var i :| 0 <= i < |c.parents| && Ancestor(b, c.parents[i]);
      AncestorTransitive(a, b, c.parents[i]);
    }
  }

  lemma ParentsAreAncestors(c: Commit)
    ensures forall p | p in c.parents :: Ancestor(p, c)
  {
    forall p | p in c.parents ensures Ancestor(p, c) {
      var i :| 0 <= i < |c.parents| && c.parents[i] == p;
      assert Ancestor(p, c.parents[i]);
    }
  }

  /** Length of the longest chain of parents. */
  function Height(c: Commit): (h: nat)
    decreases c, 1
  {
    1 + MaxHeight(c.parents)
  }

  function MaxHeight(cs: seq<Commit>): (h: nat)
    ensures forall i :: 0 <= i < |cs| ==> Height(cs[i]) <= h
    decreases cs, 0
  {
    if cs == [] then 0
    else
      var rest := MaxHeight(cs[1..]);
      assert forall i :: 1 <= i < |cs| ==> cs[i] == cs[1..][i - 1];
      if Height(cs[0]) > rest then Height(cs[0]) else rest
  }

  lemma {:induction false} ProperAncestorIsLower(a: Commit, b: Commit)
    requires Ancestor(a, b) && a != b
    ensures Height(a) < Height(b)
    decreases b
  {
    var i :| 0 <= i < |b.parents| && Ancestor(a, b.parents[i]);
    if a != b.parents[i] { ProperAncestorIsLower(a, b.parents[i]); }
  }

  /** Reachability is a partial order: no commit is reachable from its own past. */
  lemma AncestorAntisymmetric(a: Commit, b: Commit)
    requires Ancestor(a, b) && Ancestor(b, a)
    ensures a == b
  {
    if a != b {
      ProperAncestorIsLower(a, b);
      ProperAncestorIsLower(b, a);
    }
  }

  type Refs = map<string, Commit>

  /** Branches survive and only move forward: what non-force pushes can do. */
  predicate Advanced(before: Refs, after: Refs) {
    forall b | b in before :: b in after && Ancestor(before[b], after[b])
  }

  lemma AdvancedReflexive(r: Refs)
    ensures Advanced(r, r)
  {
    forall b | b in r ensures Ancestor(r[b], r[b]) {}
  }

  lemma AdvancedTransitive(r: Refs, s: Refs, t: Refs)
    requires Advanced(r, s) && Advanced(s, t)
    ensures Advanced(r, t)
  {
    forall b | b in r ensures b in t && Ancestor(r[b], t[b]) {
      AncestorTransitive(r[b], s[b], t[b]);
    }
  }
}
