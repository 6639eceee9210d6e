/** The order of JavaScript's string comparison and of `Array.prototype.sort`
    without a comparator: lexicographic by character. */
module StringOrder {

  predicate Less(a: string, b: string) {
    b != "" && (a == "" || a[0] < b[0] || (a[0] == b[0] && Less(a[1..], b[1..])))
  }

  /** `b` goes on where `a` ends, or has the greater character at the first difference. */
  ghost predicate DiffersUpward(a: string, b: string, k: nat) {
    k <= |a| && k < |b| && a[..k] == b[..k] && (k == |a| || a[k] < b[k])
  }

  lemma SharedHead(a: string, b: string, k: nat)
    ensures DiffersUpward(a, b, k) && k > 0 ==> a[0] == b[0]
  {
    if DiffersUpward(a, b, k) && k > 0 { assert a[..k][0] == b[..k][0]; }
  }

  /** The order reads off the first difference of two strings. */
  lemma {:induction false} LessIff(a: string, b: string)
    ensures Less(a, b) <==> exists k: nat :: DiffersUpward(a, b, k)
  {
    if a != "" && b != "" && a[0] == b[0] {
      LessIff(a[1..], b[1..]);
      if Less(a[1..], b[1..]) {
        var k: nat :| DiffersUpward(a[1..], b[1..], k);
        assert a[..k + 1] == [a[0]] + a[1..][..k] && b[..k + 1] == [b[0]] + b[1..][..k];
        assert DiffersUpward(a, b, k + 1);
      }
      forall k: nat | DiffersUpward(a, b, k) ensures Less(a, b) {
        assert k > 0 && a[1..][..k - 1] == a[..k][1..] && b[1..][..k - 1] == b[..k][1..];
        assert DiffersUpward(a[1..], b[1..], k - 1);
      }
    } else {
      assert Less(a, b) ==> DiffersUpward(a, b, 0);
      forall k: nat | DiffersUpward(a, b, k) ensures k == 0 { SharedHead(a, b, k); }
    }
  }

  lemma {:induction false} Irreflexive(a: string)
    ensures !Less(a, a)
  {
    if a != "" { Irreflexive(a[1..]); }
  }

  lemma {:induction false} Trans(a: string, b: string, c: string)
    requires Less(a, b) && Less(b, c)
    ensures Less(a, c)
  {
    if a != "" && a[0] == b[0] && b[0] == c[0] { Trans(a[1..], b[1..], c[1..]); }
  }

  lemma {:induction false} Total(a: string, b: string)
    ensures Less(a, b) || a == b || Less(b, a)
  {
    if a != "" && b != "" && a[0] == b[0] {
      Total(a[1..], b[1..]);
      assert a == [a[0]] + a[1..] && b == [b[0]] + b[1..];
    }
  }

  lemma Asymmetric(a: string, b: string)
    requires Less(a, b)
    ensures !Less(b, a) && a != b
  {
    if Less(b, a) { Trans(a, b, a); }
    Irreflexive(a);
  }

  ghost predicate Ascending(s: seq<string>) {
    forall i, j :: 0 <= i < j < |s| ==> Less(s[i], s[j])
  }

  ghost predicate NoDuplicates<T>(s: seq<T>) {
    forall i, j :: 0 <= i < j < |s| ==> s[i] != s[j]
  }

  function Elements<T>(s: seq<T>): set<T> { set x | x in s }

  function Insert(s: seq<string>, x: string): (r: seq<string>)
    ensures Elements(r) == Elements(s) + {x}
    ensures |r| == |s| + 1
  {
    if s == [] then [x]
    else if Less(x, s[0]) then [x] + s
    else
      var r := [s[0]] + Insert(s[1..], x);
      assert Elements(s) == {s[0]} + Elements(s[1..]) by { assert s == [s[0]] + s[1..]; }
      assert Elements(r) == {s[0]} + Elements(Insert(s[1..], x));
      r
  }

  /** `toSorted()`. */
  function Sorted(s: seq<string>): (r: seq<string>)
    ensures Elements(r) == Elements(s)
    ensures |r| == |s|
  {
    if s == [] then []
    else
      assert Elements(s) == {s[0]} + Elements(s[1..]) by { assert s == [s[0]] + s[1..]; }
      Insert(Sorted(s[1..]), s[0])
  }

  lemma {:induction false} InsertAscends(s: seq<string>, x: string)
    requires Ascending(s) && x !in s
    ensures Ascending(Insert(s, x))
  {
    if s == [] {
    } else if Less(x, s[0]) {
      forall j | 0 <= j < |s| ensures Less(x, s[j]) {
        if j > 0 { Trans(x, s[0], s[j]); }
      }
    } else {
      Total(x, s[0]);
      InsertAscends(s[1..], x);
      var rest := Insert(s[1..], x);
      forall j | 0 <= j < |rest| ensures Less(s[0], rest[j]) {
        assert rest[j] in Elements(rest);
      }
    }
  }

  lemma {:induction false} SortedAscends(s: seq<string>)
    requires NoDuplicates(s)
    ensures Ascending(Sorted(s))
  {
    if s != [] {
      SortedAscends(s[1..]);
      assert s[0] !in s[1..];
      assert s[0] !in Elements(Sorted(s[1..]));
      InsertAscends(Sorted(s[1..]), s[0]);
    }
  }

  /** In an ascending list the head is the least element. */
  lemma HeadIsLeast(s: seq<string>, x: string)
    requires Ascending(s) && x in s
    ensures x == s[0] || Less(s[0], x)
  {
  }

  /** Dictionary order on lists of strings of equal length. */
  ghost predicate LexAtMost(a: seq<string>, b: seq<string>)
    requires |a| == |b|
  {
    a == b || exists k :: 0 <= k < |a| && a[..k] == b[..k] && Less(a[k], b[k])
  }
}
