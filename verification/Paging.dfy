/** Message paging of `listMessages`, its cursors, and the unread count.  One
    total order serves display (createdAt, id) and change delivery
    (updatedAt, id). */
module Paging {
  import opened StringOrder
  import opened Text
  import opened Wrappers

  datatype Message = Message(id: string, createdAt: string, updatedAt: string)

  datatype Field = CreatedAt | UpdatedAt

  datatype Key = Key(ts: string, id: string)

  function KeyOf(m: Message, f: Field): Key {
    Key(if f.CreatedAt? then m.createdAt else m.updatedAt, m.id)
  }

  predicate KeyLess(a: Key, b: Key) {
    if a.ts != b.ts then Less(a.ts, b.ts) else Less(a.id, b.id)
  }

  lemma KeyTotal(a: Key, b: Key)
    ensures KeyLess(a, b) || a == b || KeyLess(b, a)
    ensures !KeyLess(a, a) && !(KeyLess(a, b) && KeyLess(b, a))
  {
    Total(a.ts, b.ts);
    Total(a.id, b.id);
    Irreflexive(a.id);
    if KeyLess(a, b) {
      if a.ts != b.ts { Asymmetric(a.ts, b.ts); } else { Asymmetric(a.id, b.id); }
    }
  }

  lemma KeyTrans(a: Key, b: Key, c: Key)
    requires KeyLess(a, b) && KeyLess(b, c)
    ensures KeyLess(a, c)
  {
    if a.ts != b.ts {
      if b.ts != c.ts { Trans(a.ts, b.ts, c.ts); }
      if a.ts == c.ts { Irreflexive(a.ts); }
    } else if b.ts == c.ts {
      Trans(a.id, b.id, c.id);
    }
  }

  // ------------------------------------------------------------- sorting

  ghost predicate SortedBy(s: seq<Message>, f: Field) {
    forall i, j :: 0 <= i < j < |s| ==> KeyLess(KeyOf(s[i], f), KeyOf(s[j], f))
  }

  /** Message ids are unique within a discussion. */
  ghost predicate UniqueIds(s: seq<Message>) {
    forall i, j :: 0 <= i < j < |s| ==> s[i].id != s[j].id
  }

  function Place(s: seq<Message>, m: Message, f: Field): (r: seq<Message>)
    ensures multiset(r) == multiset(s) + multiset{m}
  {
    if s == [] then [m]
    else if KeyLess(KeyOf(m, f), KeyOf(s[0], f)) then [m] + s
    else
      assert s == [s[0]] + s[1..];
      [s[0]] + Place(s[1..], m, f)
  }

  /** `toSorted(compareBy(f))`. */
  function ToSorted(s: seq<Message>, f: Field): (r: seq<Message>)
    ensures multiset(r) == multiset(s)
  {
    if s == [] then []
    else
      assert s == [s[0]] + s[1..];
      Place(ToSorted(s[1..], f), s[0], f)
  }

  lemma {:induction false} PlaceSorts(s: seq<Message>, m: Message, f: Field)
    requires SortedBy(s, f) && forall x | x in s :: x.id != m.id
    ensures SortedBy(Place(s, m, f), f)
  {
    if s == [] {
    } else if KeyLess(KeyOf(m, f), KeyOf(s[0], f)) {
      forall j | 0 < j < |s| ensures KeyLess(KeyOf(m, f), KeyOf(s[j], f)) {
        KeyTrans(KeyOf(m, f), KeyOf(s[0], f), KeyOf(s[j], f));
      }
    } else {
      KeyTotal(KeyOf(m, f), KeyOf(s[0], f));
      PlaceSorts(s[1..], m, f);
      var rest := Place(s[1..], m, f);
      forall j | 0 <= j < |rest| ensures KeyLess(KeyOf(s[0], f), KeyOf(rest[j], f)) {
        assert rest[j] in multiset(rest);
      }
    }
  }

  lemma {:induction false} ToSortedSorts(s: seq<Message>, f: Field)
    requires UniqueIds(s)
    ensures SortedBy(ToSorted(s, f), f)
  {
    if s != [] {
      ToSortedSorts(s[1..], f);
      forall x | x in ToSorted(s[1..], f) ensures x.id != s[0].id {
        assert x in multiset(ToSorted(s[1..], f));
        assert x in s[1..];
      }
      PlaceSorts(ToSorted(s[1..], f), s[0], f);
    }
  }

  /** There is one sorted list, whatever order the graph returned the rows in. */
  lemma {:induction false} SortedIsUnique(a: seq<Message>, b: seq<Message>, f: Field)
    requires SortedBy(a, f) && SortedBy(b, f) && multiset(a) == multiset(b)
    ensures a == b
  {
    assert |a| == |multiset(a)| == |multiset(b)| == |b|;
    if a != [] {
      SameHead(a, b, f);
      assert a == [a[0]] + a[1..] && b == [b[0]] + b[1..];
      assert multiset(a[1..]) == multiset(a) - multiset{a[0]};
      SortedIsUnique(a[1..], b[1..], f);
    }
  }

  lemma SameHead(a: seq<Message>, b: seq<Message>, f: Field)
    requires SortedBy(a, f) && SortedBy(b, f) && multiset(a) == multiset(b) && a != [] && b != []
    ensures a[0] == b[0]
  {
    assert a[0] in multiset(b) && b[0] in multiset(a);
    var i :| 0 <= i < |b| && b[i] == a[0];
    var j :| 0 <= j < |a| && a[j] == b[0];
    KeyTotal(KeyOf(a[0], f), KeyOf(b[0], f));
  }

  // ------------------------------------------------------------- cursors

  datatype Cursor = Absent | Malformed | At(key: Key)

  function ParseCursor(raw: string): Cursor {
    if raw == "" then Absent
    else
      var idx := IndexOf(raw, ',');
      if idx <= 0 || idx == |raw| - 1 then Malformed else At(Key(raw[..idx], raw[idx + 1..]))
  }

  function PrintCursor(k: Key): string { k.ts + "," + k.id }

  predicate CommaFree(s: string) { ',' !in s }

  /** The printed cursor comes back exactly when both halves are there and the
      timestamp has no comma of its own; the id may have commas. */
  lemma CursorRoundTrip(k: Key)
    ensures ParseCursor(PrintCursor(k)) == At(k) <==> k.ts != "" && k.id != "" && CommaFree(k.ts)
  {
    var raw := PrintCursor(k);
    if CommaFree(k.ts) {
      IndexOfIs(k.ts, k.id, ',');
      assert raw == k.ts + [','] + k.id;
      assert raw[..|k.ts|] == k.ts && raw[|k.ts| + 1..] == k.id;
    } else {
      var j :| 0 <= j < |k.ts| && k.ts[j] == ',';
      IndexOfAtMost(raw, ',', j);
    }
  }

  // -------------------------------------------------------- listMessages

  const DEFAULT_PAGE_SIZE: nat := 100
  const MAX_PAGE_SIZE: nat := 200

  datatype Response = Page(messages: seq<Message>, hasMore: bool) | BadRequest

  /** The requested page size; `None` stands for a value that is not a number. */
  function Limit(requested: Option<int>): (limit: nat)
    ensures 1 <= limit <= MAX_PAGE_SIZE
  {
    var n := if requested.None? || requested.value < 1 then DEFAULT_PAGE_SIZE else requested.value;
    if n < MAX_PAGE_SIZE then n else MAX_PAGE_SIZE
  }

  /** A size that is asked for is granted up to 200; without one a page has 100. */
  lemma LimitGranted(requested: Option<int>)
    ensures requested.Some? && 1 <= requested.value <= 200 ==> Limit(requested) == requested.value
    ensures requested.Some? && requested.value > 200 ==> Limit(requested) == 200
    ensures requested.None? || requested.value < 1 ==> Limit(requested) == 100
  {}

  function Older(s: seq<Message>, c: Key): (r: seq<Message>)
    ensures |r| <= |s|
  {
    if s == [] then []
    else (if Less(s[0].createdAt, c.ts) || (s[0].createdAt == c.ts && Less(s[0].id, c.id)) then [s[0]] else []) + Older(s[1..], c)
  }

  function Newer(s: seq<Message>, c: Key): (r: seq<Message>)
    ensures |r| <= |s|
  {
    if s == [] then []
    else (if Less(c.ts, s[0].updatedAt) || (s[0].updatedAt == c.ts && Less(c.id, s[0].id)) then [s[0]] else []) + Newer(s[1..], c)
  }

  /** `slice(-n)` and `slice(0, n)`. */
  function LastOf<T>(s: seq<T>, n: nat): seq<T> { if n < |s| then s[|s| - n..] else s }

  function FirstOf<T>(s: seq<T>, n: nat): seq<T> { if n < |s| then s[..n] else s }

  function ListMessages(all: seq<Message>, before: string, after: string, requested: Option<int>): Response {
    var limit := Limit(requested);
    var b, a := ParseCursor(before), ParseCursor(after);
    if b.Malformed? || a.Malformed? then BadRequest
    else if b.At? && a.At? then BadRequest
    else if a.At? then
      var newer := Newer(ToSorted(all, UpdatedAt), a.key);
      Page(FirstOf(newer, limit), |newer| > limit)
    else if b.At? then
      var older := Older(ToSorted(all, CreatedAt), b.key);
      Page(LastOf(older, limit), |older| > limit)
    else
      var sorted := ToSorted(all, CreatedAt);
      Page(LastOf(sorted, limit), |sorted| > limit)
  }

  /** The answer does not depend on the order of the rows. */
  lemma RowOrderIsIrrelevant(rows: seq<Message>, again: seq<Message>, before: string, after: string, requested: Option<int>)
    requires UniqueIds(rows) && UniqueIds(again) && multiset(rows) == multiset(again)
    ensures ListMessages(rows, before, after, requested) == ListMessages(again, before, after, requested)
  {
    SameSorted(rows, again, CreatedAt);
    SameSorted(rows, again, UpdatedAt);
  }

  lemma SameSorted(rows: seq<Message>, again: seq<Message>, f: Field)
    requires UniqueIds(rows) && UniqueIds(again) && multiset(rows) == multiset(again)
    ensures ToSorted(rows, f) == ToSorted(again, f)
  {
    ToSortedSorts(rows, f);
    ToSortedSorts(again, f);
    SortedIsUnique(ToSorted(rows, f), ToSorted(again, f), f);
  }

  /** A cursor is refused without a comma or when the first comma leaves a half
      empty, and so are two cursors at once. */
  lemma RefusedIff(rows: seq<Message>, before: string, after: string, requested: Option<int>)
    ensures ListMessages(rows, before, after, requested).BadRequest? <==>
              HalfCursor(before) || HalfCursor(after) || (before != "" && after != "")
  {
    Halves(before);
    Halves(after);
  }

  predicate HalfCursor(raw: string) {
    raw != "" && (',' !in raw || raw[0] == ',' || ',' !in raw[..|raw| - 1])
  }

  lemma Halves(raw: string)
    ensures ParseCursor(raw).Malformed? <==> HalfCursor(raw)
    ensures ParseCursor(raw).Absent? <==> raw == ""
  {
    if raw != "" {
      var i := IndexOf(raw, ',');
      if i == 0 || (i > 0 && i < |raw| - 1) { assert raw[..|raw| - 1] == raw[..i] + raw[i..|raw| - 1]; }
      if i > 0 { assert raw[0] == raw[..i][0]; }
      if 0 < i < |raw| - 1 { assert raw[..|raw| - 1][i] == ','; }
    }
  }

  // ---------------------------------------------- paging through history

  /** In a sorted list the messages below the k-th are the first k. */
  lemma {:induction false} OlderIsPrefix(s: seq<Message>, k: nat)
    requires SortedBy(s, CreatedAt) && k < |s|
    ensures Older(s, KeyOf(s[k], CreatedAt)) == s[..k]
  {
    var c := KeyOf(s[k], CreatedAt);
    OlderSplits(s, c, k);
    assert s[..k] + s[k..] == s;
  }

  lemma {:induction false} OlderSplits(s: seq<Message>, c: Key, k: nat)
    requires k <= |s|
    requires forall i :: 0 <= i < k ==> KeyLess(KeyOf(s[i], CreatedAt), c)
    requires forall i :: k <= i < |s| ==> KeyOf(s[i], CreatedAt) == c || KeyLess(c, KeyOf(s[i], CreatedAt))
    ensures Older(s, c) == s[..k]
  {
    if s != [] {
      var m := KeyOf(s[0], CreatedAt);
      KeyTotal(m, c);
      if m.ts == c.ts { Irreflexive(m.ts); }
      OlderSplits(s[1..], c, if k > 0 then k - 1 else 0);
    }
  }

  lemma {:induction false} NewerSplits(s: seq<Message>, c: Key, k: nat)
    requires k <= |s|
    requires forall i :: 0 <= i < k ==> KeyOf(s[i], UpdatedAt) == c || KeyLess(KeyOf(s[i], UpdatedAt), c)
    requires forall i :: k <= i < |s| ==> KeyLess(c, KeyOf(s[i], UpdatedAt))
    ensures Newer(s, c) == s[k..]
  {
    if s != [] {
      var m := KeyOf(s[0], UpdatedAt);
      KeyTotal(m, c);
      if m.ts == c.ts { Irreflexive(m.ts); }
      NewerSplits(s[1..], c, if k > 0 then k - 1 else 0);
    }
  }

  /** Timestamps are comma-free and ids are not empty, so cursors round-trip. */
  ghost predicate Printable(s: seq<Message>) {
    forall m | m in s :: m.createdAt != "" && m.updatedAt != "" && CommaFree(m.createdAt) && CommaFree(m.updatedAt) && m.id != ""
  }

  ghost predicate Rows(all: seq<Message>) { UniqueIds(all) && Printable(all) }

  /** The cursor `before` stands right above the first `k` messages of `s`. */
  ghost predicate Points(s: seq<Message>, before: string, k: nat) {
    (k == |s| && before == "") || (k < |s| && before == PrintCursor(KeyOf(s[k], CreatedAt)))
  }

  ghost predicate Sorted(s: seq<Message>, f: Field) { SortedBy(s, f) && Printable(s) }

  lemma SortedRows(all: seq<Message>, f: Field)
    requires Rows(all)
    ensures Sorted(ToSorted(all, f), f) && |ToSorted(all, f)| == |all|
    ensures forall m :: m in ToSorted(all, f) <==> m in all
  {
    var s := ToSorted(all, f);
    ToSortedSorts(all, f);
    assert |multiset(s)| == |multiset(all)|;
    forall m ensures m in s <==> m in all { assert m in multiset(s) <==> m in multiset(all); }
  }

  /** The messages a `before` cursor selects from. */
  function BelowCursor(s: seq<Message>, before: string): seq<Message> {
    if ParseCursor(before).At? then Older(s, ParseCursor(before).key) else s
  }

  lemma Below(s: seq<Message>, before: string, k: nat)
    requires Sorted(s, CreatedAt) && Points(s, before, k)
    ensures k <= |s| && !ParseCursor(before).Malformed? && BelowCursor(s, before) == s[..k]
  {
    if k < |s| {
      assert s[k] in s;
      CursorRoundTrip(KeyOf(s[k], CreatedAt));
      OlderIsPrefix(s, k);
    } else {
      assert s[..k] == s;
    }
  }

  /** The cursor of a page's oldest message. */
  function NextBefore(page: Response): string {
    if page.Page? && page.messages != [] then PrintCursor(KeyOf(page.messages[0], CreatedAt)) else ""
  }

  /** What the handler does with a `before` cursor, or with none. */
  lemma ListBefore(all: seq<Message>, before: string, requested: Option<int>)
    requires !ParseCursor(before).Malformed?
    ensures var below := BelowCursor(ToSorted(all, CreatedAt), before);
            ListMessages(all, before, "", requested) == Page(LastOf(below, Limit(requested)), |below| > Limit(requested))
  {
    assert ParseCursor("") == Absent;
  }

  /** A page of history is the last `limit` of the messages below the cursor. */
  lemma HistoryPage(all: seq<Message>, s: seq<Message>, before: string, requested: Option<int>, k: nat)
    requires s == ToSorted(all, CreatedAt) && Sorted(s, CreatedAt) && Points(s, before, k)
    ensures k <= |s|
    ensures ListMessages(all, before, "", requested) == Page(LastOf(s[..k], Limit(requested)), k > Limit(requested))
  {
    Below(s, before, k);
    ListBefore(all, before, requested);
  }

  /** The cursor for the page before that one. */
  lemma NextBeforePoints(s: seq<Message>, k: nat, limit: nat, page: Response)
    requires 0 < limit < k <= |s| && page == Page(LastOf(s[..k], limit), true)
    ensures Points(s, NextBefore(page), k - limit) && page.messages == s[k - limit..k]
  {
    OldestOfPage(s, k, k - limit);
    assert s[..k][k - limit..] == s[k - limit..k];
  }

  lemma OldestOfPage(s: seq<Message>, k: nat, j: nat)
    requires j < k <= |s|
    ensures |LastOf(s[..k], k - j)| == k - j && LastOf(s[..k], k - j)[0] == s[j]
  {}

  /** Everything a client sees that starts at `before` and keeps asking, with the
      cursor of its oldest message, as long as there is more.  (The comparison of
      sizes gives the recursion its measure; it never stops the client early.) */
  ghost function Backfill(all: seq<Message>, before: string, requested: Option<int>): seq<Message>
    decreases |BelowCursor(ToSorted(all, CreatedAt), before)|
  {
    var s, page := ToSorted(all, CreatedAt), ListMessages(all, before, "", requested);
    if !page.Page? then []
    else if !page.hasMore || |BelowCursor(s, NextBefore(page))| >= |BelowCursor(s, before)| then page.messages
    else Backfill(all, NextBefore(page), requested) + page.messages
  }

  lemma BackfillUnfolds(all: seq<Message>, before: string, requested: Option<int>, page: Response)
    requires page == ListMessages(all, before, "", requested) && page.Page?
    ensures !page.hasMore ==> Backfill(all, before, requested) == page.messages
    ensures page.hasMore && |BelowCursor(ToSorted(all, CreatedAt), NextBefore(page))| < |BelowCursor(ToSorted(all, CreatedAt), before)| ==>
              Backfill(all, before, requested) == Backfill(all, NextBefore(page), requested) + page.messages
  {}

  /** One request of that client: the last one, or one that leaves the rest. */
  lemma BackfillEnds(all: seq<Message>, s: seq<Message>, before: string, requested: Option<int>, k: nat)
    requires s == ToSorted(all, CreatedAt) && Sorted(s, CreatedAt) && Points(s, before, k) && k <= Limit(requested)
    ensures k <= |s| && Backfill(all, before, requested) == s[..k]
  {
    var page := ListMessages(all, before, "", requested);
    HistoryPage(all, s, before, requested, k);
    BackfillUnfolds(all, before, requested, page);
  }

  lemma BackfillGoesOn(all: seq<Message>, s: seq<Message>, before: string, requested: Option<int>, k: nat) returns (next: string, j: nat)
    requires s == ToSorted(all, CreatedAt) && Sorted(s, CreatedAt) && Points(s, before, k) && k > Limit(requested)
    ensures j < k <= |s| && Points(s, next, j)
    ensures Backfill(all, before, requested) == Backfill(all, next, requested) + s[j..k]
  {
    j := k - Limit(requested);
    var page := ListMessages(all, before, "", requested);
    HistoryPage(all, s, before, requested, k);
    NextBeforePoints(s, k, Limit(requested), page);
    next := NextBefore(page);
    Below(s, before, k);
    Below(s, next, j);
    BackfillUnfolds(all, before, requested, page);
  }

  /** From any point, paging back visits every older message exactly once, in
      display order, and ends. */
  lemma {:induction false} BackfillIsComplete(all: seq<Message>, s: seq<Message>, before: string, requested: Option<int>, k: nat)
    requires s == ToSorted(all, CreatedAt) && Sorted(s, CreatedAt) && Points(s, before, k)
    ensures k <= |s| && Backfill(all, before, requested) == s[..k]
    decreases k
  {
    if k <= Limit(requested) {
      BackfillEnds(all, s, before, requested, k);
    } else {
      var next, j := BackfillGoesOn(all, s, before, requested, k);
      BackfillIsComplete(all, s, next, requested, j);
      assert s[..j] + s[j..k] == s[..k];
    }
  }

  /** From the seed page on, a client ends up with the whole discussion: sorted,
      nothing missing and nothing twice, whatever page size it asks for. */
  lemma WholeHistory(all: seq<Message>, requested: Option<int>)
    requires Rows(all)
    ensures var seen := Backfill(all, "", requested);
            && multiset(seen) == multiset(all)
            && forall i, j :: 0 <= i < j < |seen| ==>
                 Less(seen[i].createdAt, seen[j].createdAt) || (seen[i].createdAt == seen[j].createdAt && Less(seen[i].id, seen[j].id))
  {
    var s := ToSorted(all, CreatedAt);
    SortedRows(all, CreatedAt);
    BackfillIsComplete(all, s, "", requested, |s|);
    assert s[..|s|] == s;
  }

  // ------------------------------------------------- following changes

  ghost predicate PointsAfter(s: seq<Message>, after: Key, k: nat) {
    && k <= |s|
    && (forall i :: 0 <= i < k ==> KeyOf(s[i], UpdatedAt) == after || KeyLess(KeyOf(s[i], UpdatedAt), after))
    && (forall i :: k <= i < |s| ==> KeyLess(after, KeyOf(s[i], UpdatedAt)))
  }

  predicate PrintableKey(c: Key) { c.ts != "" && c.id != "" && CommaFree(c.ts) }

  /** The key of a page's newest change. */
  function NextAfter(after: Key, page: Response): Key {
    if page.Page? && page.messages != [] then KeyOf(page.messages[|page.messages| - 1], UpdatedAt) else after
  }

  lemma ChangePage(all: seq<Message>, s: seq<Message>, after: Key, requested: Option<int>, k: nat)
    requires s == ToSorted(all, UpdatedAt) && PrintableKey(after) && PointsAfter(s, after, k)
    ensures ListMessages(all, "", PrintCursor(after), requested)
            == Page(FirstOf(s[k..], Limit(requested)), |s| - k > Limit(requested))
    ensures Newer(s, after) == s[k..]
  {
    NewerSplits(s, after, k);
    ListAfter(all, after, requested);
  }

  /** What the handler does with an `after` cursor. */
  lemma ListAfter(all: seq<Message>, after: Key, requested: Option<int>)
    requires PrintableKey(after)
    ensures var newer := Newer(ToSorted(all, UpdatedAt), after);
            ListMessages(all, "", PrintCursor(after), requested) == Page(FirstOf(newer, Limit(requested)), |newer| > Limit(requested))
  {
    CursorRoundTrip(after);
    assert ParseCursor("") == Absent;
  }

  lemma NextPoints(s: seq<Message>, j: nat)
    requires Sorted(s, UpdatedAt) && j < |s|
    ensures PrintableKey(KeyOf(s[j], UpdatedAt)) && PointsAfter(s, KeyOf(s[j], UpdatedAt), j + 1)
  {
    assert s[j] in s;
  }

  ghost function Follow(all: seq<Message>, after: Key, requested: Option<int>): seq<Message>
    decreases |Newer(ToSorted(all, UpdatedAt), after)|
  {
    var s, page := ToSorted(all, UpdatedAt), ListMessages(all, "", PrintCursor(after), requested);
    if !page.Page? then []
    else if !page.hasMore || |Newer(s, NextAfter(after, page))| >= |Newer(s, after)| then page.messages
    else page.messages + Follow(all, NextAfter(after, page), requested)
  }

  lemma FollowUnfolds(all: seq<Message>, after: Key, requested: Option<int>, page: Response)
    requires page == ListMessages(all, "", PrintCursor(after), requested) && page.Page?
    ensures !page.hasMore ==> Follow(all, after, requested) == page.messages
    ensures page.hasMore && |Newer(ToSorted(all, UpdatedAt), NextAfter(after, page))| < |Newer(ToSorted(all, UpdatedAt), after)| ==>
              Follow(all, after, requested) == page.messages + Follow(all, NextAfter(after, page), requested)
  {}

  lemma FollowEnds(all: seq<Message>, s: seq<Message>, after: Key, requested: Option<int>, k: nat)
    requires s == ToSorted(all, UpdatedAt) && PrintableKey(after) && PointsAfter(s, after, k) && |s| - k <= Limit(requested)
    ensures Follow(all, after, requested) == s[k..]
  {
    ChangePage(all, s, after, requested, k);
    FollowUnfolds(all, after, requested, ListMessages(all, "", PrintCursor(after), requested));
  }

  lemma NewestOfPage(s: seq<Message>, k: nat, j: nat, after: Key, page: Response)
    requires k < j < |s| && page == Page(s[k..j], true)
    ensures NextAfter(after, page) == KeyOf(s[j - 1], UpdatedAt)
  {}

  lemma NewerThan(s: seq<Message>, j: nat, c: Key)
    requires Sorted(s, UpdatedAt) && 0 < j <= |s| && c == KeyOf(s[j - 1], UpdatedAt)
    ensures PrintableKey(c) && PointsAfter(s, c, j) && Newer(s, c) == s[j..]
  {
    NextPoints(s, j - 1);
    NewerSplits(s, c, j);
  }

  lemma FollowGoesOn(all: seq<Message>, s: seq<Message>, after: Key, requested: Option<int>, k: nat) returns (next: Key, j: nat)
    requires s == ToSorted(all, UpdatedAt) && Sorted(s, UpdatedAt)
    requires PrintableKey(after) && PointsAfter(s, after, k) && |s| - k > Limit(requested)
    ensures k < j <= |s| && PrintableKey(next) && PointsAfter(s, next, j)
    ensures Follow(all, after, requested) == s[k..j] + Follow(all, next, requested)
  {
    j := k + Limit(requested);
    var page := ListMessages(all, "", PrintCursor(after), requested);
    FollowTurns(all, s, after, requested, k, j);
    next := KeyOf(s[j - 1], UpdatedAt);
    NewestOfPage(s, k, j, after, page);
    NewerThan(s, j, next);
    FollowUnfolds(all, after, requested, page);
  }

  lemma FollowTurns(all: seq<Message>, s: seq<Message>, after: Key, requested: Option<int>, k: nat, j: nat)
    requires s == ToSorted(all, UpdatedAt) && PrintableKey(after) && PointsAfter(s, after, k)
    requires j == k + Limit(requested) < |s|
    ensures ListMessages(all, "", PrintCursor(after), requested) == Page(s[k..j], true) && Newer(s, after) == s[k..]
  {
    ChangePage(all, s, after, requested, k);
    FirstFrom(s, k, j);
  }

  lemma FirstFrom(s: seq<Message>, k: nat, j: nat)
    requires k <= j < |s|
    ensures FirstOf(s[k..], j - k) == s[k..j]
  {}

  lemma Rejoin(s: seq<Message>, k: nat, j: nat)
    requires k <= j <= |s|
    ensures s[k..j] + s[j..] == s[k..]
  {}

  /** From any point, following the cursor visits every later change once. */
  lemma {:induction false} FollowIsComplete(all: seq<Message>, s: seq<Message>, after: Key, requested: Option<int>, k: nat)
    requires s == ToSorted(all, UpdatedAt) && Sorted(s, UpdatedAt) && PrintableKey(after) && PointsAfter(s, after, k)
    ensures Follow(all, after, requested) == s[k..]
    decreases |s| - k
  {
    if |s| - k <= Limit(requested) {
      FollowEnds(all, s, after, requested, k);
    } else {
      var next, j := FollowGoesOn(all, s, after, requested, k);
      FollowIsComplete(all, s, next, requested, j);
      Rejoin(s, k, j);
    }
  }

  lemma FollowsNewer(all: seq<Message>, after: Key, requested: Option<int>)
    requires Rows(all) && PrintableKey(after)
    ensures var seen := Follow(all, after, requested);
            && SortedBy(seen, UpdatedAt)
            && (forall m :: m in seen <==> m in all && KeyLess(after, KeyOf(m, UpdatedAt)))
  {
    var s := ToSorted(all, UpdatedAt);
    SortedRows(all, UpdatedAt);
    var k := Boundary(s, after);
    FollowIsComplete(all, s, after, requested, k);
    forall m ensures m in s[k..] <==> m in s && KeyLess(after, KeyOf(m, UpdatedAt)) {
      if m in s {
        var i :| 0 <= i < |s| && s[i] == m;
        KeyTotal(KeyOf(m, UpdatedAt), after);
      }
    }
  }

  /** Following the change cursor delivers exactly the messages that are newer in
      (updatedAt, id) order, each once, in that order. */
  lemma FollowDeliversNewer(all: seq<Message>, after: Key, requested: Option<int>)
    requires Rows(all) && PrintableKey(after)
    ensures ChangesUpward(Follow(all, after, requested))
    ensures forall m :: m in Follow(all, after, requested) <==>
              m in all && (Less(after.ts, m.updatedAt) || (m.updatedAt == after.ts && Less(after.id, m.id)))
  {
    FollowsNewer(all, after, requested);
    Irreflexive(after.ts);
    ReadUpward(Follow(all, after, requested));
  }

  ghost predicate ChangesUpward(s: seq<Message>) {
    forall i, j :: 0 <= i < j < |s| ==>
      Less(s[i].updatedAt, s[j].updatedAt) || (s[i].updatedAt == s[j].updatedAt && Less(s[i].id, s[j].id))
  }

  lemma ReadUpward(s: seq<Message>)
    requires SortedBy(s, UpdatedAt)
    ensures ChangesUpward(s)
  {}

  lemma {:induction false} Boundary(s: seq<Message>, c: Key) returns (k: nat)
    requires SortedBy(s, UpdatedAt)
    ensures PointsAfter(s, c, k)
  {
    if s == [] {
      k := 0;
    } else if KeyLess(c, KeyOf(s[0], UpdatedAt)) {
      k := 0;
      forall i | 0 < i < |s| ensures KeyLess(c, KeyOf(s[i], UpdatedAt)) {
        KeyTrans(c, KeyOf(s[0], UpdatedAt), KeyOf(s[i], UpdatedAt));
      }
    } else {
      KeyTotal(c, KeyOf(s[0], UpdatedAt));
      var j := Boundary(s[1..], c);
      k := j + 1;
    }
  }

  // -------------------------------------------------------- unread count

  const UNREAD_CAP: nat := 99

  /** How many keys stand above the read cursor; all of them without one. */
  ghost function CountAbove(keys: seq<Key>, cursor: Option<Key>): (n: nat)
    ensures n <= |keys|
  {
    if keys == [] then 0
    else
      var last := keys[|keys| - 1];
      CountAbove(keys[..|keys| - 1], cursor) + if cursor.None? || KeyLess(cursor.value, last) then 1 else 0
  }

  lemma {:induction false} CountAboveGrows(keys: seq<Key>, cursor: Option<Key>, i: nat)
    requires i <= |keys|
    ensures CountAbove(keys[..i], cursor) <= CountAbove(keys, cursor)
  {
    if i < |keys| {
      CountAboveGrows(keys[..|keys| - 1], cursor, i);
      assert keys[..|keys| - 1][..i] == keys[..i];
    } else {
      assert keys[..i] == keys;
    }
  }

  /** The loop stops early, yet counts in the same order as paging does. */
  method CountUnread(keys: seq<Key>, cursor: Option<Key>) returns (unread: nat)
    ensures unread == if CountAbove(keys, cursor) < 99 then CountAbove(keys, cursor) else 99
  {
    unread := 0;
    for i := 0 to |keys|
      invariant unread == CountAbove(keys[..i], cursor) && unread < UNREAD_CAP
    {
      var key := keys[i];
      assert keys[..i + 1][..i] == keys[..i];
      if cursor.None? || Less(cursor.value.ts, key.ts) || (key.ts == cursor.value.ts && Less(cursor.value.id, key.id)) {
        if cursor.Some? { Irreflexive(key.ts); }
        unread := unread + 1;
        if unread >= UNREAD_CAP {
          CountAboveGrows(keys, cursor, i + 1);
          return UNREAD_CAP;
        }
      }
    }
    assert keys[..|keys|] == keys;
  }
}
