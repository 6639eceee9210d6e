/** The NUL-delimited output of `git status --porcelain -z` and
    `git diff --name-status -z`: parsing what git prints returns every path. */
module GitOutput {
  import opened Text

  const NUL: char := '\0'

  // ----------------------------------------------------- parsePorcelainZ

  predicate Moves(status: string) { 'R' in status || 'C' in status }

  /** `if (path) files.push(path)`. */
  function NonEmpty(path: string): seq<string> { if path == "" then [] else [path] }

  function Status(entry: string): string { if |entry| >= 2 then entry[..2] else entry }

  lemma Composes(before: seq<string>, first: seq<string>, rest: seq<string>, after: seq<string>)
    requires after == before + first
    ensures before + (first + rest) == after + rest
  {
  }

  /** How many fields the first entry takes, and the paths it names. */
  function Width(fields: seq<string>): (n: nat)
    requires fields != []
    ensures n >= 1
  {
    if fields[0] != "" && Moves(Status(fields[0])) then 2 else 1
  }

  function First(fields: seq<string>): seq<string>
    requires fields != []
  {
    NonEmpty(Drop(fields[0], 3)) + (if Width(fields) == 2 && |fields| > 1 then NonEmpty(fields[1]) else [])
  }

  function Porcelain(fields: seq<string>): seq<string>
    decreases |fields|
  {
    if fields == [] then [] else First(fields) + Porcelain(Drop(fields, Width(fields)))
  }

  method ParsePorcelainZ(stdout: string) returns (files: seq<string>)
    ensures files == Porcelain(Split(stdout, NUL))
  {
    var fields := Split(stdout, NUL);
    files := [];
    var index := 0;
    assert Drop(fields, 0) == fields;
    while index < |fields|
      invariant 0 <= index
      invariant Porcelain(fields) == files + Porcelain(Drop(fields, index))
    {
      ghost var rest := Drop(fields, index);
      var paths, next := ParseEntry(fields, index);
      DropDrop(fields, index, Width(rest));
      Composes(files, paths, Porcelain(Drop(rest, Width(rest))), files + paths);
      files, index := files + paths, next;
    }
  }

  /** The entry at the index, and where the next one starts. */
  method ParseEntry(fields: seq<string>, index: nat) returns (files: seq<string>, next: nat)
    requires index < |fields|
    ensures files == First(fields[index..]) && next == index + Width(fields[index..])
  {
    var entry := fields[index];
    files, next := [], index;
    if entry != "" {
      files := files + NonEmpty(Drop(entry, 3));
      if Moves(Status(entry)) {
        if next + 1 < |fields| { files := files + NonEmpty(fields[next + 1]); }
        next := next + 1;
      }
    }
    next := next + 1;
  }

  /** An entry as git prints it; `source` is printed for renames and copies, staged or not. */
  datatype Entry = Entry(x: char, y: char, path: string, source: string)

  predicate TwoPaths(e: Entry) { e.x == 'R' || e.x == 'C' || e.y == 'R' || e.y == 'C' }

  lemma MovesIff(e: Entry)
    ensures Moves([e.x, e.y]) <==> TwoPaths(e)
  {
    assert [e.x, e.y][0] == e.x && [e.x, e.y][1] == e.y;
  }

  predicate IsPath(p: string) { p != "" && NUL !in p }

  predicate ValidEntry(e: Entry) {
    e.x != NUL && e.y != NUL && IsPath(e.path) && (TwoPaths(e) ==> IsPath(e.source))
  }

  function PrintEntry(e: Entry): string {
    [e.x, e.y, ' '] + e.path + [NUL] + (if TwoPaths(e) then e.source + [NUL] else "")
  }

  function PrintEntries(es: seq<Entry>): string {
    if es == [] then "" else PrintEntry(es[0]) + PrintEntries(es[1..])
  }

  function Paths(e: Entry): seq<string> { if TwoPaths(e) then [e.path, e.source] else [e.path] }

  function Endpoints(es: seq<Entry>): seq<string> {
    if es == [] then [] else Paths(es[0]) + Endpoints(es[1..])
  }

  lemma PlainEntry(e: Entry, rest: string)
    requires ValidEntry(e) && !TwoPaths(e)
    ensures Porcelain(Split(PrintEntry(e) + rest, NUL)) == Paths(e) + Porcelain(Split(rest, NUL))
  {
    MovesIff(e);
    var first := [e.x, e.y, ' '] + e.path;
    assert PrintEntry(e) + rest == first + [NUL] + rest;
    SplitAtFirst(first, rest, NUL);
    var fields := [first] + Split(rest, NUL);
    assert Status(first) == [e.x, e.y] && Drop(first, 3) == e.path;
    assert Drop(fields, 1) == Split(rest, NUL);
    assert First(fields) == [e.path];
  }

  lemma MovedEntry(e: Entry, rest: string)
    requires ValidEntry(e) && TwoPaths(e)
    ensures Porcelain(Split(PrintEntry(e) + rest, NUL)) == Paths(e) + Porcelain(Split(rest, NUL))
  {
    MovesIff(e);
    var first := [e.x, e.y, ' '] + e.path;
    var tail := e.source + [NUL] + rest;
    assert PrintEntry(e) + rest == first + [NUL] + tail;
    SplitAtFirst(first, tail, NUL);
    SplitAtFirst(e.source, rest, NUL);
    var fields := [first] + ([e.source] + Split(rest, NUL));
    assert Status(first) == [e.x, e.y] && Drop(first, 3) == e.path;
    assert Drop(fields, 2) == Split(rest, NUL);
    assert First(fields) == [e.path, e.source];
  }

  lemma PrintedEntry(e: Entry, rest: string)
    requires ValidEntry(e)
    ensures Porcelain(Split(PrintEntry(e) + rest, NUL)) == Paths(e) + Porcelain(Split(rest, NUL))
  {
    if TwoPaths(e) { MovedEntry(e, rest); } else { PlainEntry(e, rest); }
  }

  /** Parsing a printed list gives back exactly its endpoints, in order, also when
      a path looks like a status field. */
  lemma {:induction false} PorcelainRoundTrip(es: seq<Entry>)
    requires forall i :: 0 <= i < |es| ==> ValidEntry(es[i])
    ensures Porcelain(Split(PrintEntries(es), NUL)) == Endpoints(es)
  {
    if es == [] {
      assert Drop([""], 1) == [] && First([""]) == [];
    } else {
      PorcelainRoundTrip(es[1..]);
      PrintedEntry(es[0], PrintEntries(es[1..]));
    }
  }

  // ---------------------------------------------------- parseNameStatusZ

  predicate MovesRow(status: string) { status != "" && status[0] in {'R', 'C'} }

  function RowWidth(fields: seq<string>): (n: nat)
    requires fields != []
    ensures n >= 1
  {
    if fields[0] == "" then 1 else if MovesRow(fields[0]) then 3 else 2
  }

  function FirstRow(fields: seq<string>): seq<string>
    requires fields != []
  {
    var n := RowWidth(fields);
    (if n >= 2 && |fields| > 1 then NonEmpty(fields[1]) else []) + (if n == 3 && |fields| > 2 then NonEmpty(fields[2]) else [])
  }

  function NameStatus(fields: seq<string>): seq<string>
    decreases |fields|
  {
    if fields == [] then [] else FirstRow(fields) + NameStatus(Drop(fields, RowWidth(fields)))
  }

  method ParseNameStatusZ(stdout: string) returns (files: seq<string>)
    ensures files == NameStatus(Split(stdout, NUL))
  {
    var fields := Split(stdout, NUL);
    files := [];
    var index := 0;
    assert Drop(fields, 0) == fields;
    while index < |fields|
      invariant 0 <= index
      invariant NameStatus(fields) == files + NameStatus(Drop(fields, index))
    {
      ghost var rest := Drop(fields, index);
      var paths, next := ParseRow(fields, index);
      DropDrop(fields, index, RowWidth(rest));
      Composes(files, paths, NameStatus(Drop(rest, RowWidth(rest))), files + paths);
      files, index := files + paths, next;
    }
  }

  /** The row at the index, and where the next one starts. */
  method ParseRow(fields: seq<string>, index: nat) returns (files: seq<string>, next: nat)
    requires index < |fields|
    ensures files == FirstRow(fields[index..]) && next == index + RowWidth(fields[index..])
  {
    var status := fields[index];
    files, next := [], index + 1;
    if status != "" {
      if next < |fields| { files := files + NonEmpty(fields[next]); }
      next := next + 1;
      if MovesRow(status) {
        if next < |fields| { files := files + NonEmpty(fields[next]); }
        next := next + 1;
      }
    }
  }

  /** A row of name-status output: source first, destination for renames and copies. */
  datatype Row = Row(status: string, source: string, destination: string)

  predicate TwoEnds(r: Row) { r.status != "" && (r.status[0] == 'R' || r.status[0] == 'C') }

  predicate ValidRow(r: Row) {
    IsPath(r.status) && IsPath(r.source) && (TwoEnds(r) ==> IsPath(r.destination))
  }

  function PrintRow(r: Row): string {
    r.status + [NUL] + r.source + [NUL] + (if TwoEnds(r) then r.destination + [NUL] else "")
  }

  function PrintRows(rs: seq<Row>): string {
    if rs == [] then "" else PrintRow(rs[0]) + PrintRows(rs[1..])
  }

  function RowEndpoints(rs: seq<Row>): seq<string> {
    if rs == [] then []
    else RowPaths(rs[0]) + RowEndpoints(rs[1..])
  }

  function RowPaths(r: Row): seq<string> { if TwoEnds(r) then [r.source, r.destination] else [r.source] }

  lemma PlainRow(r: Row, rest: string)
    requires ValidRow(r) && !TwoEnds(r)
    ensures NameStatus(Split(PrintRow(r) + rest, NUL)) == RowPaths(r) + NameStatus(Split(rest, NUL))
  {
    assert PrintRow(r) + rest == r.status + [NUL] + (r.source + [NUL] + rest);
    SplitAtFirst(r.status, r.source + [NUL] + rest, NUL);
    SplitAtFirst(r.source, rest, NUL);
    var fields := [r.status] + ([r.source] + Split(rest, NUL));
    assert Drop(fields, 2) == Split(rest, NUL);
    assert FirstRow(fields) == RowPaths(r);
  }

  lemma MovedRow(r: Row, rest: string)
    requires ValidRow(r) && TwoEnds(r)
    ensures NameStatus(Split(PrintRow(r) + rest, NUL)) == RowPaths(r) + NameStatus(Split(rest, NUL))
  {
    var tail := r.destination + [NUL] + rest;
    assert PrintRow(r) + rest == r.status + [NUL] + (r.source + [NUL] + tail);
    SplitAtFirst(r.status, r.source + [NUL] + tail, NUL);
    SplitAtFirst(r.source, tail, NUL);
    SplitAtFirst(r.destination, rest, NUL);
    var fields := [r.status] + ([r.source] + ([r.destination] + Split(rest, NUL)));
    assert Drop(fields, 3) == Split(rest, NUL);
    assert FirstRow(fields) == RowPaths(r);
  }

  lemma PrintedRow(r: Row, rest: string)
    requires ValidRow(r)
    ensures NameStatus(Split(PrintRow(r) + rest, NUL)) == RowPaths(r) + NameStatus(Split(rest, NUL))
  {
    if TwoEnds(r) { MovedRow(r, rest); } else { PlainRow(r, rest); }
  }

  lemma {:induction false} NameStatusRoundTrip(rs: seq<Row>)
    requires forall i :: 0 <= i < |rs| ==> ValidRow(rs[i])
    ensures NameStatus(Split(PrintRows(rs), NUL)) == RowEndpoints(rs)
  {
    if rs == [] {
      assert Drop([""], 1) == [] && FirstRow([""]) == [];
    } else {
      NameStatusRoundTrip(rs[1..]);
      PrintedRow(rs[0], PrintRows(rs[1..]));
    }
  }
}
