/** `globToRegExp`: the pattern text it builds, how ECMAScript reads that text, and
    what the glob is then found to mean. */
module Glob {
  import opened Text
  import opened Wrappers

  // ---------------------------------------------------------------- globs

  /** What a glob is made of.  `**` swallows a slash that follows it. */
  datatype Token = Lit(c: char) | Star | AnyText | Alternation(alts: seq<string>)

  function Tokens(g: string): seq<Token>
    decreases |g|
  {
    if g == "" then []
    else if g[0] == '*' then
      if |g| >= 2 && g[1] == '*' then
        [AnyText] + Tokens(g[if |g| >= 3 && g[2] == '/' then 3 else 2..])
      else [Star] + Tokens(g[1..])
    else if g[0] == '{' && IndexOf(g, '}') >= 0 then
      var close := IndexOf(g, '}');
      [Alternation(Split(g[1..close], ','))] + Tokens(g[close + 1..])
    else [Lit(g[0])] + Tokens(g[1..])
  }

  // ------------------------------------------------------------- emission

  function EscapedLiteral(c: char): string {
    if c in {'.', '+', '?', '^', '$', '(', ')', '|', '[', ']', '\\', '{'} then ['\\', c] else [c]
  }

  /** Inside braces both braces are escaped, and `*` is not. */
  function EscapedInBraces(c: char): string {
    if c in {'.', '+', '?', '^', '$', '{', '}', '(', ')', '|', '[', ']', '\\'} then ['\\', c] else [c]
  }

  function EscapedAlt(a: string): string {
    if a == "" then "" else EscapedInBraces(a[0]) + EscapedAlt(a[1..])
  }

  function JoinedAlts(alts: seq<string>): string
    requires alts != []
  {
    if |alts| == 1 then EscapedAlt(alts[0]) else EscapedAlt(alts[0]) + "|" + JoinedAlts(alts[1..])
  }

  function Emit(t: Token): string {
    match t
    case Lit(c) => EscapedLiteral(c)
    case Star => "[^/]*"
    case AnyText => ".*"
    case Alternation(alts) => "(?:" + (if alts == [] then "" else JoinedAlts(alts)) + ")"
  }

  function EmitAll(ts: seq<Token>): string {
    if ts == [] then "" else Emit(ts[0]) + EmitAll(ts[1..])
  }

  /** The source's loop over one index. */
  method GlobToRegExp(glob: string) returns (pattern: string)
    ensures pattern == "^" + EmitAll(Tokens(glob)) + "$"
  {
    var re, i := "", 0;
    while i < |glob|
      invariant 0 <= i
      invariant re + EmitAll(Tokens(Drop(glob, i))) == EmitAll(Tokens(glob))
      decreases |glob| - i
    {
      var piece, next := EmitOne(glob, i);
      re, i := re + piece, next;
    }
    pattern := "^" + re + "$";
  }

  method EmitOne(glob: string, i: nat) returns (piece: string, next: nat)
    requires i < |glob|
    ensures next > i && EmitAll(Tokens(glob[i..])) == piece + EmitAll(Tokens(Drop(glob, next)))
  {
    ghost var g := glob[i..];
    var c := glob[i];
    if c == '*' {
      if i + 1 < |glob| && glob[i + 1] == '*' {
        piece, next := Emit(AnyText), i + 2;
        if next < |glob| && glob[next] == '/' { next := next + 1; }
        assert g[next - i..] == glob[next..];
      } else {
        piece, next := Emit(Star), i + 1;
        assert g[1..] == glob[next..];
      }
    } else if c == '{' {
      var close := IndexOf(glob[i..], '}');
      if close < 0 {
        piece, next := "\\{", i + 1;
        assert g[1..] == glob[next..];
      } else {
        var alts := Split(glob[i..][1..close], ',');
        piece, next := "(?:" + JoinedAlts(alts) + ")", i + close + 1;
        assert g[close + 1..] == glob[next..];
      }
    } else {
      piece, next := EscapedLiteral(c), i + 1;
      assert g[1..] == glob[next..];
    }
  }

  // ------------------------------------ reading patterns (ECMA-262, 22.2)

  datatype Node = Char(c: char) | Dot | NotChar(c: char) | AtStart | AtEnd | Repeat(body: Node) | Group(alts: Alts)

  datatype Nodes = End | Then(head: Node, tail: Nodes)

  datatype Alts = Only(nodes: Nodes) | Either(nodes: Nodes, rest: Alts)

  const SYNTAX := {'^', '$', '\\', '.', '*', '+', '?', '(', ')', '[', ']', '{', '}', '|', '/'}

  /** A quantifier after an atom; only `*` is in the subset. */
  function Quantified(n: Node, rest: string): Option<(Node, string)> {
    if rest == "" || rest[0] !in {'*', '+', '?', '{'} then Some((n, rest))
    else if rest[0] == '*' && (|rest| == 1 || rest[1] != '?') then Some((Repeat(n), rest[1..]))
    else None
  }

  function ReadTerm(s: string): (r: Option<(Node, string)>)
    requires s != ""
    ensures r.Some? ==> |r.value.1| < |s|
    decreases |s|, 0
  {
    var c := s[0];
    if c == '^' then Some((AtStart, s[1..]))
    else if c == '$' then Some((AtEnd, s[1..]))
    else if c == '.' then Quantified(Dot, s[1..])
    else if c == '\\' then
      if |s| >= 2 && s[1] in SYNTAX then Quantified(Char(s[1]), s[2..]) else None
    else if c == '[' then
      if |s| >= 4 && s[1] == '^' && s[2] !in {']', '\\', '^'} && s[3] == ']' then Quantified(NotChar(s[2]), s[4..]) else None
    else if c == '(' then
      if |s| >= 3 && s[1] == '?' && s[2] == ':' then
        var inner := ReadAlts(s[3..]);
        if inner.Some? && inner.value.1 != "" && inner.value.1[0] == ')' then Quantified(Group(inner.value.0), inner.value.1[1..]) else None
      else None
    else if c in {'*', '+', '?', ')', '|', '{'} then None
    else Quantified(Char(c), s[1..])
  }

  /** Terms up to the end, a bar or a closing parenthesis. */
  function ReadTerms(s: string): (r: Option<(Nodes, string)>)
    ensures r.Some? ==> |r.value.1| <= |s|
    decreases |s|, 1
  {
    if s == "" || s[0] in {'|', ')'} then Some((End, s))
    else
      var first := ReadTerm(s);
      if first.None? then None
      else
        var more := ReadTerms(first.value.1);
        if more.None? then None else Some((Then(first.value.0, more.value.0), more.value.1))
  }

  function ReadAlts(s: string): (r: Option<(Alts, string)>)
    ensures r.Some? ==> |r.value.1| <= |s|
    decreases |s|, 2
  {
    var first := ReadTerms(s);
    if first.None? then None
    else if first.value.1 != "" && first.value.1[0] == '|' then
      var more := ReadAlts(first.value.1[1..]);
      if more.None? then None else Some((Either(first.value.0, more.value.0), more.value.1))
    else Some((Only(first.value.0), first.value.1))
  }

  /** `None` is a pattern that does not compile (or is outside the subset). */
  function Read(pattern: string): Option<Alts> {
    var r := ReadAlts(pattern);
    if r.None? || r.value.1 != "" then None else Some(r.value.0)
  }

  // ------------------------------------------------------------- matching

  predicate LineTerminator(c: char) { c == '\n' || c == '\r' || c == '\U{2028}' || c == '\U{2029}' }

  ghost predicate MatchNode(n: Node, s: string, i: nat, j: nat)
    decreases n, 0, 0
  {
    match n
    case Char(c) => j == i + 1 <= |s| && s[i] == c
    case Dot => j == i + 1 <= |s| && !LineTerminator(s[i])
    case NotChar(c) => j == i + 1 <= |s| && s[i] != c
    case AtStart => i == j == 0
    case AtEnd => i == j == |s|
    case Repeat(body) => MatchRepeat(body, s, i, j)
    case Group(alts) => MatchAlts(alts, s, i, j)
  }

  ghost predicate MatchRepeat(body: Node, s: string, i: nat, j: nat)
    decreases body, 1, j - i
  {
    i == j || exists k :: i < k <= j && MatchNode(body, s, i, k) && MatchRepeat(body, s, k, j)
  }

  ghost predicate MatchAlts(alts: Alts, s: string, i: nat, j: nat)
    decreases alts, 0, 0
  {
    MatchNodes(alts.nodes, s, i, j) || (alts.Either? && MatchAlts(alts.rest, s, i, j))
  }

  ghost predicate MatchNodes(ns: Nodes, s: string, i: nat, j: nat)
    decreases ns, 0, 0
  {
    match ns
    case End => i == j
    case Then(n, rest) => exists k :: i <= k <= j && MatchNode(n, s, i, k) && MatchNodes(rest, s, k, j)
  }

  /** `RegExp.prototype.test`: a match anywhere. */
  ghost predicate Test(alts: Alts, s: string) {
    exists i, j :: 0 <= i <= j <= |s| && MatchAlts(alts, s, i, j)
  }

  // ---------------------------------------------------- what globs denote

  /** A character in braces; `*` after it repeats it. */
  datatype Item = Item(c: char, repeated: bool)

  /** How a text in braces is read: a `*` belongs to the character before it, and
      there must be one. */
  function Items(a: string): Option<seq<Item>>
    decreases |a|
  {
    if a == "" then Some([])
    else if a[0] == '*' then None
    else
      var repeated := |a| >= 2 && a[1] == '*';
      var more := Items(a[if repeated then 2 else 1..]);
      if more.None? then None else Some([Item(a[0], repeated)] + more.value)
  }

  ghost predicate AllAre(s: string, c: char) { forall i :: 0 <= i < |s| ==> s[i] == c }

  ghost predicate ItemsDenote(items: seq<Item>, s: string) {
    if items == [] then s == ""
    else exists k :: 0 <= k <= |s| && ItemDenotes(items[0], s[..k]) && ItemsDenote(items[1..], s[k..])
  }

  ghost predicate ItemDenotes(item: Item, s: string) { if item.repeated then AllAre(s, item.c) else s == [item.c] }

  ghost predicate AltsDenote(alts: seq<string>, s: string)
    requires forall i :: 0 <= i < |alts| ==> Items(alts[i]).Some?
  {
    exists i :: 0 <= i < |alts| && ItemsDenote(Items(alts[i]).value, s)
  }

  predicate Readable(t: Token) {
    t.Alternation? ==> t.alts != [] && forall i :: 0 <= i < |t.alts| ==> Items(t.alts[i]).Some?
  }

  predicate AllReadable(ts: seq<Token>) { forall i :: 0 <= i < |ts| ==> Readable(ts[i]) }

  ghost predicate TokenDenotes(t: Token, s: string)
    requires Readable(t)
  {
    match t
    case Lit(c) => s == [c]
    case Star => '/' !in s
    case AnyText => forall i :: 0 <= i < |s| ==> !LineTerminator(s[i])
    case Alternation(alts) => AltsDenote(alts, s)
  }

  ghost predicate Denotes(ts: seq<Token>, s: string)
    requires AllReadable(ts)
  {
    if ts == [] then s == ""
    else exists k :: 0 <= k <= |s| && TokenDenotes(ts[0], s[..k]) && Denotes(ts[1..], s[k..])
  }

  // -------------------------------------------------- the pattern is read

  function ItemNode(item: Item): Node { if item.repeated then Repeat(Char(item.c)) else Char(item.c) }

  function ItemNodes(items: seq<Item>): Nodes {
    if items == [] then End else Then(ItemNode(items[0]), ItemNodes(items[1..]))
  }

  function AltNodes(alts: seq<string>): Alts
    requires alts != [] && forall i :: 0 <= i < |alts| ==> Items(alts[i]).Some?
  {
    var first := ItemNodes(Items(alts[0]).value);
    if |alts| == 1 then Only(first) else Either(first, AltNodes(alts[1..]))
  }

  function NodeOf(t: Token): Node
    requires Readable(t)
  {
    match t
    case Lit(c) => Char(c)
    case Star => Repeat(NotChar('/'))
    case AnyText => Repeat(Dot)
    case Alternation(alts) => Group(AltNodes(alts))
  }

  /** The terms of a glob's pattern, with the closing anchor. */
  function NodesOf(ts: seq<Token>): Nodes
    requires AllReadable(ts)
  {
    if ts == [] then Then(AtEnd, End) else Then(NodeOf(ts[0]), NodesOf(ts[1..]))
  }

  predicate NoQuantifier(s: string) { s == "" || s[0] !in {'*', '+', '?', '{'} }

  lemma LiteralReads(c: char, rest: string)
    requires c != '*' && NoQuantifier(rest)
    ensures ReadTerm(EscapedLiteral(c) + rest) == Some((Char(c), rest))
  {
    var s := EscapedLiteral(c) + rest;
    assert s[|EscapedLiteral(c)|..] == rest;
  }

  lemma StarReads(rest: string)
    requires NoQuantifier(rest)
    ensures ReadTerm("[^/]*" + rest) == Some((Repeat(NotChar('/')), rest))
    ensures ReadTerm(".*" + rest) == Some((Repeat(Dot), rest))
  {
    var s, d := "[^/]*" + rest, ".*" + rest;
    assert s[4..] == "*" + rest && ("*" + rest)[1..] == rest;
    assert d[1..] == "*" + rest;
  }

  /** The character of an alternative, with the star that may follow it. */
  lemma BraceCharReads(c: char, more: string)
    requires c != '*'
    ensures NoQuantifier(more) ==> ReadTerm(EscapedInBraces(c) + more) == Some((Char(c), more))
    ensures NoQuantifier(more) ==> ReadTerm(EscapedInBraces(c) + "*" + more) == Some((Repeat(Char(c)), more))
  {
    var s, d := EscapedInBraces(c) + more, EscapedInBraces(c) + "*" + more;
    assert s[|EscapedInBraces(c)|..] == more;
    assert d[|EscapedInBraces(c)|..] == "*" + more && ("*" + more)[1..] == more;
  }

  predicate Closes(rest: string) { rest != "" && rest[0] in {'|', ')'} }

  lemma EscapedAltStarts(a: string, rest: string)
    requires Closes(rest)
    ensures NoQuantifier(EscapedAlt(a) + rest) <==> a == "" || a[0] != '*'
    ensures a != "" ==> EscapedAlt(a) != "" && EscapedAlt(a)[0] !in {'|', ')'}
  {}

  lemma {:induction false} AltReads(a: string, rest: string)
    requires Closes(rest)
    ensures ReadTerms(EscapedAlt(a) + rest) == if Items(a).Some? then Some((ItemNodes(Items(a).value), rest)) else None
    decreases |a|
  {
    EscapedAltStarts(a, rest);
    if a == "" {
      assert EscapedAlt(a) + rest == rest;
    } else if a[0] != '*' {
      var piece := EscapedInBraces(a[0]);
      if |a| >= 2 && a[1] == '*' {
        var more := EscapedAlt(a[2..]) + rest;
        assert a[1..][1..] == a[2..];
        assert EscapedAlt(a) + rest == piece + "*" + more;
        EscapedAltStarts(a[2..], rest);
        AltReads(a[2..], rest);
        StarredCharReads(a[0], more);
      } else {
        var more := EscapedAlt(a[1..]) + rest;
        assert EscapedAlt(a) + rest == piece + more;
        EscapedAltStarts(a[1..], rest);
        BraceCharReads(a[0], more);
        AltReads(a[1..], rest);
      }
    }
  }

  /** A star after a star is a syntax error, whatever follows. */
  lemma StarredCharReads(c: char, more: string)
    requires c != '*' && more != "" && more[0] !in {'+', '?', '{'}
    ensures ReadTerm(EscapedInBraces(c) + "*" + more) == Some((Repeat(Char(c)), more))
  {
    var d := EscapedInBraces(c) + "*" + more;
    assert d[|EscapedInBraces(c)|..] == "*" + more && ("*" + more)[1..] == more;
  }

  predicate AltsReadable(alts: seq<string>) { forall i :: 0 <= i < |alts| ==> Items(alts[i]).Some? }

  lemma {:induction false} AltsRead(alts: seq<string>, rest: string)
    requires alts != [] && rest != "" && rest[0] == ')'
    ensures ReadAlts(JoinedAlts(alts) + rest) == if AltsReadable(alts) then Some((AltNodes(alts), rest)) else None
  {
    if |alts| == 1 {
      AltReads(alts[0], rest);
    } else {
      var tail := JoinedAlts(alts[1..]) + rest;
      assert JoinedAlts(alts) + rest == EscapedAlt(alts[0]) + ("|" + tail);
      AltReads(alts[0], "|" + tail);
      assert ("|" + tail)[1..] == tail;
      AltsRead(alts[1..], rest);
      if AltsReadable(alts) {
        assert forall i :: 0 <= i < |alts[1..]| ==> alts[1..][i] == alts[i + 1];
      } else if Items(alts[0]).Some? {
        var i :| 0 <= i < |alts| && Items(alts[i]).None?;
        assert alts[1..][i - 1] == alts[i];
      }
    }
  }

  /** A token as `Tokens` makes them. */
  predicate Made(t: Token) { (t.Lit? ==> t.c != '*') && (t.Alternation? ==> t.alts != []) }

  ghost predicate AllMade(ts: seq<Token>) { forall x :: 0 <= x < |ts| ==> Made(ts[x]) }

  lemma TokenReads(t: Token, rest: string)
    requires Made(t) && NoQuantifier(rest)
    ensures ReadTerm(Emit(t) + rest) == if Readable(t) then Some((NodeOf(t), rest)) else None
  {
    match t {
      case Lit(c) => LiteralReads(c, rest);
      case Star => StarReads(rest);
      case AnyText => StarReads(rest);
      case Alternation(alts) =>
        var close := ")" + rest;
        AltsRead(alts, close);
        var s := Emit(t) + rest;
        assert s[3..] == JoinedAlts(alts) + close;
        assert close[1..] == rest;
    }
  }

  lemma EmitStarts(t: Token)
    requires Made(t)
    ensures Emit(t) != "" && NoQuantifier(Emit(t)) && Emit(t)[0] !in {'|', ')'}
  {}

  lemma {:induction false} TokensRead(ts: seq<Token>)
    requires AllMade(ts)
    ensures NoQuantifier(EmitAll(ts) + "$")
    ensures ReadTerms(EmitAll(ts) + "$") == if AllReadable(ts) then Some((NodesOf(ts), "")) else None
  {
    if ts == [] {
      assert "$"[1..] == "";
      assert EmitAll(ts) + "$" == "$";
    } else {
      var rest := EmitAll(ts[1..]) + "$";
      TokensRead(ts[1..]);
      EmitStarts(ts[0]);
      TokenReads(ts[0], rest);
      assert EmitAll(ts) + "$" == Emit(ts[0]) + rest;
      if !AllReadable(ts) && Readable(ts[0]) {
        var i :| 0 <= i < |ts| && !Readable(ts[i]);
        assert ts[1..][i - 1] == ts[i];
      }
    }
  }

  lemma MadeMore(t: Token, ts: seq<Token>)
    requires Made(t) && AllMade(ts)
    ensures AllMade([t] + ts)
  {}

  lemma {:induction false} TokensAreMade(g: string)
    ensures AllMade(Tokens(g))
    decreases |g|
  {
    if g != "" {
      var t, rest := FirstToken(g);
      TokensAreMade(rest);
      MadeMore(t, Tokens(rest));
    }
  }

  lemma FirstToken(g: string) returns (t: Token, rest: string)
    requires g != ""
    ensures |rest| < |g| && Tokens(g) == [t] + Tokens(rest) && Made(t)
  {
    if g[0] == '*' {
      var double := |g| >= 2 && g[1] == '*';
      t, rest := if double then AnyText else Star, g[if double then (if |g| >= 3 && g[2] == '/' then 3 else 2) else 1..];
    } else if g[0] == '{' && IndexOf(g, '}') >= 0 {
      var close := IndexOf(g, '}');
      t, rest := Alternation(Split(g[1..close], ',')), g[close + 1..];
    } else {
      t, rest := Lit(g[0]), g[1..];
    }
  }

  lemma AnchorReads(body: string)
    requires body != "" && (ReadTerms(body).Some? ==> ReadTerms(body).value.1 == "")
    ensures Read("^" + body) == if ReadTerms(body).Some? then Some(Only(Then(AtStart, ReadTerms(body).value.0))) else None
  {
    var s := "^" + body;
    assert s[1..] == body;
    assert ReadTerm(s) == Some((AtStart, body));
    assert ReadTerms(s) == if ReadTerms(body).None? then None else Some((Then(AtStart, ReadTerms(body).value.0), ""));
  }

  /** How ECMAScript reads the pattern of any glob: it compiles exactly when every
      `*` in braces has a character to repeat. */
  lemma PatternReads(glob: string, ts: seq<Token>)
    requires ts == Tokens(glob)
    ensures Read("^" + EmitAll(ts) + "$") == if AllReadable(ts) then Some(Only(Then(AtStart, NodesOf(ts)))) else None
  {
    TokensAreMade(glob);
    TokensRead(ts);
    AnchorReads(EmitAll(ts) + "$");
    assert "^" + EmitAll(ts) + "$" == "^" + (EmitAll(ts) + "$");
  }

  // --------------------------------------------------- the pattern matches

  predicate InClass(n: Node, c: char)
    requires n.Char? || n.Dot? || n.NotChar?
  {
    match n case Char(x) => c == x case Dot => !LineTerminator(c) case NotChar(x) => c != x
  }

  ghost predicate AllIn(n: Node, s: string)
    requires n.Char? || n.Dot? || n.NotChar?
  {
    forall p :: 0 <= p < |s| ==> InClass(n, s[p])
  }

  lemma {:induction false} RepeatMeans(n: Node, s: string, i: nat, j: nat)
    requires (n.Char? || n.Dot? || n.NotChar?) && i <= j <= |s|
    ensures MatchRepeat(n, s, i, j) <==> AllIn(n, s[i..j])
    decreases j - i
  {
    if i < j {
      RepeatMeans(n, s, i + 1, j);
      assert s[i..j] == [s[i]] + s[i + 1..j];
      assert MatchNode(n, s, i, i + 1) <==> InClass(n, s[i]);
      if AllIn(n, s[i..j]) {
        assert s[i..j][0] == s[i];
        var x := s[i + 1..j];
        forall p | 0 <= p < |x| ensures InClass(n, x[p]) { assert s[i..j][p + 1] == x[p]; }
      }
    }
  }

  lemma ItemMeans(item: Item, s: string, i: nat, j: nat)
    requires i <= j <= |s|
    ensures MatchNode(ItemNode(item), s, i, j) <==> ItemDenotes(item, s[i..j])
  {
    RepeatMeans(Char(item.c), s, i, j);
    if j == i + 1 { assert s[i..j] == [s[i]]; }
  }

  /** Where the first term of a match ends. */
  lemma FirstTerm(n: Node, rest: Nodes, s: string, i: nat, j: nat) returns (k: nat)
    requires MatchNodes(Then(n, rest), s, i, j)
    ensures i <= k <= j && MatchNode(n, s, i, k) && MatchNodes(rest, s, k, j)
  {
    k :| i <= k <= j && MatchNode(n, s, i, k) && MatchNodes(rest, s, k, j);
  }

  lemma Sliced(s: string, i: nat, k: nat, j: nat)
    requires i <= k <= j <= |s|
    ensures s[i..j][..k - i] == s[i..k] && s[i..j][k - i..] == s[k..j]
  {}

  lemma {:induction false} ItemsMatched(items: seq<Item>, s: string, i: nat, j: nat)
    requires i <= j <= |s| && MatchNodes(ItemNodes(items), s, i, j)
    ensures ItemsDenote(items, s[i..j])
  {
    if items != [] {
      var k := FirstTerm(ItemNode(items[0]), ItemNodes(items[1..]), s, i, j);
      ItemMeans(items[0], s, i, k);
      ItemsMatched(items[1..], s, k, j);
      Sliced(s, i, k, j);
    }
  }

  lemma {:induction false} ItemsDenoted(items: seq<Item>, s: string, i: nat, j: nat)
    requires i <= j <= |s| && ItemsDenote(items, s[i..j])
    ensures MatchNodes(ItemNodes(items), s, i, j)
  {
    if items != [] {
      var x := s[i..j];
      var m :| 0 <= m <= |x| && ItemDenotes(items[0], x[..m]) && ItemsDenote(items[1..], x[m..]);
      Sliced(s, i, i + m, j);
      ItemMeans(items[0], s, i, i + m);
      ItemsDenoted(items[1..], s, i + m, j);
    }
  }

  lemma ItemsMean(items: seq<Item>, s: string, i: nat, j: nat)
    requires i <= j <= |s|
    ensures MatchNodes(ItemNodes(items), s, i, j) <==> ItemsDenote(items, s[i..j])
  {
    if MatchNodes(ItemNodes(items), s, i, j) { ItemsMatched(items, s, i, j); }
    if ItemsDenote(items, s[i..j]) { ItemsDenoted(items, s, i, j); }
  }

  lemma {:induction false} AltsMean(alts: seq<string>, s: string, i: nat, j: nat)
    requires alts != [] && AltsReadable(alts) && i <= j <= |s|
    ensures MatchAlts(AltNodes(alts), s, i, j) <==> AltsDenote(alts, s[i..j])
  {
    ItemsMean(Items(alts[0]).value, s, i, j);
    if |alts| > 1 {
      assert forall k :: 0 <= k < |alts[1..]| ==> alts[1..][k] == alts[k + 1];
      AltsMean(alts[1..], s, i, j);
      if AltsDenote(alts, s[i..j]) {
        var k :| 0 <= k < |alts| && ItemsDenote(Items(alts[k]).value, s[i..j]);
        if k > 0 { assert ItemsDenote(Items(alts[1..][k - 1]).value, s[i..j]); }
      }
    }
  }

  lemma TokenMeans(t: Token, s: string, i: nat, j: nat)
    requires Made(t) && Readable(t) && i <= j <= |s|
    ensures MatchNode(NodeOf(t), s, i, j) <==> TokenDenotes(t, s[i..j])
  {
    match t {
      case Lit(c) => if j == i + 1 { assert s[i..j] == [s[i]]; }
      case Star => RepeatMeans(NotChar('/'), s, i, j);
      case AnyText => RepeatMeans(Dot, s, i, j);
      case Alternation(alts) => AltsMean(alts, s, i, j);
    }
  }

  lemma {:induction false} TokensMatched(ts: seq<Token>, s: string, i: nat, j: nat)
    requires AllMade(ts) && AllReadable(ts) && i <= j <= |s| && MatchNodes(NodesOf(ts), s, i, j)
    ensures j == |s| && Denotes(ts, s[i..])
  {
    if ts == [] {
      var k := FirstTerm(AtEnd, End, s, i, j);
    } else {
      var k := FirstTerm(NodeOf(ts[0]), NodesOf(ts[1..]), s, i, j);
      TokenMeans(ts[0], s, i, k);
      TokensMatched(ts[1..], s, k, j);
      Sliced(s, i, k, j);
      assert s[i..j] == s[i..] && s[k..j] == s[k..];
    }
  }

  lemma {:induction false} TokensDenoted(ts: seq<Token>, s: string, i: nat)
    requires AllMade(ts) && AllReadable(ts) && i <= |s| && Denotes(ts, s[i..])
    ensures MatchNodes(NodesOf(ts), s, i, |s|)
  {
    if ts == [] {
      assert MatchNode(AtEnd, s, i, i) && MatchNodes(End, s, i, |s|);
    } else {
      var x := s[i..];
      var m :| 0 <= m <= |x| && TokenDenotes(ts[0], x[..m]) && Denotes(ts[1..], x[m..]);
      Sliced(s, i, i + m, |s|);
      assert s[i..|s|] == x && s[i + m..|s|] == s[i + m..];
      TokenMeans(ts[0], s, i, i + m);
      TokensDenoted(ts[1..], s, i + m);
      MatchedFrom(ts, s, i, i + m);
    }
  }

  lemma MatchedFrom(ts: seq<Token>, s: string, i: nat, k: nat)
    requires AllMade(ts) && AllReadable(ts) && ts != [] && i <= k <= |s| && MatchNode(NodeOf(ts[0]), s, i, k) && MatchNodes(NodesOf(ts[1..]), s, k, |s|)
    ensures MatchNodes(NodesOf(ts), s, i, |s|)
  {}

  lemma AnchoredMeans(ts: seq<Token>, s: string, i: nat, j: nat)
    requires AllMade(ts) && AllReadable(ts) && i <= j <= |s|
    ensures MatchNodes(Then(AtStart, NodesOf(ts)), s, i, j) <==> i == 0 && j == |s| && Denotes(ts, s)
  {
    assert s[0..] == s;
    if MatchNodes(Then(AtStart, NodesOf(ts)), s, i, j) {
      var k := FirstTerm(AtStart, NodesOf(ts), s, i, j);
      TokensMatched(ts, s, 0, j);
    }
    if i == 0 && j == |s| && Denotes(ts, s) {
      TokensDenoted(ts, s, 0);
      assert MatchNode(AtStart, s, 0, 0);
    }
  }

  /** The regular expression of any glob: it does not compile when a star in braces
      has nothing to repeat, and otherwise accepts exactly what the tokens denote. */
  lemma GlobMeans(glob: string, ts: seq<Token>, s: string)
    requires ts == Tokens(glob)
    ensures var regex := Read("^" + EmitAll(ts) + "$");
            && (regex.Some? <==> AllReadable(ts))
            && (regex.Some? ==> (Test(regex.value, s) <==> Denotes(ts, s)))
  {
    PatternReads(glob, ts);
    TokensAreMade(glob);
    if AllReadable(ts) {
      var alts := Only(Then(AtStart, NodesOf(ts)));
      forall i, j | 0 <= i <= j <= |s| ensures MatchAlts(alts, s, i, j) <==> i == 0 && j == |s| && Denotes(ts, s) {
        AnchoredMeans(ts, s, i, j);
      }
      assert MatchAlts(alts, s, 0, |s|) <==> Denotes(ts, s);
    }
  }

  // ------------------------------------------------ what that comes down to

  predicate StarFree(a: string) { '*' !in a }

  /** Alternatives without a star are taken literally, and always compile. */
  lemma {:induction false} PlainAlternative(a: string, s: string)
    requires StarFree(a)
    ensures Items(a).Some? && (ItemsDenote(Items(a).value, s) <==> s == a)
    decreases |a|
  {
    if a != "" {
      assert a[0] in a && (|a| >= 2 ==> a[1] in a);
      PlainAlternative(a[1..], if s == "" then "" else s[1..]);
      var items := Items(a).value;
      assert items == [Item(a[0], false)] + Items(a[1..]).value;
      assert items[1..] == Items(a[1..]).value;
      if ItemsDenote(items, s) {
        var k :| 0 <= k <= |s| && ItemDenotes(items[0], s[..k]) && ItemsDenote(items[1..], s[k..]);
        assert s[..k] == [a[0]] && k == 1;
        assert s == [s[0]] + s[1..] && a == [a[0]] + a[1..];
      }
      if s == a {
        assert s[..1] == [a[0]];
        assert ItemDenotes(items[0], s[..1]) && ItemsDenote(items[1..], s[1..]);
      }
    }
  }

  /** `**` and `**` with its slash take any text without a line terminator, and so in
      particular any whole segments. */
  lemma WholeSegments(ts: seq<Token>, segments: string, s: string)
    requires ts != [] && ts[0] == AnyText && AllReadable(ts) && Denotes(ts[1..], s)
    requires forall i :: 0 <= i < |segments| ==> !LineTerminator(segments[i])
    ensures Denotes(ts, segments + s)
  {
    assert (segments + s)[..|segments|] == segments && (segments + s)[|segments|..] == s;
    assert TokenDenotes(ts[0], (segments + s)[..|segments|]);
  }

  /** So an alternation without stars in it denotes just its alternatives. */
  lemma PlainAlternation(alts: seq<string>, s: string)
    requires alts != [] && forall i :: 0 <= i < |alts| ==> StarFree(alts[i])
    ensures Readable(Alternation(alts)) && (TokenDenotes(Alternation(alts), s) <==> s in alts)
  {
    forall i | 0 <= i < |alts| ensures Items(alts[i]).Some? && (ItemsDenote(Items(alts[i]).value, s) <==> s == alts[i]) {
      PlainAlternative(alts[i], s);
    }
  }

  // ------------------------------------------- when braces mean what they say

  /** A text that the items of an alternative denote, its repeats `n` long. */
  function Pump(items: seq<Item>, n: nat): string {
    if items == [] then ""
    else (if items[0].repeated then seq(n, _ => items[0].c) else [items[0].c]) + Pump(items[1..], n)
  }

  predicate HasRepeat(items: seq<Item>) { exists i :: 0 <= i < |items| && items[i].repeated }

  lemma {:induction false} PumpDenoted(items: seq<Item>, n: nat)
    ensures ItemsDenote(items, Pump(items, n))
    ensures HasRepeat(items) ==> |Pump(items, n)| >= n
  {
    if items != [] {
      PumpDenoted(items[1..], n);
      var first := if items[0].repeated then seq(n, _ => items[0].c) else [items[0].c];
      var s := Pump(items, n);
      assert s[..|first|] == first && s[|first|..] == Pump(items[1..], n);
      assert ItemDenotes(items[0], s[..|first|]);
      if HasRepeat(items) && !items[0].repeated {
        var i :| 0 <= i < |items| && items[i].repeated;
        assert items[1..][i - 1].repeated;
      }
    }
  }

  /** Every star of a compiling alternative is a repeat, and there is one item for
      every other character. */
  lemma {:induction false} StarsRepeat(a: string)
    requires Items(a).Some?
    ensures HasRepeat(Items(a).value) <==> !StarFree(a)
    ensures |Items(a).value| <= |a|
    decreases |a|
  {
    if a != "" {
      var n := if |a| >= 2 && a[1] == '*' then 2 else 1;
      var items, rest := Items(a).value, Items(a[n..]).value;
      StarsRepeat(a[n..]);
      assert items == [Item(a[0], n == 2)] + rest;
      assert a == a[..n] + a[n..];
      if HasRepeat(rest) {
        var i :| 0 <= i < |rest| && rest[i].repeated;
        assert items[i + 1].repeated;
      }
      if n == 2 {
        assert a[1] in a && items[0].repeated;
      } else {
        assert a[..1] == [a[0]] && '*' !in a[..1];
        if HasRepeat(items) {
          var i :| 0 <= i < |items| && items[i].repeated;
          assert rest[i - 1].repeated;
        }
      }
    }
  }

  function Longest(alts: seq<string>): (n: nat)
    ensures forall i :: 0 <= i < |alts| ==> |alts[i]| <= n
  {
    if alts == [] then 0
    else
      var rest := Longest(alts[1..]);
      assert forall i :: 1 <= i < |alts| ==> alts[i] == alts[1..][i - 1];
      if |alts[0]| > rest then |alts[0]| else rest
  }

  predicate AllStarFree(alts: seq<string>) { forall i :: 0 <= i < |alts| ==> StarFree(alts[i]) }

  /** Braces that compile denote just the listed texts exactly when there is no star
      in them: with one they accept texts longer than all of them. */
  lemma ListedIff(alts: seq<string>)
    requires alts != [] && AltsReadable(alts)
    ensures (forall s :: TokenDenotes(Alternation(alts), s) <==> s in alts) <==> AllStarFree(alts)
  {
    if AllStarFree(alts) {
      forall s ensures TokenDenotes(Alternation(alts), s) <==> s in alts { PlainAlternation(alts, s); }
    } else {
      var i :| 0 <= i < |alts| && !StarFree(alts[i]);
      var items := Items(alts[i]).value;
      var s := Pump(items, Longest(alts) + 1);
      StarsRepeat(alts[i]);
      PumpDenoted(items, Longest(alts) + 1);
      assert TokenDenotes(Alternation(alts), s) && s !in alts;
    }
  }

  /** An alternative read as a glob of its own: a star is any text without a slash. */
  ghost predicate GlobAlt(a: string, s: string)
    decreases |a|
  {
    if a == "" then s == ""
    else if a[0] == '*' then exists k :: 0 <= k <= |s| && '/' !in s[..k] && GlobAlt(a[1..], s[k..])
    else s != "" && s[0] == a[0] && GlobAlt(a[1..], s[1..])
  }

  ghost predicate GlobAlts(alts: seq<string>, s: string) { exists i :: 0 <= i < |alts| && GlobAlt(alts[i], s) }

  lemma {:induction false} PlainGlobAlt(a: string, s: string)
    requires StarFree(a)
    ensures GlobAlt(a, s) <==> s == a
    decreases |a|
  {
    if a != "" {
      assert a[0] in a;
      if s != "" {
        PlainGlobAlt(a[1..], s[1..]);
        assert s == [s[0]] + s[1..] && a == [a[0]] + a[1..];
      }
    }
  }

  /** The alternative with `x` for its first star and nothing for the others. */
  function Fill(a: string, x: string): string {
    if a == "" then "" else if a[0] == '*' then x + Fill(a[1..], "") else [a[0]] + Fill(a[1..], x)
  }

  lemma {:induction false} FillIsGlob(a: string, x: string)
    requires '/' !in x
    ensures GlobAlt(a, Fill(a, x))
    decreases |a|
  {
    if a != "" {
      if a[0] == '*' {
        FillIsGlob(a[1..], "");
        var s := Fill(a, x);
        assert s[..|x|] == x && s[|x|..] == Fill(a[1..], "");
      } else {
        FillIsGlob(a[1..], x);
      }
    }
  }

  /** How often neighbouring characters differ. */
  function Changes(s: string): nat {
    if |s| < 2 then 0 else (if s[0] != s[1] then 1 else 0) + Changes(s[1..])
  }

  lemma {:induction false} ChangesConcat(a: string, b: string)
    ensures Changes(a) + Changes(b) <= Changes(a + b) <= Changes(a) + Changes(b) + 1
  {
    if a == "" {
      assert a + b == b;
    } else {
      assert (a + b)[1..] == a[1..] + b;
      ChangesConcat(a[1..], b);
      if |a| == 1 { assert a[1..] + b == b; }
    }
  }

  lemma {:induction false} FillChanges(a: string, x: string)
    requires !StarFree(a)
    ensures Changes(Fill(a, x)) >= Changes(x)
    decreases |a|
  {
    assert a == [a[0]] + a[1..];
    if a[0] == '*' {
      ChangesConcat(x, Fill(a[1..], ""));
    } else {
      FillChanges(a[1..], x);
      ChangesConcat([a[0]], Fill(a[1..], x));
    }
  }

  lemma {:induction false} RepeatDoesNotChange(s: string, c: char)
    requires AllAre(s, c)
    ensures Changes(s) == 0
  {
    if |s| >= 2 { RepeatDoesNotChange(s[1..], c); }
  }

  /** Items change at most once each. */
  lemma {:induction false} ItemsChange(items: seq<Item>, s: string)
    requires ItemsDenote(items, s)
    ensures Changes(s) <= |items|
  {
    if items != [] {
      var k :| 0 <= k <= |s| && ItemDenotes(items[0], s[..k]) && ItemsDenote(items[1..], s[k..]);
      ItemsChange(items[1..], s[k..]);
      RepeatDoesNotChange(s[..k], items[0].c);
      assert s == s[..k] + s[k..];
      ChangesConcat(s[..k], s[k..]);
    }
  }

  function Zigzag(n: nat): string { if n == 0 then "" else [if n % 2 == 0 then 'p' else 'q'] + Zigzag(n - 1) }

  lemma {:induction false} ZigzagChanges(n: nat)
    ensures |Zigzag(n)| == n && '/' !in Zigzag(n) && Changes(Zigzag(n)) + 1 >= n
    ensures n > 0 ==> Zigzag(n)[0] == if n % 2 == 0 then 'p' else 'q'
  {
    if n > 0 {
      ZigzagChanges(n - 1);
      assert Zigzag(n)[1..] == Zigzag(n - 1);
      if n > 1 { assert Zigzag(n)[1] == Zigzag(n - 1)[0]; }
    }
  }

  /** And they denote the alternatives as globs exactly when there is no star in them
      either: a star for any text stands for texts that change more often than
      every alternative has characters, which no repeats can give. */
  lemma GlobAltsIff(alts: seq<string>)
    requires alts != [] && AltsReadable(alts)
    ensures (forall s :: TokenDenotes(Alternation(alts), s) <==> GlobAlts(alts, s)) <==> AllStarFree(alts)
  {
    if AllStarFree(alts) {
      forall s ensures TokenDenotes(Alternation(alts), s) <==> GlobAlts(alts, s) {
        PlainAlternation(alts, s);
        forall i | 0 <= i < |alts| ensures GlobAlt(alts[i], s) <==> s == alts[i] { PlainGlobAlt(alts[i], s); }
      }
    } else {
      var i :| 0 <= i < |alts| && !StarFree(alts[i]);
      var x := Zigzag(Longest(alts) + 2);
      var s := Fill(alts[i], x);
      ZigzagChanges(Longest(alts) + 2);
      FillIsGlob(alts[i], x);
      FillChanges(alts[i], x);
      assert GlobAlts(alts, s);
      forall j | 0 <= j < |alts| ensures !ItemsDenote(Items(alts[j]).value, s) {
        StarsRepeat(alts[j]);
        if ItemsDenote(Items(alts[j]).value, s) { ItemsChange(Items(alts[j]).value, s); }
      }
      assert !TokenDenotes(Alternation(alts), s);
    }
  }

  predicate DoubledStar(a: string) { exists i :: 0 <= i < |a| - 1 && a[i] == '*' && a[i + 1] == '*' }

  /** Which alternatives compile: no star at the front and no star after a star. */
  lemma {:induction false} CompilesIff(a: string)
    ensures Items(a).Some? <==> a == "" || (a[0] != '*' && !DoubledStar(a))
    decreases |a|
  {
    if a != "" && a[0] != '*' {
      var n := if |a| >= 2 && a[1] == '*' then 2 else 1;
      var rest := a[n..];
      CompilesIff(rest);
      if i :| 0 <= i < |a| - 1 && a[i] == '*' && a[i + 1] == '*' {
        if i >= n { assert rest[i - n] == '*' && rest[i - n + 1] == '*'; }
      }
      if rest != "" && DoubledStar(rest) {
        var i :| 0 <= i < |rest| - 1 && rest[i] == '*' && rest[i + 1] == '*';
        assert a[i + n] == '*' && a[i + n + 1] == '*';
      }
      if rest != "" && rest[0] == '*' { assert a[n - 1] == '*' && a[n] == '*'; }
    }
  }

  /** A star in braces does not stand for any text, but repeats what is before it. */
  lemma StarInBraces()
    ensures Tokens("{a*}") == [Alternation(["a*"])] && Readable(Alternation(["a*"]))
    ensures TokenDenotes(Alternation(["a*"]), "aa") && !TokenDenotes(Alternation(["a*"]), "ab")
    ensures !Readable(Alternation(["*"]))
  {
    var g := "{a*}";
    assert IndexOf(g, '}') == 3 by { IndexOfIs("{a*", "", '}'); assert "{a*" + ['}'] + "" == g; }
    assert g[1..3] == "a*" && g[4..] == "";
    SplitWhole("a*", ',');
    RepeatedLetter("aa");
    RepeatedLetter("ab");
    assert AllAre("aa", 'a');
    assert !AllAre("ab", 'a') by { assert "ab"[1] == 'b'; }
    var alts := ["a*"];
    assert ItemsDenote(Items(alts[0]).value, "aa");
    assert Items("*").None?;
    assert ["*"][0] == "*";
  }

  lemma RepeatedLetter(s: string)
    ensures Items("a*").Some? && (ItemsDenote(Items("a*").value, s) <==> AllAre(s, 'a'))
  {
    var a := "a*";
    assert a[2..] == "" && Items(a[2..]) == Some([]);
    var items := [Item('a', true)];
    assert Items(a) == Some(items + []) && items + [] == items;
    assert s[..|s|] == s && s[|s|..] == "" && items[1..] == [];
    if AllAre(s, 'a') { assert ItemDenotes(items[0], s[..|s|]) && ItemsDenote(items[1..], s[|s|..]); }
    if ItemsDenote(items, s) {
      var k :| 0 <= k <= |s| && ItemDenotes(items[0], s[..k]) && ItemsDenote(items[1..], s[k..]);
      assert k == |s|;
    }
  }

  /** `**` followed by a slash does not insist on whole segments. */
  lemma PartOfASegment()
    ensures Tokens("**/a") == [AnyText, Lit('a')] && Denotes([AnyText, Lit('a')], "ba")
  {
    var g := "**/a";
    assert g[3..] == "a" && "a"[1..] == "";
    assert Tokens("a") == [Lit('a')] + Tokens("");
    var ts, s := [AnyText, Lit('a')], "ba";
    assert ts[1..] == [Lit('a')] && ts[1..][1..] == [];
    assert s[1..] == "a" && s[..1] == "b" && "a"[..1] == "a" && "a"[1..] == "";
    assert Denotes([], "");
    assert TokenDenotes(Lit('a'), "a"[..1]) && Denotes(ts[1..][1..], "a"[1..]);
    assert Denotes(ts[1..], s[1..]);
    assert TokenDenotes(AnyText, s[..1]);
  }

  /** Whole segments, or none, before a text of the rest. */
  ghost predicate SegmentsThen(rest: seq<Token>, s: string)
    requires AllReadable(rest)
  {
    exists k :: 0 <= k <= |s| && WholeUpTo(s, k) && Denotes(rest, s[k..])
  }

  ghost predicate WholeUpTo(s: string, k: nat)
    requires k <= |s|
  {
    (k == 0 || s[k - 1] == '/') && forall i :: 0 <= i < k ==> !LineTerminator(s[i])
  }

  /** Something that the tokens denote. */
  lemma {:induction false} SomeText(ts: seq<Token>) returns (s: string)
    requires AllMade(ts) && AllReadable(ts)
    ensures Denotes(ts, s)
  {
    if ts == [] {
      s := "";
    } else {
      var first := "";
      match ts[0] {
        case Lit(c) => first := [c];
        case Star =>
        case AnyText =>
        case Alternation(alts) =>
          first := Pump(Items(alts[0]).value, 0);
          PumpDenoted(Items(alts[0]).value, 0);
      }
      assert TokenDenotes(ts[0], first);
      var rest := SomeText(ts[1..]);
      s := first + rest;
      assert s[..|first|] == first && s[|first|..] == rest;
    }
  }

  lemma {:induction false} ShortestText(ts: seq<Token>, s: string) returns (r: string)
    requires AllReadable(ts) && Denotes(ts, s)
    ensures Denotes(ts, r) && forall q | Denotes(ts, q) :: |r| <= |q|
    decreases |s|
  {
    r := s;
    if exists q :: Denotes(ts, q) && |q| < |s| {
      var q :| Denotes(ts, q) && |q| < |s|;
      r := ShortestText(ts, q);
    }
  }

  function AfterLastSlash(s: string): (k: nat)
    ensures k <= |s| && (k == 0 || s[k - 1] == '/') && '/' !in s[k..]
  {
    if s == "" then 0
    else if s[|s| - 1] == '/' then |s|
    else
      var k := AfterLastSlash(s[..|s| - 1]);
      assert s[k..] == s[..|s| - 1][k..] + [s[|s| - 1]];
      k
  }

  lemma StarDenotesMore(t: Token, before: string, s: string)
    requires t in {Star, AnyText} && Readable(t) && TokenDenotes(t, s)
    requires '/' !in before && forall i :: 0 <= i < |before| ==> !LineTerminator(before[i])
    ensures TokenDenotes(t, before + s)
  {
    var whole := before + s;
    forall i | 0 <= i < |whole| ensures whole[i] == if i < |before| then before[i] else s[i - |before|] {}
  }

  lemma StarGrowsBack(rest: seq<Token>, before: string, s: string)
    requires rest != [] && rest[0] in {Star, AnyText} && AllReadable(rest) && Denotes(rest, s)
    requires '/' !in before && forall i :: 0 <= i < |before| ==> !LineTerminator(before[i])
    ensures Denotes(rest, before + s)
  {
    var m :| 0 <= m <= |s| && TokenDenotes(rest[0], s[..m]) && Denotes(rest[1..], s[m..]);
    StarDenotesMore(rest[0], before, s[..m]);
    var x, n := before + s, |before| + m;
    assert x[..n] == before + s[..m] && x[n..] == s[m..];
  }

  /** A star behind `**` and its slash takes up what is no whole segment. */
  lemma StarTakesTheRemainder(rest: seq<Token>, s: string, k: nat)
    requires rest != [] && rest[0] in {Star, AnyText} && AllReadable(rest) && k <= |s|
    requires (forall i :: 0 <= i < k ==> !LineTerminator(s[i])) && Denotes(rest, s[k..])
    ensures SegmentsThen(rest, s)
  {
    var j := AfterLastSlash(s[..k]);
    var before := s[..k][j..];
    assert before + s[k..] == s[j..];
    assert forall i :: 0 <= i < |before| ==> before[i] == s[j + i];
    StarGrowsBack(rest, before, s[k..]);
    assert j > 0 ==> s[j - 1] == s[..k][j - 1];
    assert WholeUpTo(s, j);
  }

  /** Where the text before a rest without a leading star cannot be taken up, one
      more character in front of a shortest text is accepted but no segment. */
  lemma OneMoreCharacter(rest: seq<Token>) returns (s: string)
    requires AllMade(rest) && AllReadable(rest) && (rest == [] || rest[0].Lit?)
    ensures Denotes([AnyText] + rest, s) && !SegmentsThen(rest, s)
  {
    var some := SomeText(rest);
    var r := ShortestText(rest, some);
    var x := if rest != [] && rest[0].c == 'a' then 'b' else 'a';
    s := [x] + r;
    var ts := [AnyText] + rest;
    assert ts[1..] == rest && s[..1] == [x] && s[1..] == r;
    assert TokenDenotes(ts[0], s[..1]);
    forall k | 0 <= k <= |s| && WholeUpTo(s, k) ensures !Denotes(rest, s[k..]) {
      if k == 0 {
        assert s[0..] == s;
      } else {
        assert |s[k..]| < |r|;
      }
    }
  }

  /** `**` with its slash means whole segments exactly when the rest of the glob begins
      with a star, for every rest that does not begin with braces. */
  lemma SegmentsIff(rest: seq<Token>)
    requires AllMade(rest) && AllReadable(rest) && (rest != [] ==> !rest[0].Alternation?)
    ensures (forall s :: Denotes([AnyText] + rest, s) <==> SegmentsThen(rest, s)) <==> rest != [] && rest[0] in {Star, AnyText}
  {
    var ts := [AnyText] + rest;
    assert ts[1..] == rest;
    if rest != [] && rest[0] in {Star, AnyText} {
      forall s ensures Denotes(ts, s) <==> SegmentsThen(rest, s) {
        if Denotes(ts, s) {
          var k :| 0 <= k <= |s| && TokenDenotes(ts[0], s[..k]) && Denotes(ts[1..], s[k..]);
          forall i | 0 <= i < k ensures !LineTerminator(s[i]) { assert s[i] == s[..k][i]; }
          StarTakesTheRemainder(rest, s, k);
        }
        if SegmentsThen(rest, s) {
          var k :| 0 <= k <= |s| && WholeUpTo(s, k) && Denotes(rest, s[k..]);
          assert TokenDenotes(ts[0], s[..k]);
        }
      }
    } else {
      var s := OneMoreCharacter(rest);
      assert Denotes(ts, s) && !SegmentsThen(rest, s);
    }
  }

  /** Braces that may stand for nothing: an alternative of repeated characters only. */
  predicate Skippable(t: Token)
    requires Readable(t)
  {
    t.Alternation? && exists i :: 0 <= i < |t.alts| && AllRepeated(Items(t.alts[i]).value)
  }

  predicate AllRepeated(items: seq<Item>) { forall i :: 0 <= i < |items| ==> items[i].repeated }

  /** A star comes first, or behind braces that may stand for nothing. */
  predicate StarFirst(ts: seq<Token>)
    requires AllReadable(ts)
  {
    ts != [] && (ts[0] in {Star, AnyText} || (Skippable(ts[0]) && StarFirst(ts[1..])))
  }

  /** A character that the glob does not name. */
  ghost predicate Unnamed(x: char, ts: seq<Token>) {
    && x != '/' && !LineTerminator(x)
    && forall i :: 0 <= i < |ts| ==>
         (ts[i].Lit? ==> ts[i].c != x) && (ts[i].Alternation? ==> forall j :: 0 <= j < |ts[i].alts| ==> x !in ts[i].alts[j])
  }

  predicate OnOneLine(a: string) { forall i :: 0 <= i < |a| ==> !LineTerminator(a[i]) }

  ghost predicate BracesOnOneLine(ts: seq<Token>) {
    forall i, j :: 0 <= i < |ts| && ts[i].Alternation? && 0 <= j < |ts[i].alts| ==> OnOneLine(ts[i].alts[j])
  }

  lemma {:induction false} EmptyTextIff(items: seq<Item>)
    ensures ItemsDenote(items, "") <==> AllRepeated(items)
  {
    if items != [] {
      EmptyTextIff(items[1..]);
      assert ""[..0] == "" && ""[0..] == "";
      assert ItemDenotes(items[0], "") <==> items[0].repeated;
      assert ItemsDenote(items, "") <==> ItemDenotes(items[0], ""[..0]) && ItemsDenote(items[1..], ""[0..]);
      assert AllRepeated(items) <==> items[0].repeated && AllRepeated(items[1..]);
    }
  }

  lemma SkippableIff(t: Token)
    requires t.Alternation? && Readable(t)
    ensures TokenDenotes(t, "") <==> Skippable(t)
  {
    forall i | 0 <= i < |t.alts| ensures ItemsDenote(Items(t.alts[i]).value, "") <==> AllRepeated(Items(t.alts[i]).value) {
      EmptyTextIff(Items(t.alts[i]).value);
    }
  }

  /** Alternatives denote texts of their own characters. */
  lemma {:induction false} OwnCharacters(a: string, s: string, i: nat)
    requires Items(a).Some? && ItemsDenote(Items(a).value, s) && i < |s|
    ensures s[i] in a
    decreases |a|
  {
    if a != "" {
      var items, n := Items(a).value, if |a| >= 2 && a[1] == '*' then 2 else 1;
      assert items[1..] == Items(a[n..]).value;
      var k :| 0 <= k <= |s| && ItemDenotes(items[0], s[..k]) && ItemsDenote(items[1..], s[k..]);
      if i < k {
        assert s[i] == s[..k][i] == a[0];
      } else {
        OwnCharacters(a[n..], s[k..], i - k);
      }
    }
  }

  lemma BraceCharacters(t: Token, s: string, i: nat) returns (j: nat)
    requires t.Alternation? && Readable(t) && TokenDenotes(t, s) && i < |s|
    ensures j < |t.alts| && s[i] in t.alts[j]
  {
    j :| 0 <= j < |t.alts| && ItemsDenote(Items(t.alts[j]).value, s);
    OwnCharacters(t.alts[j], s, i);
  }

  /** Without a star first, no text starts with a character that is not named. */
  lemma {:induction false} StartsWithANamed(ts: seq<Token>, s: string, x: char)
    requires AllReadable(ts) && !StarFirst(ts) && Unnamed(x, ts) && Denotes(ts, s)
    ensures s == "" || s[0] != x
  {
    if ts != [] && s != "" {
      var m :| 0 <= m <= |s| && TokenDenotes(ts[0], s[..m]) && Denotes(ts[1..], s[m..]);
      if m > 0 {
        assert s[..m][0] == s[0];
        if ts[0].Alternation? { var j := BraceCharacters(ts[0], s[..m], 0); }
      } else {
        assert s[..m] == "" && s[m..] == s;
        SkippableIff(ts[0]);
        StartsWithANamed(ts[1..], s, x);
      }
    }
  }

  /** The text that braces took joins what was before it, and the star takes the remainder. */
  lemma {:induction false} SkipsToTheStar(rest: seq<Token>, s: string, k: nat)
    requires AllReadable(rest) && StarFirst(rest) && BracesOnOneLine(rest) && k <= |s|
    requires OnOneLine(s[..k]) && Denotes(rest, s[k..])
    ensures SegmentsThen(rest, s)
  {
    if rest[0] in {Star, AnyText} {
      forall i | 0 <= i < k ensures !LineTerminator(s[i]) { assert s[i] == s[..k][i]; }
      StarTakesTheRemainder(rest, s, k);
    } else {
      var tail := s[k..];
      var m :| 0 <= m <= |tail| && TokenDenotes(rest[0], tail[..m]) && Denotes(rest[1..], tail[m..]);
      BracesTakeALine(rest[0], tail[..m]);
      assert s[..k + m] == s[..k] + tail[..m] && s[k + m..] == tail[m..];
      SkipsToTheStar(rest[1..], s, k + m);
      Skipped(rest, s);
    }
  }

  lemma BracesTakeALine(t: Token, s: string)
    requires t.Alternation? && Readable(t) && TokenDenotes(t, s) && forall j :: 0 <= j < |t.alts| ==> OnOneLine(t.alts[j])
    ensures OnOneLine(s)
  {
    forall i | 0 <= i < |s| ensures !LineTerminator(s[i]) { var j := BraceCharacters(t, s, i); }
  }

  lemma Skipped(rest: seq<Token>, s: string)
    requires AllReadable(rest) && rest != [] && Skippable(rest[0]) && SegmentsThen(rest[1..], s)
    ensures SegmentsThen(rest, s)
  {
    var k :| 0 <= k <= |s| && WholeUpTo(s, k) && Denotes(rest[1..], s[k..]);
    SkippableIff(rest[0]);
    assert s[k..][..0] == "" && s[k..][0..] == s[k..];
    assert Denotes(rest, s[k..]);
  }

  lemma OneUnnamedCharacter(rest: seq<Token>, x: char) returns (s: string)
    requires AllMade(rest) && AllReadable(rest) && !StarFirst(rest) && Unnamed(x, rest)
    ensures Denotes([AnyText] + rest, s) && !SegmentsThen(rest, s)
  {
    var some := SomeText(rest);
    var r := ShortestText(rest, some);
    s := [x] + r;
    var ts := [AnyText] + rest;
    assert ts[1..] == rest && s[..1] == [x] && s[1..] == r;
    assert TokenDenotes(ts[0], s[..1]);
    forall k | 0 <= k <= |s| && WholeUpTo(s, k) ensures !Denotes(rest, s[k..]) {
      if k == 0 {
        assert s[0..] == s;
        if Denotes(rest, s) { StartsWithANamed(rest, s, x); }
      } else {
        assert |s[k..]| < |r|;
      }
    }
  }

  /** Braces included: as long as some character is not named in the rest of the glob and
      no braces hold a line break, `**` with its slash means whole segments exactly when
      a star comes first in the rest, or behind braces that may stand for nothing. */
  lemma SegmentsWithBracesIff(rest: seq<Token>, x: char)
    requires AllMade(rest) && AllReadable(rest) && Unnamed(x, rest) && BracesOnOneLine(rest)
    ensures (forall s :: Denotes([AnyText] + rest, s) <==> SegmentsThen(rest, s)) <==> StarFirst(rest)
  {
    var ts := [AnyText] + rest;
    assert ts[1..] == rest;
    if StarFirst(rest) {
      forall s ensures Denotes(ts, s) <==> SegmentsThen(rest, s) {
        if Denotes(ts, s) {
          var k :| 0 <= k <= |s| && TokenDenotes(ts[0], s[..k]) && Denotes(ts[1..], s[k..]);
          SkipsToTheStar(rest, s, k);
        }
        if SegmentsThen(rest, s) {
          var k :| 0 <= k <= |s| && WholeUpTo(s, k) && Denotes(rest, s[k..]);
          assert TokenDenotes(ts[0], s[..k]);
        }
      }
    } else {
      var s := OneUnnamedCharacter(rest, x);
      assert Denotes(ts, s) && !SegmentsThen(rest, s);
    }
  }
}
