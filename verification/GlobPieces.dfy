/** What a glob says, read off its text piece by piece and without the translation:
    every glob is the text of one list of pieces, and accepts what the pieces say. */
module GlobPieces {
  import opened Glob
  import opened Text

  datatype Piece = Letter(c: char) | OneStar | TwoStars | StarsSlash | Braces(alts: seq<string>)

  function Joined(alts: seq<string>): string {
    if alts == [] then "" else if |alts| == 1 then alts[0] else alts[0] + "," + Joined(alts[1..])
  }

  function PieceText(p: Piece): string {
    match p
    case Letter(c) => [c]
    case OneStar => "*"
    case TwoStars => "**"
    case StarsSlash => "**/"
    case Braces(alts) => "{" + Joined(alts) + "}"
  }

  /** The piece is the longest that the text can begin with. */
  predicate Begins(p: Piece, rest: string) {
    match p
    case Letter(c) => c != '*' && (c == '{' ==> '}' !in rest)
    case OneStar => rest == "" || rest[0] != '*'
    case TwoStars => rest == "" || rest[0] != '/'
    case StarsSlash => true
    case Braces(alts) => alts != [] && forall i :: 0 <= i < |alts| ==> ',' !in alts[i] && '}' !in alts[i]
  }

  /** Alternatives are free of commas and closing braces, and pieces that could be read as
      one are not written side by side. */
  predicate Written(ps: seq<Piece>) {
    ps == [] || (Written(ps[1..]) && Begins(ps[0], GlobText(ps[1..])))
  }

  function GlobText(ps: seq<Piece>): string { if ps == [] then "" else PieceText(ps[0]) + GlobText(ps[1..]) }

  function TokenOf(p: Piece): Token {
    match p
    case Letter(c) => Lit(c)
    case OneStar => Star
    case TwoStars => AnyText
    case StarsSlash => AnyText
    case Braces(alts) => Alternation(alts)
  }

  function TokensOf(ps: seq<Piece>): (ts: seq<Token>)
    ensures |ts| == |ps| && forall i :: 0 <= i < |ps| ==> ts[i] == TokenOf(ps[i])
  {
    if ps == [] then [] else [TokenOf(ps[0])] + TokensOf(ps[1..])
  }

  // --------------------------------------------------------- print and read

  lemma {:induction false} JoinedSplits(alts: seq<string>)
    requires alts != [] && forall i :: 0 <= i < |alts| ==> ',' !in alts[i]
    ensures Split(Joined(alts), ',') == alts
  {
    if |alts| == 1 {
      SplitWhole(alts[0], ',');
    } else {
      JoinedSplits(alts[1..]);
      assert Joined(alts) == alts[0] + [','] + Joined(alts[1..]);
      SplitAtFirst(alts[0], Joined(alts[1..]), ',');
      assert [alts[0]] + alts[1..] == alts;
    }
  }

  lemma {:induction false} JoinedHasNoBrace(alts: seq<string>)
    requires alts != [] && forall i :: 0 <= i < |alts| ==> '}' !in alts[i]
    ensures '}' !in Joined(alts)
  {
    if |alts| > 1 { JoinedHasNoBrace(alts[1..]); }
  }

  lemma BracesRead(alts: seq<string>, rest: string)
    requires Begins(Braces(alts), rest)
    ensures Tokens(PieceText(Braces(alts)) + rest) == [Alternation(alts)] + Tokens(rest)
  {
    var inner := Joined(alts);
    var g := "{" + inner + "}" + rest;
    JoinedHasNoBrace(alts);
    JoinedSplits(alts);
    assert g == ("{" + inner) + ['}'] + rest;
    IndexOfIs("{" + inner, rest, '}');
    var close := |inner| + 1;
    assert g[1..close] == inner && g[close + 1..] == rest;
  }

  lemma PieceReads(p: Piece, rest: string)
    requires Begins(p, rest)
    ensures Tokens(PieceText(p) + rest) == [TokenOf(p)] + Tokens(rest)
  {
    var g := PieceText(p) + rest;
    match p {
      case Letter(c) =>
        assert g[1..] == rest;
        if c == '{' { assert '}' !in g; }
      case OneStar => assert g[1..] == rest;
      case TwoStars => assert g[2..] == rest;
      case StarsSlash => assert g[3..] == rest;
      case Braces(alts) => BracesRead(alts, rest);
    }
  }

  /** The tokens of a glob are its pieces. */
  lemma {:induction false} GlobReads(ps: seq<Piece>)
    requires Written(ps)
    ensures Tokens(GlobText(ps)) == TokensOf(ps)
  {
    if ps != [] {
      GlobReads(ps[1..]);
      PieceReads(ps[0], GlobText(ps[1..]));
    }
  }

  lemma {:induction false} SplitFields(s: string, sep: char)
    ensures sep == ',' ==> Joined(Split(s, sep)) == s
    ensures forall i :: 0 <= i < |Split(s, sep)| ==> sep !in Split(s, sep)[i] && forall c :: c in Split(s, sep)[i] ==> c in s
  {
    if s != "" {
      SplitFields(s[1..], sep);
      var rest := Split(s[1..], sep);
      if s[0] == sep {
        assert ([""] + rest)[1..] == rest;
        assert Split(s, sep) == [""] + rest;
        assert s == [s[0]] + s[1..];
      } else {
        var fields := [[s[0]] + rest[0]] + rest[1..];
        assert fields[1..] == rest[1..];
        assert Split(s, sep) == fields;
        assert s == [s[0]] + s[1..];
        if sep == ',' && |rest| > 1 { assert Joined(fields) == [s[0]] + rest[0] + "," + Joined(rest[1..]); }
      }
    }
  }

  /** And every glob is the text of such pieces, so that this says all about `Tokens`. */
  lemma {:induction false} EveryGlobIsWritten(g: string) returns (ps: seq<Piece>)
    ensures Written(ps) && GlobText(ps) == g
    decreases |g|
  {
    if g == "" {
      ps := [];
    } else {
      var p, n := FirstPiece(g);
      var rest := EveryGlobIsWritten(g[n..]);
      ps := [p] + rest;
      assert ps[1..] == rest && g == g[..n] + g[n..];
    }
  }

  lemma FirstPiece(g: string) returns (p: Piece, n: nat)
    requires g != ""
    ensures 1 <= n <= |g| && Begins(p, g[n..]) && PieceText(p) == g[..n]
  {
    p, n := Letter(g[0]), 1;
    if g[0] == '*' {
      if |g| >= 2 && g[1] == '*' {
        if |g| >= 3 && g[2] == '/' { p, n := StarsSlash, 3; } else { p, n := TwoStars, 2; }
      } else {
        p := OneStar;
      }
    } else if g[0] == '{' && '}' in g[1..] {
      var close := IndexOf(g[1..], '}');
      var inner := g[1..][..close];
      SplitFields(inner, ',');
      p, n := Braces(Split(inner, ',')), close + 2;
      assert g[..n] == "{" + inner + "}";
    }
  }

  // ------------------------------------------------------------ end to end

  /** A star in braces is left to `StarInBraces`. */
  predicate Plain(p: Piece) { p.Braces? ==> p.alts != [] && AllStarFree(p.alts) }

  predicate AllPlain(ps: seq<Piece>) { forall i :: 0 <= i < |ps| ==> Plain(ps[i]) }

  predicate Says(p: Piece, s: string) {
    match p
    case Letter(c) => s == [c]
    case OneStar => '/' !in s
    case TwoStars => OnOneLine(s)
    case StarsSlash => OnOneLine(s)
    case Braces(alts) => s in alts
  }

  /** The text divides into one stretch for every piece. */
  ghost predicate Matches(ps: seq<Piece>, s: string) {
    if ps == [] then s == ""
    else exists k :: 0 <= k <= |s| && Says(ps[0], s[..k]) && Matches(ps[1..], s[k..])
  }

  lemma PieceDenotes(p: Piece, s: string)
    requires Plain(p)
    ensures Readable(TokenOf(p)) && (TokenDenotes(TokenOf(p), s) <==> Says(p, s))
  {
    if p.Braces? { PlainAlternation(p.alts, s); }
  }

  lemma AllReadableOf(ps: seq<Piece>)
    requires AllPlain(ps)
    ensures AllReadable(TokensOf(ps))
  {
    forall i | 0 <= i < |ps| ensures Readable(TokensOf(ps)[i]) { PieceDenotes(ps[i], ""); }
  }

  lemma {:induction false} PiecesDenote(ps: seq<Piece>, s: string)
    requires AllPlain(ps)
    ensures AllReadable(TokensOf(ps)) && (Denotes(TokensOf(ps), s) <==> Matches(ps, s))
    decreases |ps|
  {
    AllReadableOf(ps);
    if ps != [] {
      var ts := TokensOf(ps);
      assert ts[1..] == TokensOf(ps[1..]);
      forall k | 0 <= k <= |s|
        ensures TokenDenotes(ts[0], s[..k]) <==> Says(ps[0], s[..k])
        ensures Denotes(ts[1..], s[k..]) <==> Matches(ps[1..], s[k..])
      {
        PieceDenotes(ps[0], s[..k]);
        PiecesDenote(ps[1..], s[k..]);
      }
    }
  }

  /** From the text of a glob to the paths that its compiled pattern accepts. */
  lemma WrittenGlobMeans(ps: seq<Piece>, s: string)
    requires Written(ps) && AllPlain(ps)
    ensures var regex := Read("^" + EmitAll(Tokens(GlobText(ps))) + "$");
            regex.Some? && (Test(regex.value, s) <==> Matches(ps, s))
  {
    GlobReads(ps);
    PiecesDenote(ps, s);
    GlobMeans(GlobText(ps), TokensOf(ps), s);
  }

  /** The glob of the baseline sensors, as it is written. */
  lemma SourceGlob()
    ensures GlobText([StarsSlash, OneStar, Letter('.'), Braces(["ts", "tsx"])]) == "**/*.{ts,tsx}"
  {
    var dot, braces := Letter('.'), Braces(["ts", "tsx"]);
    var ps := [StarsSlash, OneStar, dot, braces];
    assert Joined(["ts", "tsx"]) == "ts" + "," + Joined(["tsx"]) by { assert ["ts", "tsx"][1..] == ["tsx"]; }
    assert [braces][1..] == [] && [dot, braces][1..] == [braces];
    assert ps[1..] == [OneStar, dot, braces] && ps[1..][1..] == [dot, braces];
    assert GlobText([braces]) == "{ts,tsx}";
    assert GlobText([dot, braces]) == ".{ts,tsx}";
    assert GlobText(ps[1..]) == "*.{ts,tsx}";
  }

  /** It accepts every file with one of the two extensions, in any directory. */
  lemma Ending(s: string, directory: string, name: string, extension: string)
    requires s == directory + name + "." + extension && extension in ["ts", "tsx"] && '/' !in name && OnOneLine(directory)
    ensures Matches([StarsSlash, OneStar, Letter('.'), Braces(["ts", "tsx"])], s)
  {
    var dot, braces := Letter('.'), Braces(["ts", "tsx"]);
    var ps := [StarsSlash, OneStar, dot, braces];
    assert ps[1..] == [OneStar, dot, braces] && ps[1..][1..] == [dot, braces] && [dot, braces][1..] == [braces] && [braces][1..] == [];
    assert extension[..|extension|] == extension && extension[|extension|..] == "";
    assert Matches([], "");
    assert Says(braces, extension[..|extension|]) && Matches([braces], extension);
    var tail := "." + extension;
    assert tail[..1] == "." && tail[1..] == extension;
    assert Matches([dot, braces], tail);
    var file := name + tail;
    assert file[..|name|] == name && file[|name|..] == tail;
    assert Matches(ps[1..], file);
    assert s[..|directory|] == directory && s[|directory|..] == file;
  }

  /** The same of what the loop returns. */
  method Compile(ps: seq<Piece>) returns (pattern: string)
    requires Written(ps) && AllPlain(ps)
    ensures Read(pattern).Some? && forall s :: Test(Read(pattern).value, s) <==> Matches(ps, s)
  {
    pattern := GlobToRegExp(GlobText(ps));
    WrittenGlobMeans(ps, "");
    forall s ensures Read(pattern).Some? && (Test(Read(pattern).value, s) <==> Matches(ps, s)) { WrittenGlobMeans(ps, s); }
  }
}
