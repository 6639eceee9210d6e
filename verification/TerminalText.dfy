/** `stripTerminalControls`: what a terminal would obey is taken out of the text
    of a coding CLI. */
module TerminalText {
  import opened Text
  import opened Wrappers

  const ESC: char := '\U{1B}'
  const BEL: char := '\U{07}'
  const CSI: char := '\U{9B}'
  const DEL: char := '\U{7F}'

  predicate Allowed(c: char) {
    (c >= ' ' || c == '\t' || c == '\n' || c == '\r') && c != DEL && c != CSI
  }

  // ---------------------------------------------------- control sequences

  predicate OpensOsc(s: string) { |s| >= 2 && s[0] == ESC && s[1] == ']' }

  predicate OpensCsi(s: string) { s != "" && (s[0] == CSI || (|s| >= 2 && s[0] == ESC && s[1] == '[')) }

  /** What is left after an operating-system command: it ends at BEL or ESC \. */
  function AfterOsc(s: string): (r: string)
    ensures |r| <= |s|
  {
    if s == "" then ""
    else if s[0] == BEL then s[1..]
    else if s[0] == ESC && |s| >= 2 && s[1] == '\\' then s[2..]
    else AfterOsc(s[1..])
  }

  /** What is left after a control sequence: it ends at its final byte. */
  function AfterCsi(s: string): (r: string)
    ensures |r| <= |s|
  {
    if s == "" then ""
    else if '@' <= s[0] <= '~' then s[1..]
    else AfterCsi(s[1..])
  }

  function Visible(s: string): (r: string)
    decreases |s|
  {
    if s == "" then ""
    else if OpensOsc(s) then Visible(AfterOsc(s[2..]))
    else if OpensCsi(s) then Visible(AfterCsi(s[if s[0] == ESC then 2 else 1..]))
    else (if Allowed(s[0]) then [s[0]] else "") + Visible(s[1..])
  }

  /** The source's scan: one index, moved by the inner loops as well. */
  method ScanVisible(s: string) returns (out: string)
    ensures out == Visible(s)
  {
    out := "";
    var i := 0;
    while i < |s|
      invariant 0 <= i
      invariant out + Visible(Drop(s, i)) == Visible(s)
      decreases |s| - i
    {
      var next, kept := ScanOne(s, i);
      out := out + kept;
      i := next;
    }
  }

  method ScanOne(s: string, i: nat) returns (next: nat, kept: string)
    requires i < |s|
    ensures next > i && Visible(s[i..]) == kept + Visible(Drop(s, next))
  {
    kept := "";
    ghost var rest := s[i..];
    if i + 1 < |s| && s[i] == ESC && s[i + 1] == ']' {
      assert rest[2..] == s[i + 2..];
      next := ScanOsc(s, i + 2);
    } else if s[i] == CSI || (i + 1 < |s| && s[i] == ESC && s[i + 1] == '[') {
      var start := if s[i] == ESC then i + 2 else i + 1;
      assert rest[start - i..] == s[start..];
      next := ScanCsi(s, start);
    } else {
      assert rest[1..] == s[i + 1..];
      if Allowed(s[i]) { kept := [s[i]]; }
      next := i + 1;
    }
  }

  method ScanOsc(s: string, start: nat) returns (i: nat)
    requires start <= |s|
    ensures i >= start && Drop(s, i) == AfterOsc(s[start..])
  {
    i := start;
    while i < |s|
      invariant start <= i <= |s|
      invariant AfterOsc(s[i..]) == AfterOsc(s[start..])
    {
      if s[i] == BEL { return i + 1; }
      if s[i] == ESC && i + 1 < |s| && s[i + 1] == '\\' { return i + 2; }
      i := i + 1;
    }
    i := i + 1;
  }

  method ScanCsi(s: string, start: nat) returns (i: nat)
    requires start <= |s|
    ensures i >= start && Drop(s, i) == AfterCsi(s[start..])
  {
    i := start;
    while i < |s|
      invariant start <= i <= |s|
      invariant AfterCsi(s[i..]) == AfterCsi(s[start..])
    {
      if '@' <= s[i] <= '~' { return i + 1; }
      i := i + 1;
    }
    i := i + 1;
  }

  // ------------------------------------------------------ orphaned colours

  predicate Digit(c: char) { '0' <= c <= '9' }

  /** How many digits stand at the front, at most three of them. */
  function Digits(s: string): (n: nat)
    ensures n <= 3 && n <= |s|
  {
    if s == "" || !Digit(s[0]) then 0
    else if |s| == 1 || !Digit(s[1]) then 1
    else if |s| == 2 || !Digit(s[2]) then 2 else 3
  }

  /** Length of `(;ddd)*m` at the front, 0 when it is not there. */
  function MoreParameters(s: string): (n: nat)
    ensures n <= |s|
  {
    if s == "" then 0
    else if s[0] == 'm' then 1
    else if s[0] != ';' || Digits(s[1..]) == 0 then 0
    else
      var d := Digits(s[1..]);
      var more := MoreParameters(s[1 + d..]);
      if more == 0 then 0 else 1 + d + more
  }

  /** Length of a colour fragment such as `[0m` at the front, 0 without one. */
  function FragmentLength(s: string): (n: nat)
    ensures n <= |s|
  {
    if s == "" || s[0] != '[' then 0
    else if |s| >= 2 && s[1] == 'm' then 2
    else
      var d := Digits(s[1..]);
      var more := MoreParameters(s[1 + d..]);
      if d == 0 || more == 0 then 0 else 1 + d + more
  }

  function RemoveFragments(s: string): (r: string)
    ensures |r| <= |s|
    decreases |s|
  {
    if s == "" then ""
    else if FragmentLength(s) > 0 then RemoveFragments(s[FragmentLength(s)..])
    else [s[0]] + RemoveFragments(s[1..])
  }

  function StripTerminalControls(s: string): string { RemoveFragments(Visible(s)) }

  // ----------------------------------------------- what is taken for what

  /** Characters come through but for the controls, of which layout does. */
  lemma CharacterStays(c: char, rest: string)
    requires c != '\U{1B}' || rest == "" || rest[0] !in {'[', ']'}
    requires c != '\U{9B}'
    ensures Visible([c] + rest) == (if c in {'\t', '\n', '\r'} || (' ' <= c && c != '\U{7F}') then [c] else []) + Visible(rest)
  {
    assert ([c] + rest)[1..] == rest;
  }

  ghost predicate Unended(text: string) {
    && '\U{07}' !in text
    && forall i :: 0 <= i < |text| - 1 ==> text[i] != '\U{1B}' || text[i + 1] != '\\'
  }

  /** An operating system command vanishes with its text and its end, BEL or ESC \, and
      one without an end with all that follows. */
  lemma {:induction false} CommandEnds(text: string, end: string, rest: string)
    requires Unended(text) && (end == "\U{07}" || end == "\U{1B}\\" || (end == "" && rest == ""))
    ensures AfterOsc(text + end + rest) == rest
  {
    var s := text + end + rest;
    if text == "" {
      assert s == end + rest;
    } else {
      assert s[1..] == text[1..] + end + rest;
      assert |text| > 1 ==> s[1] == text[1];
      CommandEnds(text[1..], end, rest);
    }
  }

  lemma CommandVanishes(text: string, end: string, rest: string)
    requires Unended(text) && (end == "\U{07}" || end == "\U{1B}\\" || (end == "" && rest == ""))
    ensures Visible("\U{1B}]" + text + end + rest) == Visible(rest)
  {
    var s := "\U{1B}]" + text + end + rest;
    CommandEnds(text, end, rest);
    assert s[2..] == text + end + rest;
  }

  predicate Final(c: char) { 64 <= c as int <= 126 }

  lemma {:induction false} SequenceEnds(parameters: string, final: string, rest: string)
    requires (forall c | c in parameters :: !Final(c)) && (if final == "" then rest == "" else |final| == 1 && Final(final[0]))
    ensures AfterCsi(parameters + final + rest) == rest
  {
    var s := parameters + final + rest;
    if parameters == "" {
      assert s == final + rest;
    } else {
      assert s[0] == parameters[0] && parameters[0] in parameters;
      assert s[1..] == parameters[1..] + final + rest;
      SequenceEnds(parameters[1..], final, rest);
    }
  }

  /** A control sequence, opened in seven or in eight bits, vanishes up to its final byte, and
      one without a final byte with all that follows. */
  lemma SequenceVanishes(opening: string, parameters: string, final: string, rest: string)
    requires opening in {"\U{1B}[", "\U{9B}"} && forall c | c in parameters :: !Final(c)
    requires if final == "" then rest == "" else |final| == 1 && Final(final[0])
    ensures Visible(opening + parameters + final + rest) == Visible(rest)
  {
    var s := opening + parameters + final + rest;
    SequenceEnds(parameters, final, rest);
    assert s[|opening|..] == parameters + final + rest;
  }

  /** One to three decimal digits. */
  predicate Parameter(p: string) { 1 <= |p| <= 3 && forall c | c in p :: c in "0123456789" }

  function Rest(parameters: seq<string>): string {
    if parameters == [] then "m" else ";" + parameters[0] + Rest(parameters[1..])
  }

  /** A colour fragment as CLIs leave it behind. */
  function Colour(parameters: seq<string>): string {
    if parameters == [] then "[m" else "[" + parameters[0] + Rest(parameters[1..])
  }

  lemma {:induction false} DigitIff(c: char)
    ensures Digit(c) <==> c in "0123456789"
  {
    var digits := "0123456789";
    if Digit(c) { assert digits[c as int - 48] == c; }
  }

  lemma DigitsOf(p: string, rest: string)
    requires Parameter(p) && (rest == "" || rest[0] in {';', 'm'})
    ensures Digits(p + rest) == |p|
  {
    var s := p + rest;
    forall i | 0 <= i < |p| ensures Digit(s[i]) {
      assert s[i] == p[i];
      DigitIff(p[i]);
    }
  }

  lemma {:induction false} RestReads(parameters: seq<string>, rest: string)
    requires forall p | p in parameters :: Parameter(p)
    ensures MoreParameters(Rest(parameters) + rest) == |Rest(parameters)|
  {
    var s := Rest(parameters) + rest;
    if parameters != [] {
      var p, more := parameters[0], Rest(parameters[1..]);
      RestReads(parameters[1..], rest);
      assert s[1..] == p + (more + rest);
      DigitsOf(p, more + rest);
      assert s[1 + |p|..] == more + rest;
    }
  }

  /** Every colour fragment is taken for one, whatever follows it. */
  lemma ColourReads(parameters: seq<string>, rest: string)
    requires forall p | p in parameters :: Parameter(p)
    ensures FragmentLength(Colour(parameters) + rest) == |Colour(parameters)|
  {
    if parameters != [] {
      RestReads(parameters[1..], rest);
      FirstReads(parameters[0], Rest(parameters[1..]), rest);
    }
  }

  lemma FirstReads(p: string, more: string, rest: string)
    requires Parameter(p) && more != "" && more[0] in {';', 'm'} && MoreParameters(more + rest) == |more|
    ensures FragmentLength("[" + p + more + rest) == 1 + |p| + |more|
  {
    var s := "[" + p + more + rest;
    assert s[1..] == p + (more + rest);
    DigitsOf(p, more + rest);
    assert s[1 + |p|..] == more + rest;
    assert p[0] in p && s[1] == p[0] != 'm';
  }

  lemma DigitsAre(s: string)
    requires Digits(s) > 0
    ensures Parameter(s[..Digits(s)])
  {
    var p := s[..Digits(s)];
    forall c | c in p ensures c in "0123456789" {
      var i :| 0 <= i < |p| && p[i] == c;
      DigitIff(c);
    }
  }

  lemma {:induction false} RestIsWritten(s: string) returns (parameters: seq<string>)
    requires MoreParameters(s) > 0
    ensures (forall p | p in parameters :: Parameter(p)) && s[..MoreParameters(s)] == Rest(parameters)
  {
    if s[0] == 'm' {
      parameters := [];
    } else {
      var d := Digits(s[1..]);
      var after := RestIsWritten(s[1 + d..]);
      DigitsAre(s[1..]);
      parameters := [s[1..][..d]] + after;
      RestOfMore(s[1..][..d], after, s, MoreParameters(s[1 + d..]));
    }
  }

  lemma RestOfMore(p: string, after: seq<string>, s: string, m: nat)
    requires 1 + |p| + m <= |s| && s[0] == ';' && s[1..][..|p|] == p && s[1 + |p|..][..m] == Rest(after)
    ensures s[..1 + |p| + m] == Rest([p] + after)
  {
    assert ([p] + after)[1..] == after;
    assert s[..1 + |p| + m] == [s[0]] + s[1..][..|p|] + s[1 + |p|..][..m];
  }

  /** And nothing else is. */
  lemma FragmentIsColour(s: string) returns (parameters: seq<string>)
    requires FragmentLength(s) > 0
    ensures (forall p | p in parameters :: Parameter(p)) && s[..FragmentLength(s)] == Colour(parameters)
  {
    if s[1] == 'm' {
      parameters := [];
    } else {
      var d := Digits(s[1..]);
      var after := RestIsWritten(s[1 + d..]);
      DigitsAre(s[1..]);
      parameters := [s[1..][..d]] + after;
      assert parameters[1..] == after;
      assert s[..FragmentLength(s)] == "[" + s[1..][..d] + s[1 + d..][..MoreParameters(s[1 + d..])];
    }
  }

  // ---------------------------------------------------------- properties

  ghost predicate Harmless(s: string) { forall i :: 0 <= i < |s| ==> Allowed(s[i]) }

  lemma {:induction false} VisibleIsHarmless(s: string)
    ensures Harmless(Visible(s)) && |Visible(s)| <= |s|
    ensures |Visible(s)| == |s| ==> Visible(s) == s && Harmless(s)
    decreases |s|
  {
    if s == "" {
    } else if OpensOsc(s) {
      VisibleIsHarmless(AfterOsc(s[2..]));
    } else if OpensCsi(s) {
      VisibleIsHarmless(AfterCsi(s[if s[0] == ESC then 2 else 1..]));
    } else {
      VisibleIsHarmless(s[1..]);
      assert s == [s[0]] + s[1..];
    }
  }

  lemma {:induction false} HarmlessIsVisible(s: string)
    requires Harmless(s)
    ensures Visible(s) == s
  {
    if s != "" {
      assert Allowed(s[0]);
      HarmlessIsVisible(s[1..]);
    }
  }

  lemma {:induction false} RemovalKeepsHarmless(s: string)
    requires Harmless(s)
    ensures Harmless(RemoveFragments(s))
    decreases |s|
  {
    if s != "" {
      RemovalKeepsHarmless(s[if FragmentLength(s) > 0 then FragmentLength(s) else 1..]);
    }
  }

  /** No 7-bit control survives but tab, line feed and carriage return, and no 8-bit CSI. */
  lemma StrippedIsHarmless(s: string)
    ensures Harmless(StripTerminalControls(s))
  {
    VisibleIsHarmless(s);
    RemovalKeepsHarmless(Visible(s));
  }

  /** The control characters of the 7-bit and the 8-bit set. */
  predicate Control(c: char) { c < ' ' || '\U{7F}' <= c <= '\U{9F}' }

  ghost predicate Survives(c: char) { exists s :: c in StripTerminalControls(s) }

  /** The controls that can survive: the three for layout, and every 8-bit one except CSI,
      among them the 8-bit forms of operating system commands and device controls. */
  lemma SurvivingControlsIff(c: char)
    requires Control(c)
    ensures Survives(c) <==> c in {'\t', '\n', '\r'} || ('\U{80}' <= c && c != '\U{9B}')
  {
    if Allowed(c) {
      UntouchedIff([c]);
      assert c in StripTerminalControls([c]);
    } else if Survives(c) {
      var s :| c in StripTerminalControls(s);
      StrippedIsHarmless(s);
    }
  }

  ghost predicate FragmentFree(s: string) {
    forall i :: 0 <= i < |s| ==> FragmentLength(s[i..]) == 0
  }

  lemma FragmentFreeStep(c: char, rest: string)
    ensures FragmentFree([c] + rest) <==> FragmentLength([c] + rest) == 0 && FragmentFree(rest)
  {
    var s := [c] + rest;
    assert s[0..] == s;
    assert forall i :: 0 <= i < |rest| ==> rest[i..] == s[i + 1..];
    if FragmentLength(s) == 0 && FragmentFree(rest) {
      forall i | 0 <= i < |s| ensures FragmentLength(s[i..]) == 0 {
        if i > 0 { assert s[i..] == rest[i - 1..]; }
      }
    }
    if FragmentFree(s) {
      forall i | 0 <= i < |rest| ensures FragmentLength(rest[i..]) == 0 { assert rest[i..] == s[i + 1..]; }
    }
  }

  lemma {:induction false} RemovesNothingIff(s: string)
    ensures FragmentFree(s) <==> RemoveFragments(s) == s
    decreases |s|
  {
    if s != "" {
      assert s == [s[0]] + s[1..];
      FragmentFreeStep(s[0], s[1..]);
      RemovesNothingIff(s[1..]);
      if FragmentLength(s) == 0 {
        var r := RemoveFragments(s[1..]);
        assert RemoveFragments(s) == [s[0]] + r && ([s[0]] + r)[1..] == r;
      }
    }
  }

  /** Text comes through untouched exactly when it holds nothing to strip. */
  lemma UntouchedIff(s: string)
    ensures StripTerminalControls(s) == s <==> Harmless(s) && FragmentFree(s)
  {
    VisibleIsHarmless(s);
    RemovesNothingIff(s);
    if Harmless(s) { HarmlessIsVisible(s); }
  }

  // --------------------------------------------------- when one pass is enough

  /** How far the parameters of a colour fragment have been read. */
  datatype Reading = Opened | OneDigit | TwoDigits | ThreeDigits | Separated

  function ReadOn(r: Reading, c: char): Option<Reading> {
    if Digit(c) then
      match r
      case Opened => Some(OneDigit)
      case OneDigit => Some(TwoDigits)
      case TwoDigits => Some(ThreeDigits)
      case ThreeDigits => None
      case Separated => Some(OneDigit)
    else if c == ';' && r != Opened && r != Separated then Some(Separated)
    else None
  }

  /** From this point the text runs on to the `m` of a colour fragment. */
  predicate Completes(r: Reading, s: string)
    decreases |s|
  {
    s != "" && if s[0] == 'm' then r != Separated else ReadOn(r, s[0]).Some? && Completes(ReadOn(r, s[0]).value, s[1..])
  }

  lemma {:induction false} CompletesParameters(r: Reading, s: string)
    requires r in {OneDigit, TwoDigits, ThreeDigits} && (r == ThreeDigits || s == "" || !Digit(s[0]))
    ensures Completes(r, s) <==> MoreParameters(s) > 0
    decreases |s|
  {
    if s != "" && s[0] == ';' { CompletesGroup(Separated, s[1..]); }
  }

  /** A group of one to three digits, and then the rest of the parameters. */
  lemma {:induction false} CompletesGroup(r: Reading, s: string)
    requires r == Separated || (r == Opened && (s == "" || s[0] != 'm'))
    ensures Completes(r, s) <==> Digits(s) > 0 && MoreParameters(s[Digits(s)..]) > 0
    decreases |s|
  {
    var d := Digits(s);
    if d > 0 {
      CompletesParameters(if d == 1 then OneDigit else if d == 2 then TwoDigits else ThreeDigits, s[d..]);
      assert Completes(r, s) == Completes(OneDigit, s[1..]);
      if d >= 2 {
        assert s[1..][1..] == s[2..];
        assert Completes(OneDigit, s[1..]) == Completes(TwoDigits, s[2..]);
      }
      if d == 3 {
        assert s[2..][1..] == s[3..];
        assert Completes(TwoDigits, s[2..]) == Completes(ThreeDigits, s[3..]);
      }
    }
  }

  lemma FragmentIff(s: string)
    ensures FragmentLength(s) > 0 <==> s != "" && s[0] == '[' && Completes(Opened, s[1..])
  {
    if s != "" && s[0] == '[' && (|s| == 1 || s[1] != 'm') {
      CompletesGroup(Opened, s[1..]);
      assert s[1..][Digits(s[1..])..] == s[1 + Digits(s[1..])..];
    }
  }

  /** The same, where whole fragments in between are passed over. */
  predicate CompletesTorn(r: Reading, s: string)
    decreases |s|
  {
    s != "" &&
    if FragmentLength(s) > 0 then CompletesTorn(r, s[FragmentLength(s)..])
    else if s[0] == 'm' then r != Separated
    else ReadOn(r, s[0]).Some? && CompletesTorn(ReadOn(r, s[0]).value, s[1..])
  }

  /** One scan: some fragment of the text is torn apart by other, whole ones. */
  predicate Torn(s: string)
    decreases |s|
  {
    s != "" &&
    if FragmentLength(s) > 0 then Torn(s[FragmentLength(s)..])
    else (s[0] == '[' && CompletesTorn(Opened, s[1..])) || Torn(s[1..])
  }

  lemma {:induction false} TornCompletes(r: Reading, s: string)
    ensures CompletesTorn(r, s) <==> Completes(r, RemoveFragments(s))
    decreases |s|
  {
    if s != "" {
      if FragmentLength(s) > 0 {
        TornCompletes(r, s[FragmentLength(s)..]);
      } else if ReadOn(r, s[0]).Some? {
        TornCompletes(ReadOn(r, s[0]).value, s[1..]);
      }
    }
  }

  /** Removal leaves a fragment behind exactly when one was torn. */
  lemma {:induction false} LeavesFragmentIff(s: string)
    ensures FragmentFree(RemoveFragments(s)) <==> !Torn(s)
    decreases |s|
  {
    if s != "" {
      if FragmentLength(s) > 0 {
        LeavesFragmentIff(s[FragmentLength(s)..]);
      } else {
        var rest := RemoveFragments(s[1..]);
        LeavesFragmentIff(s[1..]);
        FragmentFreeStep(s[0], rest);
        FragmentIff([s[0]] + rest);
        assert ([s[0]] + rest)[1..] == rest;
        TornCompletes(Opened, s[1..]);
      }
    }
  }

  /** One pass is enough exactly when no colour fragment of the visible text is torn
      apart by another one. */
  lemma OnePassIsEnoughIff(s: string)
    ensures StripTerminalControls(StripTerminalControls(s)) == StripTerminalControls(s) <==> !Torn(Visible(s))
  {
    var r := StripTerminalControls(s);
    StrippedIsHarmless(s);
    HarmlessIsVisible(r);
    RemovesNothingIff(r);
    LeavesFragmentIff(Visible(s));
  }

  lemma InnerFragment()
    ensures RemoveFragments("[0mm") == "m"
  {
    var s := "[0mm";
    assert s[1..] == "0mm" && s[2..] == "mm" && s[3..] == "m";
    assert Digits("0mm") == 1 && FragmentLength(s) == 3;
    assert RemoveFragments("m") == "m";
  }

  /** One pass is not always enough: removing one fragment can join another. */
  lemma SecondPassCanStripMore()
    ensures StripTerminalControls("[[0mm") == "[m"
    ensures StripTerminalControls("[m") == ""
  {
    var s, t := "[[0mm", "[m";
    HarmlessIsVisible(t);
    HarmlessIsVisible(s);
    InnerFragment();
    assert s[1..] == "[0mm";
    OpeningStays(s);
    BareFragment(t);
  }

  lemma OpeningStays(s: string)
    requires |s| >= 2 && s[0] == '[' && s[1] == '['
    ensures RemoveFragments(s) == ['['] + RemoveFragments(s[1..])
  {
    assert s[1..][0] == '[';
  }

  lemma BareFragment(s: string)
    requires |s| == 2 && s[0] == '[' && s[1] == 'm'
    ensures RemoveFragments(s) == ""
  {
    assert s[2..] == "";
  }
}
