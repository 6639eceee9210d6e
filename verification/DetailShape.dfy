/** What the stored detail of sensor results looks like: its JSON objects spelled out by
    property name, as `JSON.stringify` writes them. */
module DetailShape {
  import opened DetailBudget
  import opened Wrappers

  function Field(name: string, value: string): string { "\"" + name + "\":" + value }

  /** Properties in order, separated by commas. */
  function Fields(names: seq<string>, values: seq<string>): string
    requires |names| == |values|
  {
    if names == [] then ""
    else
      var n := |names| - 1;
      (if n == 0 then "" else Fields(names[..n], values[..n]) + ",") + Field(names[n], values[n])
  }

  function Object(names: seq<string>, values: seq<string>): string
    requires |names| == |values|
  {
    "{" + Fields(names, values) + "}"
  }

  lemma PlainMember(name: string, value: string)
    requires Plain(name)
    ensures Member(name, value) == Field(name, value)
  {
    PlainText(name);
  }

  ghost predicate Spells(members: seq<string>, names: seq<string>, values: seq<string>) {
    && |members| == |names| == |values|
    && forall i :: 0 <= i < |names| ==> Plain(names[i]) && members[i] == Member(names[i], values[i])
  }

  lemma {:induction false} JoinedFields(members: seq<string>, names: seq<string>, values: seq<string>)
    requires Spells(members, names, values)
    ensures Joined(members) == Fields(names, values)
  {
    if members != [] {
      var n := |members| - 1;
      PlainMember(names[n], values[n]);
      if n > 0 { JoinedFields(members[..n], names[..n], values[..n]); }
    }
  }

  lemma ObjectSpells(members: seq<string>, names: seq<string>, values: seq<string>)
    requires Spells(members, names, values)
    ensures ObjectText(members) == Object(names, values)
  {
    JoinedFields(members, names, values);
  }

  lemma {:induction false} QuotedLength(texts: seq<string>)
    ensures |Quoted(texts)| == |texts|
  {
    if texts != [] { QuotedLength(texts[..|texts| - 1]); }
  }

  /** The samples of a group, quoted one by one. */
  lemma {:induction false} QuotedAt(texts: seq<string>, i: nat)
    requires i < |texts| == |Quoted(texts)|
    ensures Quoted(texts)[i] == Quote(texts[i])
  {
    var before := texts[..|texts| - 1];
    QuotedLength(before);
    if i < |before| { QuotedAt(before, i); }
  }

  /** A group of failures: what they have in common, how many they are, and a few of them. */
  lemma GroupSpelled(g: Group)
    ensures GroupText(g) == Object(
              ["reason", "result", "exitCode", "stderr", "fileCount", "sampleFiles"],
              [Quote(match g.reason case ScriptError => "script-error" case ToolUnavailable => "tool-unavailable" case Other(text) => text),
               Quote(g.result),
               match g.exitCode case Some(code) => (if code < 0 then "-" + Decimal(-code) else Decimal(code)) case None => "null",
               match g.stderr case Some(text) => Quote(text) case None => "null",
               Decimal(g.fileCount),
               ArrayText(Quoted(g.sampleFiles))])
  {
    GroupNames();
    ReasonSpelled(g.reason);
    Six("reason", "result", "exitCode", "stderr", "fileCount", "sampleFiles", Quote(ReasonText(g.reason)), Quote(g.result),
        OptionalInteger(g.exitCode), OptionalString(g.stderr), Decimal(g.fileCount), ArrayText(Quoted(g.sampleFiles)));
  }

  lemma ReasonSpelled(r: Reason)
    ensures ReasonText(r) == match r case ScriptError => "script-error" case ToolUnavailable => "tool-unavailable" case Other(text) => text
  {}

  lemma Six(n0: string, n1: string, n2: string, n3: string, n4: string, n5: string,
            v0: string, v1: string, v2: string, v3: string, v4: string, v5: string)
    requires Plain(n0) && Plain(n1) && Plain(n2) && Plain(n3) && Plain(n4) && Plain(n5)
    ensures ObjectText([Member(n0, v0), Member(n1, v1), Member(n2, v2), Member(n3, v3), Member(n4, v4), Member(n5, v5)])
            == Object([n0, n1, n2, n3, n4, n5], [v0, v1, v2, v3, v4, v5])
  {
    ObjectSpells([Member(n0, v0), Member(n1, v1), Member(n2, v2), Member(n3, v3), Member(n4, v4), Member(n5, v5)],
                 [n0, n1, n2, n3, n4, n5], [v0, v1, v2, v3, v4, v5]);
  }

  lemma GroupNames()
    ensures Plain("reason") && Plain("result") && Plain("exitCode") && Plain("stderr") && Plain("fileCount") && Plain("sampleFiles")
  {}

  /** Any other result, with its diagnostic if it has one. */
  lemma FileSpelled(r: FileResult)
    ensures FileText(r) ==
              if r.detail.Some? then
                Object(["file", "result", "timedOut", "detail"],
                       [Quote(r.file), Quote(r.result), if r.timedOut then "true" else "false", r.detail.value.json])
              else
                Object(["file", "result", "timedOut"], [Quote(r.file), Quote(r.result), if r.timedOut then "true" else "false"])
  {
    FileNames();
    ThreeOrFour("file", "result", "timedOut", "detail", Quote(r.file), Quote(r.result), if r.timedOut then "true" else "false",
                if r.detail.Some? then r.detail.value.json else "");
  }

  lemma ThreeOrFour(n0: string, n1: string, n2: string, n3: string, v0: string, v1: string, v2: string, v3: string)
    requires Plain(n0) && Plain(n1) && Plain(n2) && Plain(n3)
    ensures ObjectText([Member(n0, v0), Member(n1, v1), Member(n2, v2)] + []) == Object([n0, n1, n2], [v0, v1, v2])
    ensures ObjectText([Member(n0, v0), Member(n1, v1), Member(n2, v2)] + [Member(n3, v3)]) == Object([n0, n1, n2, n3], [v0, v1, v2, v3])
  {
    var members := [Member(n0, v0), Member(n1, v1), Member(n2, v2)];
    assert members + [] == members;
    ObjectSpells(members, [n0, n1, n2], [v0, v1, v2]);
    ObjectSpells(members + [Member(n3, v3)], [n0, n1, n2, n3], [v0, v1, v2, v3]);
  }

  lemma FileNames()
    ensures Plain("file") && Plain("result") && Plain("timedOut") && Plain("detail")
  {}

  function Names(groups: bool, files: bool, omitted: bool): seq<string> {
    (if groups then ["harnessFailures"] else []) + (if files then ["files"] else []) + (if omitted then ["filesOmitted", "omissionReason"] else [])
  }

  function Values(groups: seq<string>, files: seq<string>, omitted: nat): seq<string> {
    (if groups != [] then [ArrayText(groups)] else []) + (if files != [] then [ArrayText(files)] else [])
    + (if omitted > 0 then [Decimal(omitted), Quote("detail size budget")] else [])
  }

  /** The whole detail: the groups, the other results and what was omitted, each if there is any. */
  lemma DetailSpelled(included: seq<Item>, omitted: nat)
    ensures var groups, files := Texts(included, true), Texts(included, false);
            && |Names(groups != [], files != [], omitted > 0)| == |Values(groups, files, omitted)|
            && DetailText(NAMES, included, omitted)
               == Object(Names(groups != [], files != [], omitted > 0), Values(groups, files, omitted))
  {
    var groups, files := Texts(included, true), Texts(included, false);
    GroupsName();
    FilesName();
    OmittedName();
    ReasonName();
    Laid("harnessFailures", "files", "filesOmitted", "omissionReason", groups, files, omitted, Quote("detail size budget"));
  }

  lemma Laid(n0: string, n1: string, n2: string, n3: string, groups: seq<string>, files: seq<string>, omitted: nat, why: string)
    requires Plain(n0) && Plain(n1) && Plain(n2) && Plain(n3)
    ensures var names := (if groups != [] then [n0] else []) + (if files != [] then [n1] else []) + (if omitted > 0 then [n2, n3] else []);
            var values := (if groups != [] then [ArrayText(groups)] else []) + (if files != [] then [ArrayText(files)] else [])
                          + (if omitted > 0 then [Decimal(omitted), why] else []);
            && |names| == |values|
            && ObjectText(ArrayMember(n0, groups) + ArrayMember(n1, files)
                          + (if omitted == 0 then [] else [Member(n2, Decimal(omitted)), Member(n3, why)])) == Object(names, values)
  {
    var a, an, av := ArrayMember(n0, groups), if groups != [] then [n0] else [], if groups != [] then [ArrayText(groups)] else [];
    var b, bn, bv := ArrayMember(n1, files), if files != [] then [n1] else [], if files != [] then [ArrayText(files)] else [];
    var c, cn, cv := if omitted == 0 then [] else [Member(n2, Decimal(omitted)), Member(n3, why)],
                     if omitted > 0 then [n2, n3] else [], if omitted > 0 then [Decimal(omitted), why] else [];
    SpellsMore(a, an, av, b, bn, bv);
    SpellsMore(a + b, an + bn, av + bv, c, cn, cv);
    ObjectSpells(a + b + c, an + bn + cn, av + bv + cv);
  }

  lemma SpellsMore(a: seq<string>, an: seq<string>, av: seq<string>, b: seq<string>, bn: seq<string>, bv: seq<string>)
    requires Spells(a, an, av) && Spells(b, bn, bv)
    ensures Spells(a + b, an + bn, av + bv)
  {}

  lemma GroupsName() ensures Plain("harnessFailures") {}

  lemma FilesName() ensures Plain("files") {}

  lemma OmittedName() ensures Plain("filesOmitted") {}

  lemma ReasonName() ensures Plain("omissionReason") {}

  /** Which results are grouped: those whose harness failed, by its two names. */
  lemma HarnessFailureIff(r: FileResult)
    ensures HarnessFailure(r) <==>
              exists d :: r.detail == Some(d) && (d.reason == Some(ScriptError) || d.reason == Some(ToolUnavailable))
  {
    if r.detail.Some? { assert r.detail == Some(r.detail.value); }
  }

  /** And together: those that failed alike, a missing diagnostic being the same as an empty one. */
  lemma SameKeyIff(a: FileResult, b: FileResult)
    requires HarnessFailure(a) && HarnessFailure(b)
    ensures KeyOf(a) == KeyOf(b) <==>
              var d, e := a.detail.value, b.detail.value;
              && d.reason == e.reason && d.exitCode == e.exitCode
              && (if d.stderr.None? || d.stderr.value == "" then e.stderr.None? || e.stderr.value == "" else e.stderr == d.stderr)
  {}
}
