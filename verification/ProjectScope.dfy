/** Which files a sensor runs on: exact selection of changed files, or widening to
    every matched file of the projects that the changes affect. */
module ProjectScope {
  import opened Text

  // ---------------------------------------------------------------- roots

  predicate Owns(root: string, file: string) { root != "" && root + "/" <= file }

  /** The deepest root that owns the file, or "" when none does. */
  function RootOf(file: string, roots: seq<string>): string {
    if roots == [] then ""
    else
      var best, last := RootOf(file, roots[..|roots| - 1]), roots[|roots| - 1];
      if Owns(last, file) && |last| > |best| then last else best
  }

  method ProjectRootOf(file: string, roots: seq<string>) returns (best: string)
    ensures best == RootOf(file, roots)
  {
    best := "";
    for i := 0 to |roots|
      invariant best == RootOf(file, roots[..i])
    {
      assert roots[..i + 1][..i] == roots[..i];
      if Owns(roots[i], file) && |roots[i]| > |best| { best := roots[i]; }
    }
    assert roots[..|roots|] == roots;
  }

  /** What `RootOf` means, whatever the order of the roots. */
  ghost predicate Deepest(r: string, file: string, roots: seq<string>) {
    && (r == "" || (r in roots && Owns(r, file)))
    && forall o :: o in roots && Owns(o, file) ==> |o| <= |r|
  }

  lemma {:induction false} RootOfIsDeepest(file: string, roots: seq<string>)
    ensures Deepest(RootOf(file, roots), file, roots)
  {
    if roots != [] { RootOfIsDeepest(file, roots[..|roots| - 1]); }
  }

  lemma DeepestIsUnique(r: string, q: string, file: string, roots: seq<string>)
    requires Deepest(r, file, roots) && Deepest(q, file, roots)
    ensures r == q
  {
    if r != "" && q != "" {
      assert r == file[..|r|] && q == file[..|q|];
    }
  }

  /** One more root changes the owner of a file to that root or not at all. */
  lemma RootOfMore(file: string, roots: seq<string>, r: string)
    ensures RootOf(file, roots + [r]) in {RootOf(file, roots), r}
  {
    assert (roots + [r])[..|roots|] == roots;
  }

  // ------------------------------------------------------------- configs

  predicate IsConfig(file: string, configFile: string) { file == configFile || EndsWith(file, "/" + configFile) }

  function RootOfConfig(file: string, configFile: string): string
    requires IsConfig(file, configFile)
  {
    if file == configFile then "" else file[..|file| - |configFile| - 1]
  }

  function ConfigRoots(allFiles: seq<string>, configFile: string): seq<string> {
    if allFiles == [] then []
    else
      var before, last := ConfigRoots(allFiles[..|allFiles| - 1], configFile), allFiles[|allFiles| - 1];
      if IsConfig(last, configFile) then before + [RootOfConfig(last, configFile)] else before
  }

  /** A root below the configured one can own the configuration file only through a
      directory in the configuration's name. */
  lemma DeeperOwner(o: string, file: string, configFile: string)
    requires IsConfig(file, configFile) && Owns(o, file) && |o| > |RootOfConfig(file, configFile)|
    ensures '/' in configFile
  {
    var r := RootOfConfig(file, configFile);
    assert (o + "/")[|o|] == '/' == file[|o|];
    if file == configFile {
      assert configFile[|o|] == '/';
    } else {
      assert file[|file| - |configFile| - 1..] == "/" + configFile;
      assert file[|o|] == ("/" + configFile)[|o| - |r|] == configFile[|o| - |r| - 1];
    }
  }

  /** A configuration file belongs to the project it configures, if its name is a
      plain file name. */
  lemma ConfigBelongsToItsRoot(file: string, configFile: string, roots: seq<string>)
    requires IsConfig(file, configFile) && '/' !in configFile
    requires RootOfConfig(file, configFile) == "" || RootOfConfig(file, configFile) in roots
    ensures RootOf(file, roots) == RootOfConfig(file, configFile)
  {
    var r := RootOfConfig(file, configFile);
    RootOfIsDeepest(file, roots);
    forall o | o in roots && Owns(o, file) ensures |o| <= |r| {
      if |o| > |r| { DeeperOwner(o, file, configFile); }
    }
    if r != "" {
      assert file[|r|..] == "/" + configFile;
      assert r + "/" == file[..|r| + 1];
    }
    DeepestIsUnique(r, RootOf(file, roots), file, roots);
  }

  // ------------------------------------------------------------- widening

  /** The roots known so far, growing with deleted configurations, and the affected. */
  datatype Widening = Widening(roots: seq<string>, affected: set<string>)

  function Affect(w: Widening, file: string, configFile: string): Widening {
    if IsConfig(file, configFile) then
      var root := RootOfConfig(file, configFile);
      Widening(if root in w.roots then w.roots else w.roots + [root], w.affected + {root})
    else w.(affected := w.affected + {RootOf(file, w.roots)})
  }

  function AffectAll(changed: seq<string>, roots: seq<string>, configFile: string): Widening {
    if changed == [] then Widening(roots, {})
    else Affect(AffectAll(changed[..|changed| - 1], roots, configFile), changed[|changed| - 1], configFile)
  }

  function Selected(globbed: seq<string>, w: Widening): seq<string> {
    if globbed == [] then []
    else
      var before, last := Selected(globbed[..|globbed| - 1], w), globbed[|globbed| - 1];
      if RootOf(last, w.roots) in w.affected then before + [last] else before
  }

  lemma {:induction false} SelectedIff(globbed: seq<string>, w: Widening, f: string)
    ensures f in Selected(globbed, w) <==> f in globbed && RootOf(f, w.roots) in w.affected
  {
    if globbed != [] {
      SelectedIff(globbed[..|globbed| - 1], w, f);
      assert globbed == globbed[..|globbed| - 1] + [globbed[|globbed| - 1]];
    }
  }

  function Expand(globbed: seq<string>, changed: seq<string>, allFiles: seq<string>, configFile: string): seq<string> {
    Selected(globbed, AffectAll(changed, ConfigRoots(allFiles, configFile), configFile))
  }

  method ExpandToAffectedProjects(globbed: seq<string>, changed: seq<string>, allFiles: seq<string>, configFile: string) returns (files: seq<string>)
    ensures files == Expand(globbed, changed, allFiles, configFile)
  {
    ghost var start := ConfigRoots(allFiles, configFile);
    var roots, affected: set<string> := ConfigRoots(allFiles, configFile), {};
    for i := 0 to |changed|
      invariant Widening(roots, affected) == AffectAll(changed[..i], start, configFile)
    {
      assert changed[..i + 1][..i] == changed[..i];
      if IsConfig(changed[i], configFile) {
        var root := RootOfConfig(changed[i], configFile);
        if root !in roots { roots := roots + [root]; }
        affected := affected + {root};
      } else {
        var root := ProjectRootOf(changed[i], roots);
        affected := affected + {root};
      }
    }
    assert changed[..|changed|] == changed;
    var w := Widening(roots, affected);
    if affected == {} {
      NoneSelected(globbed, w);
      return [];
    }
    files := [];
    for i := 0 to |globbed|
      invariant files == Selected(globbed[..i], w)
    {
      assert globbed[..i + 1][..i] == globbed[..i];
      var root := ProjectRootOf(globbed[i], roots);
      if root in affected { files := files + [globbed[i]]; }
    }
    assert globbed[..|globbed|] == globbed;
  }

  lemma {:induction false} NoneSelected(globbed: seq<string>, w: Widening)
    requires w.affected == {}
    ensures Selected(globbed, w) == []
  {
    if globbed != [] { NoneSelected(globbed[..|globbed| - 1], w); }
  }

  // ------------------------------------------------------- main properties

  /** Whatever the order of the changes and although roots appear on the way, every
      changed file belongs in the end to an affected root. */
  lemma {:induction false} ChangedIsAffected(changed: seq<string>, roots: seq<string>, configFile: string, f: string)
    requires '/' !in configFile && f in changed
    ensures var w := AffectAll(changed, roots, configFile); RootOf(f, w.roots) in w.affected
  {
    var before, last := changed[..|changed| - 1], changed[|changed| - 1];
    var w, next := AffectAll(before, roots, configFile), AffectAll(changed, roots, configFile);
    assert changed == before + [last];
    if f in before {
      ChangedIsAffected(before, roots, configFile, f);
      if IsConfig(last, configFile) { RootOfMore(f, w.roots, RootOfConfig(last, configFile)); }
    } else if IsConfig(last, configFile) {
      ConfigBelongsToItsRoot(last, configFile, next.roots);
    }
  }

  /** Order preserved, nothing invented. */
  ghost predicate Subsequence(a: seq<string>, b: seq<string>) {
    if b == [] then a == []
    else
      Subsequence(a, b[..|b| - 1]) || (a != [] && a[|a| - 1] == b[|b| - 1] && Subsequence(a[..|a| - 1], b[..|b| - 1]))
  }

  lemma {:induction false} SelectedIsSubsequence(globbed: seq<string>, w: Widening)
    ensures Subsequence(Selected(globbed, w), globbed)
  {
    if globbed != [] {
      var before := Selected(globbed[..|globbed| - 1], w);
      SelectedIsSubsequence(globbed[..|globbed| - 1], w);
      if RootOf(globbed[|globbed| - 1], w.roots) in w.affected {
        assert Selected(globbed, w)[..|before|] == before;
      }
    }
  }

  /** Widening selects every changed file that the glob matched, in the order of the
      matches, and with a file every match of the same project. */
  lemma WideningKeepsChanged(globbed: seq<string>, changed: seq<string>, allFiles: seq<string>, configFile: string)
    requires '/' !in configFile
    ensures var files := Expand(globbed, changed, allFiles, configFile);
            var roots := AffectAll(changed, ConfigRoots(allFiles, configFile), configFile).roots;
            && Subsequence(files, globbed)
            && (forall f :: f in changed && f in globbed ==> f in files)
            && (forall f, g :: f in files && g in globbed && RootOf(g, roots) == RootOf(f, roots) ==> g in files)
  {
    var w := AffectAll(changed, ConfigRoots(allFiles, configFile), configFile);
    SelectedIsSubsequence(globbed, w);
    forall f ensures f in Selected(globbed, w) <==> f in globbed && RootOf(f, w.roots) in w.affected {
      SelectedIff(globbed, w, f);
    }
    forall f | f in changed ensures RootOf(f, w.roots) in w.affected {
      ChangedIsAffected(changed, ConfigRoots(allFiles, configFile), configFile, f);
    }
  }

  ghost predicate AlwaysKeepsChanged(configFile: string) {
    forall globbed, changed, allFiles, f :: f in changed && f in globbed ==> f in Expand(globbed, changed, allFiles, configFile)
  }

  /** With a configuration name that has a directory in it, a changed configuration
      can be taken for part of a deeper project and be lost. */
  lemma DirectoryInNameLosesAChange(configFile: string) returns (f: string, g: string)
    requires '/' in configFile
    ensures f !in Expand([f], [f], [f, g], configFile)
  {
    var d :| 0 <= d < |configFile| && configFile[d] == '/';
    var outer, inner := "x", "x/" + configFile[..d];
    f, g := outer + ("/" + configFile), inner + ("/" + configFile);
    assert f[|f| - |configFile| - 1..] == "/" + configFile && g[|g| - |configFile| - 1..] == "/" + configFile;
    assert f[..1] == outer && g[..|inner|] == inner;
    assert RootOfConfig(f, configFile) == outer && RootOfConfig(g, configFile) == inner;
    var roots := ConfigRoots([f, g], configFile);
    TwoConfigs(f, g, configFile);
    assert Owns(inner, f) by { assert inner + "/" == f[..|inner| + 1]; }
    RootOfIsDeepest(f, roots);
    assert inner in roots;
    var w := AffectAll([f], roots, configFile);
    assert [f][..0] == [];
    assert AffectAll([], roots, configFile) == Widening(roots, {});
    assert w == Widening(roots, {outer});
    SelectedIff([f], w, f);
  }

  lemma TwoConfigs(f: string, g: string, configFile: string)
    requires IsConfig(f, configFile) && IsConfig(g, configFile)
    ensures ConfigRoots([f, g], configFile) == [RootOfConfig(f, configFile), RootOfConfig(g, configFile)]
  {
    assert [f, g][..1] == [f] && [f][..0] == [];
    assert ConfigRoots([f], configFile) == [RootOfConfig(f, configFile)];
  }

  /** So widening can be trusted exactly for plain configuration names. */
  lemma KeepsChangedIff(configFile: string)
    ensures AlwaysKeepsChanged(configFile) <==> '/' !in configFile
  {
    if '/' in configFile {
      var f, g := DirectoryInNameLosesAChange(configFile);
      assert f in [f];
    } else {
      forall globbed, changed, allFiles, f | f in changed && f in globbed ensures f in Expand(globbed, changed, allFiles, configFile) {
        WideningKeepsChanged(globbed, changed, allFiles, configFile);
      }
    }
  }

  // ---------------------------------------------- the order of the changes

  ghost predicate SameMembers(a: seq<string>, b: seq<string>) { forall x :: x in a <==> x in b }

  lemma RootOfSame(file: string, a: seq<string>, b: seq<string>)
    requires SameMembers(a, b)
    ensures RootOf(file, a) == RootOf(file, b)
  {
    RootOfIsDeepest(file, a);
    RootOfIsDeepest(file, b);
    DeepestIsUnique(RootOf(file, a), RootOf(file, b), file, a);
  }

  /** With more roots a file keeps its owner or goes to one of the added roots. */
  lemma RootOfGrown(file: string, a: seq<string>, b: seq<string>)
    requires forall r :: r in a ==> r in b
    ensures RootOf(file, b) == RootOf(file, a) || (RootOf(file, b) in b && RootOf(file, b) !in a)
  {
    var r, q := RootOf(file, a), RootOf(file, b);
    RootOfIsDeepest(file, a);
    RootOfIsDeepest(file, b);
    if q == "" || q in a { DeepestIsUnique(r, q, file, a); }
  }

  lemma {:induction false} ConfigRootsIff(files: seq<string>, configFile: string, r: string)
    ensures r in ConfigRoots(files, configFile) <==>
              exists c :: c in files && IsConfig(c, configFile) && RootOfConfig(c, configFile) == r
  {
    if files != [] {
      var before, last := files[..|files| - 1], files[|files| - 1];
      ConfigRootsIff(before, configFile, r);
      assert files == before + [last];
    }
  }

  lemma {:induction false} RootsAfter(changed: seq<string>, roots: seq<string>, configFile: string, r: string)
    ensures r in AffectAll(changed, roots, configFile).roots <==> r in roots || r in ConfigRoots(changed, configFile)
  {
    if changed != [] { RootsAfter(changed[..|changed| - 1], roots, configFile, r); }
  }

  /** The roots in the end, whatever the order. */
  function FinalRoots(changed: seq<string>, roots: seq<string>, configFile: string): seq<string> {
    roots + ConfigRoots(changed, configFile)
  }

  lemma FinalRootOf(file: string, changed: seq<string>, roots: seq<string>, configFile: string)
    ensures RootOf(file, AffectAll(changed, roots, configFile).roots) == RootOf(file, FinalRoots(changed, roots, configFile))
  {
    var w := AffectAll(changed, roots, configFile);
    forall r ensures r in w.roots <==> r in FinalRoots(changed, roots, configFile) { RootsAfter(changed, roots, configFile, r); }
    RootOfSame(file, w.roots, FinalRoots(changed, roots, configFile));
  }

  /** A root that is affected in every order: the root of a changed configuration,
      or the owner of another changed file among the final roots. */
  ghost predicate Settled(r: string, changed: seq<string>, roots: seq<string>, configFile: string) {
    r in ConfigRoots(changed, configFile)
    || exists x :: x in changed && !IsConfig(x, configFile) && RootOf(x, FinalRoots(changed, roots, configFile)) == r
  }

  lemma {:induction false} ConfigRootsAffected(changed: seq<string>, roots: seq<string>, configFile: string, r: string)
    requires r in ConfigRoots(changed, configFile)
    ensures r in AffectAll(changed, roots, configFile).affected
  {
    var before, last := changed[..|changed| - 1], changed[|changed| - 1];
    if r in ConfigRoots(before, configFile) { ConfigRootsAffected(before, roots, configFile, r); }
  }

  lemma {:induction false} FilesAffected(changed: seq<string>, roots: seq<string>, configFile: string, x: string)
    requires x in changed && !IsConfig(x, configFile)
    ensures var w := AffectAll(changed, roots, configFile); RootOf(x, w.roots) in w.affected
  {
    var before, last := changed[..|changed| - 1], changed[|changed| - 1];
    assert changed == before + [last];
    if x in before {
      FilesAffected(before, roots, configFile, x);
      if IsConfig(last, configFile) { RootOfMore(x, AffectAll(before, roots, configFile).roots, RootOfConfig(last, configFile)); }
    }
  }

  lemma SettledAffected(changed: seq<string>, roots: seq<string>, configFile: string, r: string)
    requires Settled(r, changed, roots, configFile)
    ensures r in AffectAll(changed, roots, configFile).affected
  {
    if r in ConfigRoots(changed, configFile) {
      ConfigRootsAffected(changed, roots, configFile, r);
    } else {
      var x :| x in changed && !IsConfig(x, configFile) && RootOf(x, FinalRoots(changed, roots, configFile)) == r;
      FilesAffected(changed, roots, configFile, x);
      FinalRootOf(x, changed, roots, configFile);
    }
  }

  /** What else can be affected: the surviving owner of a changed file. */
  lemma {:induction false} AffectedOnlyBy(changed: seq<string>, roots: seq<string>, configFile: string, r: string)
    requires r in AffectAll(changed, roots, configFile).affected
    ensures r in ConfigRoots(changed, configFile) || exists x :: x in changed && !IsConfig(x, configFile) && RootOf(x, roots) == r
  {
    var before, last := changed[..|changed| - 1], changed[|changed| - 1];
    var w := AffectAll(before, roots, configFile);
    assert changed == before + [last];
    if r in w.affected {
      AffectedOnlyBy(before, roots, configFile, r);
    } else if !IsConfig(last, configFile) {
      forall q ensures q in w.roots <==> q in roots || q in ConfigRoots(before, configFile) { RootsAfter(before, roots, configFile, q); }
      RootOfGrown(last, roots, w.roots);
    }
  }

  /** No changed file has a surviving owner that is left without any changed path:
      whenever a new root takes a file over, its old owner is affected otherwise. */
  ghost predicate NobodyLeftBehind(changed: seq<string>, roots: seq<string>, configFile: string) {
    forall x | x in changed && !IsConfig(x, configFile) :: Settled(RootOf(x, roots), changed, roots, configFile)
  }

  lemma SettledByMembers(r: string, a: seq<string>, b: seq<string>, roots: seq<string>, configFile: string)
    requires SameMembers(a, b) && Settled(r, a, roots, configFile)
    ensures Settled(r, b, roots, configFile)
  {
    forall q ensures q in ConfigRoots(a, configFile) <==> q in ConfigRoots(b, configFile) {
      ConfigRootsIff(a, configFile, q);
      ConfigRootsIff(b, configFile, q);
    }
    if r !in ConfigRoots(a, configFile) {
      var x :| x in a && !IsConfig(x, configFile) && RootOf(x, FinalRoots(a, roots, configFile)) == r;
      RootOfSame(x, FinalRoots(a, roots, configFile), FinalRoots(b, roots, configFile));
    }
  }

  lemma AffectedIff(changed: seq<string>, other: seq<string>, roots: seq<string>, configFile: string, r: string)
    requires NobodyLeftBehind(changed, roots, configFile) && SameMembers(changed, other)
    ensures r in AffectAll(other, roots, configFile).affected <==> Settled(r, changed, roots, configFile)
  {
    if r in AffectAll(other, roots, configFile).affected {
      AffectedOnlyBy(other, roots, configFile, r);
      ConfigRootsIff(changed, configFile, r);
      ConfigRootsIff(other, configFile, r);
    }
    if Settled(r, changed, roots, configFile) {
      SettledByMembers(r, changed, other, roots, configFile);
      SettledAffected(other, roots, configFile, r);
    }
  }

  lemma {:induction false} SelectedSame(globbed: seq<string>, v: Widening, w: Widening)
    requires SameMembers(v.roots, w.roots) && v.affected == w.affected
    ensures Selected(globbed, v) == Selected(globbed, w)
  {
    if globbed != [] {
      SelectedSame(globbed[..|globbed| - 1], v, w);
      RootOfSame(globbed[|globbed| - 1], v.roots, w.roots);
    }
  }

  lemma SameResult(globbed: seq<string>, changed: seq<string>, other: seq<string>, allFiles: seq<string>, configFile: string)
    requires NobodyLeftBehind(changed, ConfigRoots(allFiles, configFile), configFile) && SameMembers(changed, other)
    ensures Expand(globbed, other, allFiles, configFile) == Expand(globbed, changed, allFiles, configFile)
  {
    var roots := ConfigRoots(allFiles, configFile);
    var v, w := AffectAll(changed, roots, configFile), AffectAll(other, roots, configFile);
    forall r ensures r in v.affected <==> r in w.affected {
      AffectedIff(changed, changed, roots, configFile, r);
      AffectedIff(changed, other, roots, configFile, r);
    }
    assert v.affected == w.affected;
    forall r ensures r in v.roots <==> r in w.roots {
      RootsAfter(changed, roots, configFile, r);
      RootsAfter(other, roots, configFile, r);
      ConfigRootsIff(changed, configFile, r);
      ConfigRootsIff(other, configFile, r);
    }
    SelectedSame(globbed, v, w);
  }

  /** The changed configurations, or the other changed files. */
  function Part(changed: seq<string>, configFile: string, configs: bool): seq<string> {
    if changed == [] then []
    else
      var before, last := Part(changed[..|changed| - 1], configFile, configs), changed[|changed| - 1];
      if IsConfig(last, configFile) == configs then before + [last] else before
  }

  lemma {:induction false} PartIff(changed: seq<string>, configFile: string, configs: bool, x: string)
    ensures x in Part(changed, configFile, configs) <==> x in changed && IsConfig(x, configFile) == configs
  {
    if changed != [] {
      PartIff(changed[..|changed| - 1], configFile, configs, x);
      assert changed == changed[..|changed| - 1] + [changed[|changed| - 1]];
    }
  }

  lemma {:induction false} AffectedGrows(a: seq<string>, b: seq<string>, roots: seq<string>, configFile: string)
    ensures AffectAll(a, roots, configFile).affected <= AffectAll(a + b, roots, configFile).affected
  {
    if b == [] {
      assert a + b == a;
    } else {
      assert (a + b)[..|a + b| - 1] == a + b[..|b| - 1];
      AffectedGrows(a, b[..|b| - 1], roots, configFile);
    }
  }

  /** Files that follow `a` and are no configurations change no root. */
  lemma {:induction false} FilesFollow(a: seq<string>, files: seq<string>, roots: seq<string>, configFile: string, r: string)
    requires forall x :: x in files ==> !IsConfig(x, configFile)
    ensures AffectAll(a + files, roots, configFile).roots == AffectAll(a, roots, configFile).roots
    ensures r in AffectAll(a + files, roots, configFile).affected <==>
              r in AffectAll(a, roots, configFile).affected
              || exists x :: x in files && RootOf(x, AffectAll(a, roots, configFile).roots) == r
  {
    if files == [] {
      assert a + files == a;
    } else {
      var before, last := files[..|files| - 1], files[|files| - 1];
      assert (a + files)[..|a + files| - 1] == a + before;
      assert files == before + [last];
      FilesFollow(a, before, roots, configFile, r);
    }
  }

  lemma FilesThenConfigs(changed: seq<string>, roots: seq<string>, configFile: string, x: string)
    requires x in changed && !IsConfig(x, configFile)
    ensures RootOf(x, roots) in AffectAll(Part(changed, configFile, false) + Part(changed, configFile, true), roots, configFile).affected
  {
    var files := Part(changed, configFile, false);
    forall y ensures y in files <==> y in changed && !IsConfig(y, configFile) { PartIff(changed, configFile, false, y); }
    FilesFollow([], files, roots, configFile, RootOf(x, roots));
    assert [] + files == files;
    AffectedGrows(files, Part(changed, configFile, true), roots, configFile);
  }

  lemma ConfigsThenFiles(changed: seq<string>, roots: seq<string>, configFile: string, r: string)
    requires r in AffectAll(Part(changed, configFile, true) + Part(changed, configFile, false), roots, configFile).affected
    ensures Settled(r, changed, roots, configFile)
  {
    var configs, files := Part(changed, configFile, true), Part(changed, configFile, false);
    forall y ensures y in files <==> y in changed && !IsConfig(y, configFile) { PartIff(changed, configFile, false, y); }
    forall y ensures y in configs <==> y in changed && IsConfig(y, configFile) { PartIff(changed, configFile, true, y); }
    forall q ensures q in ConfigRoots(configs, configFile) <==> q in ConfigRoots(changed, configFile) {
      ConfigRootsIff(configs, configFile, q);
      ConfigRootsIff(changed, configFile, q);
    }
    FilesFollow(configs, files, roots, configFile, r);
    var w := AffectAll(configs, roots, configFile);
    if r in w.affected {
      AffectedOnlyBy(configs, roots, configFile, r);
    } else {
      var x :| x in files && RootOf(x, w.roots) == r;
      FinalRootOf(x, configs, roots, configFile);
      RootOfSame(x, FinalRoots(configs, roots, configFile), FinalRoots(changed, roots, configFile));
    }
  }

  /** Some path that belongs to a given root. */
  function PathIn(root: string): string { if root == "" then "" else root + "/" }

  lemma PathInBelongs(root: string, roots: seq<string>)
    requires root == "" || root in roots
    ensures RootOf(PathIn(root), roots) == root
  {
    var f := PathIn(root);
    RootOfIsDeepest(f, roots);
    assert Deepest(root, f, roots);
    DeepestIsUnique(root, RootOf(f, roots), f, roots);
  }

  lemma LeftBehindDiffers(changed: seq<string>, allFiles: seq<string>, configFile: string, x: string) returns (globbed: seq<string>, a: seq<string>, b: seq<string>)
    requires x in changed && !IsConfig(x, configFile)
    requires !Settled(RootOf(x, ConfigRoots(allFiles, configFile)), changed, ConfigRoots(allFiles, configFile), configFile)
    ensures SameMembers(a, changed) && SameMembers(b, changed)
    ensures Expand(globbed, a, allFiles, configFile) != Expand(globbed, b, allFiles, configFile)
  {
    var roots := ConfigRoots(allFiles, configFile);
    var files, configs := Part(changed, configFile, false), Part(changed, configFile, true);
    a, b := files + configs, configs + files;
    forall y ensures y in a <==> y in changed {
      PartIff(changed, configFile, false, y);
      PartIff(changed, configFile, true, y);
    }
    var o := RootOf(x, roots);
    globbed := [PathIn(o)];
    RootOfIsDeepest(x, roots);
    var v, w := AffectAll(a, roots, configFile), AffectAll(b, roots, configFile);
    RootsAfter(a, roots, configFile, o);
    RootsAfter(b, roots, configFile, o);
    PathInBelongs(o, v.roots);
    PathInBelongs(o, w.roots);
    FilesThenConfigs(changed, roots, configFile, x);
    if o in w.affected { ConfigsThenFiles(changed, roots, configFile, o); }
    SelectedIff(globbed, v, PathIn(o));
    SelectedIff(globbed, w, PathIn(o));
  }

  /** Nothing depends on the order in which the changes are listed. */
  ghost predicate OrderIsIrrelevant(changed: seq<string>, allFiles: seq<string>, configFile: string) {
    forall globbed, other | SameMembers(changed, other) ::
      Expand(globbed, other, allFiles, configFile) == Expand(globbed, changed, allFiles, configFile)
  }

  /** Exactly when the order of the changes does not matter: when no new root takes
      a changed file from a surviving owner that has no other changed path. */
  lemma OrderIsIrrelevantIff(changed: seq<string>, allFiles: seq<string>, configFile: string)
    ensures OrderIsIrrelevant(changed, allFiles, configFile) <==>
              NobodyLeftBehind(changed, ConfigRoots(allFiles, configFile), configFile)
  {
    var roots := ConfigRoots(allFiles, configFile);
    if NobodyLeftBehind(changed, roots, configFile) {
      forall globbed, other | SameMembers(changed, other)
        ensures Expand(globbed, other, allFiles, configFile) == Expand(globbed, changed, allFiles, configFile)
      {
        SameResult(globbed, changed, other, allFiles, configFile);
      }
    } else {
      var x :| x in changed && !IsConfig(x, configFile) && !Settled(RootOf(x, roots), changed, roots, configFile);
      var globbed, a, b := LeftBehindDiffers(changed, allFiles, configFile, x);
      assert Expand(globbed, a, allFiles, configFile) != Expand(globbed, b, allFiles, configFile);
    }
  }

  /** In particular it does not matter while every changed configuration is still
      there. */
  lemma SurvivingConfigsSettleTheOrder(changed: seq<string>, allFiles: seq<string>, configFile: string)
    requires forall c :: c in changed && IsConfig(c, configFile) ==> RootOfConfig(c, configFile) in ConfigRoots(allFiles, configFile)
    ensures OrderIsIrrelevant(changed, allFiles, configFile)
  {
    var roots := ConfigRoots(allFiles, configFile);
    forall q ensures q in FinalRoots(changed, roots, configFile) <==> q in roots { ConfigRootsIff(changed, configFile, q); }
    forall x | x in changed && !IsConfig(x, configFile) ensures Settled(RootOf(x, roots), changed, roots, configFile) {
      RootOfSame(x, roots, FinalRoots(changed, roots, configFile));
    }
    OrderIsIrrelevantIff(changed, allFiles, configFile);
  }

  // ------------------------------------------------------------- selection

  datatype Provenance = Unknown | Known(files: seq<string>)

  datatype Scope = Project | File

  datatype Applicability = UnknownApplicability | Applicable | NotApplicable

  datatype Selection = Selection(applicability: Applicability, files: seq<string>, complete: bool)

  function Exact(files: seq<string>, changed: seq<string>): seq<string> {
    if files == [] then []
    else
      var before, last := Exact(files[..|files| - 1], changed), files[|files| - 1];
      if last in changed then before + [last] else before
  }

  lemma {:induction false} ExactIff(files: seq<string>, changed: seq<string>, f: string)
    ensures f in Exact(files, changed) <==> f in files && f in changed
  {
    if files != [] {
      ExactIff(files[..|files| - 1], changed, f);
      assert files == files[..|files| - 1] + [files[|files| - 1]];
    }
  }

  function SelectSensorFiles(globbed: seq<string>, provenance: Provenance, scope: Scope, allFiles: seq<string>, configFile: string, complete: bool): Selection {
    if !complete then Selection(UnknownApplicability, globbed, false)
    else if provenance.Unknown? then Selection(UnknownApplicability, globbed, true)
    else
      var files := if scope == Project then Expand(globbed, provenance.files, allFiles, configFile) else Exact(globbed, provenance.files);
      Selection(if files != [] then Applicable else NotApplicable, files, true)
  }

  lemma {:induction false} KeptAppended(kept: seq<string>, all: seq<string>, wanted: seq<string>, x: string)
    requires KeptInOrder(kept, all, wanted)
    ensures KeptInOrder(kept + if x in wanted then [x] else [], all + [x], wanted)
    decreases |all|
  {
    var more := kept + if x in wanted then [x] else [];
    if all == [] {
      assert (all + [x])[1..] == [] && more == if x in wanted then [x] else [];
    } else {
      assert (all + [x])[1..] == all[1..] + [x];
      if all[0] in wanted {
        KeptAppended(kept[1..], all[1..], wanted, x);
        assert more[1..] == kept[1..] + if x in wanted then [x] else [];
      } else {
        KeptAppended(kept, all[1..], wanted, x);
      }
    }
  }

  lemma {:induction false} ExactKeeps(files: seq<string>, changed: seq<string>)
    ensures KeptInOrder(Exact(files, changed), files, changed)
  {
    if files != [] {
      var before, last := files[..|files| - 1], files[|files| - 1];
      ExactKeeps(before, changed);
      KeptAppended(Exact(before, changed), before, changed, last);
      assert files == before + [last];
      assert Exact(files, changed) == Exact(before, changed) + if last in changed then [last] else [];
    }
  }

  lemma {:induction false} NothingAffected(globbed: seq<string>, w: Widening)
    requires w.affected == {}
    ensures Selected(globbed, w) == []
  {
    if globbed != [] { NothingAffected(globbed[..|globbed| - 1], w); }
  }

  /** What is unknown widens to every match; what is known and complete selects, by file, just
      the changed matches in their order, and decides applicability. */
  lemma SelectionTells(globbed: seq<string>, provenance: Provenance, scope: Scope, allFiles: seq<string>, configFile: string, complete: bool)
    ensures var r := SelectSensorFiles(globbed, provenance, scope, allFiles, configFile, complete);
            && r.complete == complete
            && (r.applicability == UnknownApplicability <==> !complete || provenance.Unknown?)
            && (!complete || provenance.Unknown? ==> r.files == globbed)
            && (complete && provenance.Known? ==> (r.applicability == Applicable <==> r.files != []))
            && (complete && provenance.Known? && scope == File ==> KeptInOrder(r.files, globbed, provenance.files))
            && (complete && provenance.Known? && scope == Project && provenance.files == [] ==> r.files == [])
  {
    if complete && provenance.Known? {
      ExactKeeps(globbed, provenance.files);
      if provenance.files == [] { NothingAffected(globbed, AffectAll([], ConfigRoots(allFiles, configFile), configFile)); }
    }
  }

  /** The members of `all` that are wanted, each as often as there and in order. */
  ghost predicate KeptInOrder(kept: seq<string>, all: seq<string>, wanted: seq<string>)
    decreases |all|
  {
    if all == [] then kept == []
    else if all[0] in wanted then kept != [] && kept[0] == all[0] && KeptInOrder(kept[1..], all[1..], wanted)
    else KeptInOrder(kept, all[1..], wanted)
  }

  /** A sensor is called not applicable only when provenance and enumeration are
      known and nothing that it matches has changed; on exact selection that is also
      enough. */
  lemma NotApplicableMeansUntouched(globbed: seq<string>, provenance: Provenance, scope: Scope, allFiles: seq<string>, configFile: string, complete: bool)
    requires scope == Project ==> '/' !in configFile
    ensures var r := SelectSensorFiles(globbed, provenance, scope, allFiles, configFile, complete).applicability;
            && (r == NotApplicable ==> complete && provenance.Known? && forall f :: f in provenance.files ==> f !in globbed)
            && (scope == File && complete && provenance.Known? && (forall f :: f in provenance.files ==> f !in globbed) ==> r == NotApplicable)
  {
    if complete && provenance.Known? {
      var exact := Exact(globbed, provenance.files);
      forall f ensures f in exact <==> f in globbed && f in provenance.files { ExactIff(globbed, provenance.files, f); }
      if scope == Project { WideningKeepsChanged(globbed, provenance.files, allFiles, configFile); }
      if exact != [] { assert exact[0] in exact; }
    }
  }

  /** The result does depend on the order of the changes when a configuration was
      deleted: a file changed before it is mentioned still affects the outer project. */
  lemma OrderMatters()
    ensures var globbed, allFiles := ["a/y"], ["a/c"];
            && Expand(globbed, ["a/b/x", "a/b/c"], allFiles, "c") == ["a/y"]
            && Expand(globbed, ["a/b/c", "a/b/x"], allFiles, "c") == []
  {
    var x, c, y, d := "a/b/x", "a/b/c", "a/y", "a/c";
    assert "/" + "c" == "/c";
    assert d[1..] == "/c" && d[..1] == "a" && c[3..] == "/c" && c[..3] == "a/b";
    assert x[3..] == "/x" && x[3..][1] == 'x';
    Owners("a", "a/b", x, y);
    TwoOrders(x, c, y, d, "a", "a/b", "c");
  }

  /** The file first, then the configuration that takes it over; and the reverse. */
  ghost predicate Nested(x: string, c: string, outer: string, inner: string, configFile: string) {
    && !IsConfig(x, configFile) && IsConfig(c, configFile) && RootOfConfig(c, configFile) == inner && outer != inner
    && RootOf(x, [outer]) == outer && RootOf(x, [outer, inner]) == inner
  }

  lemma FileFirst(x: string, c: string, outer: string, inner: string, configFile: string)
    requires Nested(x, c, outer, inner, configFile)
    ensures AffectAll([x, c], [outer], configFile) == Widening([outer, inner], {outer, inner})
  {
    TwoChanges(x, c, [outer], configFile);
    AffectOne(Widening([outer], {}), x, outer, configFile);
    AffectConfig(Widening([outer], {outer}), c, inner, configFile);
    assert [outer] + [inner] == [outer, inner] && {outer} + {inner} == {outer, inner};
  }

  lemma ConfigFirst(x: string, c: string, outer: string, inner: string, configFile: string)
    requires Nested(x, c, outer, inner, configFile)
    ensures AffectAll([c, x], [outer], configFile) == Widening([outer, inner], {inner})
  {
    TwoChanges(c, x, [outer], configFile);
    AffectConfig(Widening([outer], {}), c, inner, configFile);
    AffectOne(Widening([outer, inner], {inner}), x, inner, configFile);
    assert [outer] + [inner] == [outer, inner] && {inner} + {inner} == {inner};
  }

  lemma TwoOrders(x: string, c: string, y: string, d: string, outer: string, inner: string, configFile: string)
    requires Nested(x, c, outer, inner, configFile) && RootOf(y, [outer, inner]) == outer
    requires IsConfig(d, configFile) && RootOfConfig(d, configFile) == outer
    ensures Expand([y], [x, c], [d], configFile) == [y] && Expand([y], [c, x], [d], configFile) == []
  {
    assert [d][..0] == [] && ConfigRoots([d], configFile) == [outer];
    FileFirst(x, c, outer, inner, configFile);
    ConfigFirst(x, c, outer, inner, configFile);
    OneMatch(y, Widening([outer, inner], {outer, inner}));
    OneMatch(y, Widening([outer, inner], {inner}));
  }

  lemma AffectOne(w: Widening, f: string, root: string, configFile: string)
    requires !IsConfig(f, configFile) && RootOf(f, w.roots) == root
    ensures Affect(w, f, configFile) == Widening(w.roots, w.affected + {root})
  {}

  lemma AffectConfig(w: Widening, f: string, root: string, configFile: string)
    requires IsConfig(f, configFile) && RootOfConfig(f, configFile) == root && root !in w.roots
    ensures Affect(w, f, configFile) == Widening(w.roots + [root], w.affected + {root})
  {}

  lemma TwoChanges(f: string, g: string, roots: seq<string>, configFile: string)
    ensures AffectAll([f, g], roots, configFile) == Affect(Affect(Widening(roots, {}), f, configFile), g, configFile)
  {
    assert [f, g][..1] == [f] && [f][..0] == [];
    assert AffectAll([f], roots, configFile) == Affect(AffectAll([], roots, configFile), f, configFile);
  }

  lemma OneMatch(y: string, w: Widening)
    ensures Selected([y], w) == if RootOf(y, w.roots) in w.affected then [y] else []
  {
    assert [y][..0] == [];
  }

  lemma Owners(a: string, b: string, x: string, y: string)
    requires a == "a" && b == "a/b" && x == "a/b/x" && y == "a/y"
    ensures RootOf(x, [a]) == a && RootOf(y, [a, b]) == a && RootOf(x, [a, b]) == b
  {
    assert [a, b][..1] == [a] && [a][..0] == [];
    assert a + "/" == x[..2] == y[..2] && b + "/" == x[..4];
    assert Owns(a, x) && Owns(a, y) && Owns(b, x);
    assert !Owns(b, y);
    assert RootOf(x, [a]) == a && RootOf(y, [a]) == a;
  }
}
