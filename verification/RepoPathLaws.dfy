/** The tests the scanners make of a path, told by its components. */
module RepoPathLaws {
  import opened Text
  import opened RepoPaths

  // ---- parts of a text ----

  /** `part` occurs in `s`. */
  ghost predicate Within(s: string, part: string) {
    exists before, after :: s == before + part + after
  }

  lemma SplitOff(s: string, before: string, part: string, after: string)
    requires s == before + part + after
    ensures |part| <= |s|
    ensures before == "" ==> part <= s
    ensures before != "" ==> s != "" && s[1..] == before[1..] + part + after
  {
    if before == "" {
      assert s == part + after;
    }
  }

  lemma PutBack(s: string, before: string, part: string, after: string)
    requires s != "" && s[1..] == before + part + after
    ensures Within(s, part)
  {
    assert s == [s[0]] + s[1..];
    assert s == ([s[0]] + before) + part + after;
  }

  lemma {:induction false} ContainsExactly(s: string, part: string)
    ensures Contains(s, part) <==> Within(s, part)
  {
    if Within(s, part) {
      var before, after :| s == before + part + after;
      SplitOff(s, before, part, after);
      if before != "" {
        ContainsExactly(s[1..], part);
      }
    }
    if part <= s {
      assert s == "" + part + s[|part|..];
    } else if Contains(s, part) {
      ContainsExactly(s[1..], part);
      var before, after :| s[1..] == before + part + after;
      PutBack(s, before, part, after);
    }
  }

  lemma SuffixExactly(s: string, suffix: string)
    ensures HasSuffix(s, suffix) <==> exists before :: s == before + suffix
  {
    if HasSuffix(s, suffix) {
      assert s == s[..|s| - |suffix|] + suffix;
    }
  }

  // ---- paths of names ----

  ghost predicate IsPathOfNames(path: seq<string>) {
    path != [] && forall i :: 0 <= i < |path| ==> IsName(path[i])
  }

  function LowerAll(path: seq<string>): (lower: seq<string>)
    ensures |lower| == |path| && forall i :: 0 <= i < |path| ==> lower[i] == Lower(path[i])
  {
    seq(|path|, i requires 0 <= i < |path| => Lower(path[i]))
  }

  lemma LowerOfName(name: string)
    requires IsName(name)
    ensures IsName(Lower(name))
  {
  }

  lemma LowerAllNames(path: seq<string>)
    requires IsPathOfNames(path)
    ensures IsPathOfNames(LowerAll(path))
  {
    forall i | 0 <= i < |path| ensures IsName(LowerAll(path)[i]) {
      LowerOfName(path[i]);
    }
  }

  lemma {:induction false} LowerOfRelative(path: seq<string>)
    requires path != []
    ensures Lower(Relative(path)) == Relative(LowerAll(path))
  {
    if |path| > 1 {
      LowerOfRelative(path[1..]);
      LowerOfExtension(path[0], Relative(path[1..]));
      assert LowerAll(path)[1..] == LowerAll(path[1..]);
    }
  }

  // ---- a directory name between slashes ----

  lemma NameBeforeSlash(a: string, b: string, rest: string, below: string)
    requires IsName(a) && IsName(b)
    ensures a + "/" + rest == b + "/" + below ==> a == b && rest == below
  {
    if a + "/" + rest == b + "/" + below {
      var s := a + "/" + rest;
      assert s[|a|] == '/' && s[|b|] == '/';
      assert forall j :: 0 <= j < |a| ==> s[j] == a[j];
      assert forall j :: 0 <= j < |b| ==> s[j] == b[j];
      assert |a| == |b|;
      assert s[..|a|] == a && s[..|b|] == b;
      assert s[|a| + 1..] == rest && s[|b| + 1..] == below;
    }
  }

  lemma NameHasNoDirectory(name: string, d: string)
    requires IsName(name)
    ensures !(d + "/" <= name)
  {
    assert (d + "/")[|d|] == '/';
  }

  lemma PrefixIsFirst(path: seq<string>, d: string)
    requires IsPathOfNames(path) && IsName(d)
    ensures d + "/" <= Relative(path) <==> |path| > 1 && path[0] == d
  {
    hide IsName;
    if |path| == 1 {
      NameHasNoDirectory(path[0], d);
    } else {
      FirstDirectory(path[0], Relative(path[1..]), d);
    }
  }

  lemma FirstDirectory(name: string, rest: string, d: string)
    requires IsName(name) && IsName(d)
    ensures d + "/" <= name + "/" + rest <==> name == d
  {
    hide IsName;
    var s := name + "/" + rest;
    if d + "/" <= s {
      var below := s[|d + "/"|..];
      assert s == (d + "/") + below;
      NameBeforeSlash(name, d, rest, below);
    }
  }

  /** Text before the first slash has no part of the form `/d/` in it. */
  lemma {:induction false} SkipsName(name: string, rest: string, part: string)
    requires forall i :: 0 <= i < |name| ==> name[i] != '/'
    requires part != "" && part[0] == '/'
    ensures Contains(name + rest, part) <==> Contains(rest, part)
  {
    if name == "" {
      assert name + rest == rest;
    } else {
      assert (name + rest)[1..] == name[1..] + rest && (name + rest)[0] == name[0];
      SkipsName(name[1..], rest, part);
      assert !(part <= name + rest) by {
        assert (name + rest)[0] != part[0];
      }
    }
  }

  /** `/d/` occurs exactly when `d` names a component that is neither the first nor the last. */
  lemma {:induction false} InnerIsContained(path: seq<string>, d: string)
    requires IsPathOfNames(path) && IsName(d)
    ensures Contains(Relative(path), "/" + d + "/") <==> exists i :: 0 < i < |path| - 1 && path[i] == d
  {
    var part := "/" + d + "/";
    if |path| == 1 {
      SkipsName(path[0], "", part);
      assert path[0] + "" == path[0];
      assert !Contains("", part);
    } else {
      var rest := path[1..];
      assert IsPathOfNames(rest);
      assert Relative(path) == path[0] + ("/" + Relative(rest));
      SkipsName(path[0], "/" + Relative(rest), part);
      InnerIsContained(rest, d);
      PrefixIsFirst(rest, d);
      assert ("/" + Relative(rest))[1..] == Relative(rest);
      SlashThen(Relative(rest), d);
      hide Contains, Relative;
      if i :| 0 < i < |path| - 1 && path[i] == d {
        assert rest[i - 1] == d;
      }
      if i :| 0 < i < |rest| - 1 && rest[i] == d {
        assert path[i + 1] == d;
      }
    }
  }

  lemma SlashThen(s: string, d: string)
    ensures "/" + d + "/" <= "/" + s <==> d + "/" <= s
  {
    var part, whole := "/" + d + "/", "/" + s;
    assert part == "/" + (d + "/");
    if part <= whole {
      assert whole[1..] == s && part[1..] == d + "/";
    }
  }

  lemma SegmentsOfNames(path: seq<string>)
    requires IsPathOfNames(path)
    ensures Segments(Relative(path)) == path
  {
    SegmentsOfRelative(path);
  }

  lemma GeneratedDirByComponents(path: seq<string>, d: string)
    requires IsPathOfNames(path) && IsName(d)
    ensures UnderGeneratedDir(Relative(path), d) <==> exists i :: 0 <= i < |path| - 1 && path[i] == d
  {
    PrefixIsFirst(path, d);
    InnerIsContained(path, d);
    hide Contains, Relative;
    if i :| 0 <= i < |path| - 1 && path[i] == d {
      assert i == 0 || 0 < i < |path| - 1;
    }
  }

  // ---- what the three tests say ----

  /** The names of directories whose contents are generated. */
  const GENERATED: set<string> := {".git", "target", "build", "dist", "out", "coverage", "node_modules"}

  lemma GeneratedNames()
    ensures forall d :: d in GENERATED_DIRS <==> d in GENERATED
    ensures forall d :: d in GENERATED ==> IsName(d)
    ensures IsName("jacoco-resources")
  {
  }

  ghost predicate IsTemporaryName(name: string) {
    name == ".tmp" || name == ".temp" || (|name| >= 5 && name[..5] == ".tmp-")
  }

  ghost predicate InGenerated(path: seq<string>) {
    exists i :: 0 <= i < |path| - 1 && path[i] in GENERATED
  }

  ghost predicate HasTemporary(path: seq<string>) {
    exists i :: 0 <= i < |path| && IsTemporaryName(path[i])
  }

  ghost predicate InJacoco(path: seq<string>) {
    exists i :: 0 < i < |path| - 1 && path[i] == "jacoco-resources"
  }

  /**
   * A path is generated exactly if it lies in a generated directory, has a component that is temporary, or lies in a
   * `jacoco-resources` directory that is not at the top, whatever the case of the letters.
   */
  lemma GeneratedByComponents(path: seq<string>)
    requires IsPathOfNames(path)
    ensures IsGeneratedOrVendor(Relative(path)) <==>
      InGenerated(LowerAll(path)) || HasTemporary(LowerAll(path)) || InJacoco(LowerAll(path))
  {
    hide Contains, Relative, UnderGeneratedDir, Segments, Lower, LowerAll, GENERATED_DIRS, IsTemporary;
    hide IsPathOfNames, InGenerated, HasTemporary, InJacoco;
    var lower := LowerAll(path);
    LowerAllNames(path);
    LowerOfRelative(path);
    TemporaryExactly(lower);
    GeneratedExactly(lower);
    JacocoExactly(lower);
  }

  lemma JacocoExactly(lower: seq<string>)
    requires IsPathOfNames(lower)
    ensures Contains(Relative(lower), "/jacoco-resources/") <==> InJacoco(lower)
  {
    hide Contains, Relative;
    GeneratedNames();
    InnerIsContained(lower, "jacoco-resources");
    assert "/jacoco-resources/" == "/" + "jacoco-resources" + "/";
  }

  lemma TemporaryNames(s: string)
    ensures IsTemporary(s) <==> IsTemporaryName(s)
  {
    assert |".tmp-"| == 5;
  }

  lemma TemporaryExactly(lower: seq<string>)
    requires IsPathOfNames(lower)
    ensures (exists s :: s in Segments(Relative(lower)) && IsTemporary(s)) <==> HasTemporary(lower)
  {
    hide Relative, Segments, IsTemporary, IsTemporaryName;
    SegmentsOfNames(lower);
    if s :| s in lower && IsTemporary(s) {
      var i :| 0 <= i < |lower| && lower[i] == s;
      TemporaryNames(s);
    }
    if i :| 0 <= i < |lower| && IsTemporaryName(lower[i]) {
      TemporaryNames(lower[i]);
      assert lower[i] in lower;
    }
  }

  lemma GeneratedExactly(lower: seq<string>)
    requires IsPathOfNames(lower)
    ensures (exists d :: d in GENERATED_DIRS && UnderGeneratedDir(Relative(lower), d)) <==> InGenerated(lower)
  {
    hide UnderGeneratedDir, Relative, GENERATED, GENERATED_DIRS, IsName;
    GeneratedNames();
    if d :| d in GENERATED_DIRS && UnderGeneratedDir(Relative(lower), d) {
      GeneratedDirByComponents(lower, d);
    }
    if i :| 0 <= i < |lower| - 1 && lower[i] in GENERATED {
      GeneratedDirByComponents(lower, lower[i]);
    }
  }

  /** The regex scan leaves out what lies in four directories at the top. */
  lemma RegexExcludedByComponents(path: seq<string>)
    requires IsPathOfNames(path)
    ensures IsRegexExcluded(Relative(path)) <==>
      |path| > 1 && path[0] in {".git", ".packet28", "target", "node_modules"}
  {
    hide Relative, IsPathOfNames, IsName;
    var s := Relative(path);
    TopDirectory(path, ".git", ".git/");
    TopDirectory(path, ".packet28", ".packet28/");
    TopDirectory(path, "target", "target/");
    TopDirectory(path, "node_modules", "node_modules/");
  }

  lemma TopDirectory(path: seq<string>, d: string, prefix: string)
    requires IsPathOfNames(path) && prefix == d + "/"
    requires d in {".git", ".packet28", "target", "node_modules"}
    ensures prefix <= Relative(path) <==> |path| > 1 && path[0] == d
  {
    hide Relative, IsName;
    TopNames();
    PrefixIsFirst(path, d);
  }

  lemma TopNames()
    ensures IsName(".git") && IsName(".packet28") && IsName("target") && IsName("node_modules")
  {
  }

  /** `e` has no slash, so a path ends in it exactly if its last component does. */
  lemma {:induction false} SuffixOfLast(path: seq<string>, e: string)
    requires IsPathOfNames(path) && forall i :: 0 <= i < |e| ==> e[i] != '/'
    ensures HasSuffix(Relative(path), e) <==> HasSuffix(path[|path| - 1], e)
  {
    if |path| > 1 {
      var rest := path[1..];
      assert IsPathOfNames(rest);
      SuffixOfLast(rest, e);
      var whole, below := Relative(path), Relative(rest);
      assert whole == path[0] + ("/" + below);
      if |e| <= |below| {
        assert whole[|whole| - |e|..] == below[|below| - |e|..];
      } else if HasSuffix(whole, e) {
        var i := |e| - |below| - 1;
        assert whole[|whole| - |e|..][i] == whole[|path[0]|] == '/';
      } else {
        assert |path[|path| - 1]| <= |below| by {
          LastIsShorter(rest);
        }
      }
      if |e| > |below| {
        LastIsShorter(rest);
      }
    }
  }

  lemma {:induction false} LastIsShorter(path: seq<string>)
    requires path != []
    ensures |path[|path| - 1]| <= |Relative(path)|
  {
    if |path| > 1 {
      LastIsShorter(path[1..]);
    }
  }

  ghost predicate Ends(name: string, ending: string) {
    exists stem :: name == stem + ending
  }

  ghost predicate HasEnding(name: string, endings: seq<string>) {
    exists e :: e in endings && Ends(name, e)
  }

  /** A file is source exactly if its name ends in one of fifteen extensions. */
  lemma SourceByName(path: seq<string>)
    requires IsPathOfNames(path)
    ensures IsSource(Relative(path)) <==> HasEnding(path[|path| - 1],
      [".java", ".rs", ".py", ".tsx", ".ts", ".js", ".jsx", ".go", ".cpp", ".cc", ".cxx", ".hpp", ".hh", ".h", ".c"])
  {
    hide Relative, HasSuffix, Ends;
    var name := path[|path| - 1];
    ExtensionsHaveNoSlash();
    forall e | e in EXTENSIONS ensures HasSuffix(Relative(path), e) <==> Ends(name, e) {
      SuffixOfLast(path, e);
      EndsExactly(name, e);
    }
  }

  lemma EndsExactly(name: string, ending: string)
    ensures HasSuffix(name, ending) <==> Ends(name, ending)
  {
    SuffixExactly(name, ending);
  }

  lemma ExtensionsHaveNoSlash()
    ensures forall e :: e in EXTENSIONS ==> forall i :: 0 <= i < |e| ==> e[i] != '/'
  {
  }
}
