/** Repository-relative paths and the three tests the scanners make of them. */
module RepoPaths {
  import opened Text

  predicate Contains(s: string, part: string) {
    part <= s || (s != "" && Contains(s[1..], part))
  }

  predicate HasSuffix(s: string, suffix: string) {
    |suffix| <= |s| && s[|s| - |suffix|..] == suffix
  }

  /** `split('/')` */
  function Segments(s: string): (r: seq<string>)
    ensures r != []
  {
    if s == "" then [""]
    else
      var rest := Segments(s[1..]);
      if s[0] == '/' then [""] + rest else [[s[0]] + rest[0]] + rest[1..]
  }

  const EXTENSIONS: seq<string> :=
    [".java", ".rs", ".py", ".tsx", ".ts", ".js", ".jsx", ".go", ".cpp", ".cc", ".cxx", ".hpp", ".hh", ".h", ".c"]

  const GENERATED_DIRS: seq<string> := [".git", "target", "build", "dist", "out", "coverage", "node_modules"]

  predicate IsRegexExcluded(path: string) {
    ".git/" <= path || ".packet28/" <= path || "target/" <= path || "node_modules/" <= path
  }

  predicate IsSource(path: string) {
    exists e :: e in EXTENSIONS && HasSuffix(path, e)
  }

  predicate IsTemporary(segment: string) {
    segment == ".tmp" || segment == ".temp" || ".tmp-" <= segment
  }

  predicate UnderGeneratedDir(lower: string, d: string) {
    d + "/" <= lower || Contains(lower, "/" + d + "/")
  }

  predicate IsGeneratedOrVendor(path: string) {
    var lower := Lower(path);
    || (exists s :: s in Segments(lower) && IsTemporary(s))
    || (exists d :: d in GENERATED_DIRS && UnderGeneratedDir(lower, d))
    || Contains(lower, "/jacoco-resources/")
  }

  /** A path's components joined by slashes. */
  function Relative(path: seq<string>): string {
    if path == [] then "" else if |path| == 1 then path[0] else path[0] + "/" + Relative(path[1..])
  }

  // ---- tests that stay true below a path ----

  /** Whatever is under a path that passes also passes: the walk may prune there. */
  ghost predicate ClosedUnderExtension(test: string -> bool) {
    forall p, rest :: test(p) ==> test(p + "/" + rest)
  }

  lemma {:induction false} LowerAppend(a: string, b: string)
    ensures Lower(a + b) == Lower(a) + Lower(b)
  {
    if a == "" {
      assert a + b == b;
    } else {
      assert (a + b)[1..] == a[1..] + b;
      LowerAppend(a[1..], b);
    }
  }

  lemma {:induction false} SegmentsOfExtension(a: string, b: string)
    ensures Segments(a + "/" + b) == Segments(a) + Segments(b)
  {
    var whole := a + "/" + b;
    if a == "" {
      assert whole[1..] == b;
    } else {
      assert whole[1..] == a[1..] + "/" + b;
      SegmentsOfExtension(a[1..], b);
    }
  }

  lemma {:induction false} ContainsExtends(s: string, rest: string, part: string)
    requires Contains(s, part)
    ensures Contains(s + rest, part)
  {
    if part <= s {
      assert part <= s + rest;
    } else {
      ContainsExtends(s[1..], rest, part);
      assert (s + rest)[1..] == s[1..] + rest;
    }
  }

  lemma LowerOfExtension(p: string, rest: string)
    ensures Lower(p + "/" + rest) == Lower(p) + ("/" + Lower(rest)) == Lower(p) + "/" + Lower(rest)
  {
    LowerAppend(p, "/" + rest);
    LowerAppend("/", rest);
    assert p + "/" + rest == p + ("/" + rest);
    assert Lower("/") == "/";
  }

  lemma UnderGeneratedDirExtends(lower: string, below: string, d: string)
    requires UnderGeneratedDir(lower, d)
    ensures UnderGeneratedDir(lower + below, d)
  {
    if Contains(lower, "/" + d + "/") {
      ContainsExtends(lower, below, "/" + d + "/");
    }
  }

  lemma GeneratedExtends(p: string, rest: string)
    requires IsGeneratedOrVendor(p)
    ensures IsGeneratedOrVendor(p + "/" + rest)
  {
    hide LowerChar, Contains, UnderGeneratedDir;
    var lower, below := Lower(p), "/" + Lower(rest);
    LowerOfExtension(p, rest);
    SegmentsOfExtension(lower, Lower(rest));
    if s :| s in Segments(lower) && IsTemporary(s) {
      assert s in Segments(lower + below);
    } else if d :| d in GENERATED_DIRS && UnderGeneratedDir(lower, d) {
      UnderGeneratedDirExtends(lower, below, d);
    } else {
      ContainsExtends(lower, below, "/jacoco-resources/");
    }
  }

  lemma GeneratedIsClosed()
    ensures ClosedUnderExtension(IsGeneratedOrVendor)
  {
    forall p, rest | IsGeneratedOrVendor(p) ensures IsGeneratedOrVendor(p + "/" + rest) {
      GeneratedExtends(p, rest);
    }
  }

  /** What the union walk prunes: paths neither consumer wants. */
  predicate ExcludedByBoth(path: string) {
    IsRegexExcluded(path) && IsGeneratedOrVendor(path)
  }

  lemma ExcludedByBothIsClosed()
    ensures ClosedUnderExtension(ExcludedByBoth)
  {
    forall p, rest | ExcludedByBoth(p) ensures ExcludedByBoth(p + "/" + rest) {
      GeneratedExtends(p, rest);
    }
  }

  /** Testing the suffix of the full path is testing that of the relative path. */
  lemma SourceOfFullPath(root: string, path: string)
    requires path != ""
    ensures IsSource(root + "/" + path) == IsSource(path)
  {
    var full := root + "/" + path;
    forall e | e in EXTENSIONS ensures HasSuffix(full, e) == HasSuffix(path, e) {
      assert forall i :: 0 <= i < |e| ==> e[i] != '/';
      if |e| <= |path| {
        assert full[|full| - |e|..] == path[|path| - |e|..];
      } else if |e| <= |full| {
        var i := |e| - |path| - 1;
        assert full[|full| - |e|..][i] == full[|root|] == '/';
      }
    }
  }

  // ---- joined components can be told apart ----

  ghost predicate IsName(name: string) {
    name != "" && forall i :: 0 <= i < |name| ==> name[i] != '/'
  }

  lemma {:induction false} SegmentsOfName(name: string)
    requires forall i :: 0 <= i < |name| ==> name[i] != '/'
    ensures Segments(name) == [name]
  {
    if name != "" {
      SegmentsOfName(name[1..]);
      assert name == [name[0]] + name[1..];
    }
  }

  lemma {:induction false} SegmentsOfRelative(path: seq<string>)
    requires path != [] && forall n :: n in path ==> IsName(n)
    ensures Segments(Relative(path)) == path
  {
    assert path[0] in path;
    SegmentsOfName(path[0]);
    if |path| > 1 {
      assert path == [path[0]] + path[1..];
      SegmentsOfRelative(path[1..]);
      SegmentsOfExtension(path[0], Relative(path[1..]));
    }
  }

  lemma {:induction false} RelativeOfChild(path: seq<string>, name: string)
    requires path != []
    ensures Relative(path + [name]) == Relative(path) + "/" + name
  {
    if |path| == 1 {
      assert (path + [name])[1..] == [name];
    } else {
      assert (path + [name])[1..] == path[1..] + [name];
      RelativeOfChild(path[1..], name);
      assert Relative(path + [name]) == path[0] + "/" + (Relative(path[1..]) + "/" + name);
    }
  }
}
