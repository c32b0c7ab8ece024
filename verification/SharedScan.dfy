/** Two separate scans of a repository, and the one shared scan meant to replace them. */
module SharedScan {
  import opened Wrappers
  import opened Order
  import opened Sequences
  import opened Sorting
  import opened RepoPaths
  import opened RepoWalk
  import opened DigestFraming

  const MAX_REGEX_FILE_BYTES: nat := 2 * 1024 * 1024

  datatype ScanOutput = ScanOutput(mapped: Summary, regex: Summary)

  datatype Io = Io(
    walkPasses: nat, walkedEntries: nat, metadataCalls: nat,
    readCalls: nat, bytesRead: nat, peakFiles: nat, peakBytes: nat)

  datatype IoError = Unreadable

  type Scan = Result<(ScanOutput, Io), IoError>

  // ---- orders and candidates ----

  /** `paths.sort()` on strings. */
  function ByString(): (File, File) -> bool {
    (a: File, b: File) => StrLe(RelativePath(a), RelativePath(b))
  }

  /** `paths.sort()` on paths under one root. */
  function ByPath(): (File, File) -> bool {
    (a: File, b: File) => PathLe(a.path, b.path)
  }

  function SourceUnder(root: string): File -> bool {
    (f: File) => f.Known() && IsSource(root + "/" + RelativePath(f))
  }

  predicate MapCandidate(f: File) {
    IsSource(RelativePath(f)) && !IsGeneratedOrVendor(RelativePath(f))
  }

  predicate RegexPath(f: File) {
    !IsRegexExcluded(RelativePath(f))
  }

  predicate RegexCandidate(f: File) {
    RegexPath(f) && |f.content| <= MAX_REGEX_FILE_BYTES
  }

  predicate Candidate(f: File) {
    MapCandidate(f) || RegexCandidate(f)
  }

  predicate Readable(f: File) {
    f.Readable()
  }

  predicate IsText(content: string) {
    content != "" && '\0' !in content
  }

  function DocumentOf(f: File): Document {
    Document(RelativePath(f), f.content)
  }

  /** What the map consumer is fed for a file, given `from_utf8`'s verdicts. */
  function MapDoc(isUtf8: string -> bool): File -> seq<Document> {
    (f: File) => if f.Readable() && isUtf8(f.content) then [DocumentOf(f)] else []
  }

  function SharedMapDoc(isUtf8: string -> bool): File -> seq<Document> {
    (f: File) => if MapCandidate(f) && f.Readable() && isUtf8(f.content) then [DocumentOf(f)] else []
  }

  function RegexDoc(f: File): seq<Document> {
    if RegexCandidate(f) && f.Readable() && IsText(f.content) then [DocumentOf(f)] else []
  }

  // ---- what each scan computes ----

  function MapFiles(root: string, tree: seq<Child>): seq<File> {
    Sort(ByString(), Filter(SourceUnder(root), FilesWalked(tree, IsGeneratedOrVendor)))
  }

  function BroadFiles(tree: seq<Child>, skip: string -> bool): seq<File> {
    Sort(ByPath(), FilesWalked(tree, skip))
  }

  function RegexFiles(tree: seq<Child>): seq<File> {
    Filter(RegexPath, BroadFiles(tree, SkipNothing))
  }

  function Size(f: File): nat {
    |f.content|
  }

  function One(f: File): nat {
    1
  }

  function Largest(files: seq<File>): nat {
    if files == [] then 0
    else
      var rest, last := Largest(files[..|files| - 1]), files[|files| - 1];
      if Size(last) > rest then Size(last) else rest
  }

  function IoOf(passes: nat, entries: nat, metadataCalls: nat, read: seq<File>): Io {
    Io(passes, entries, metadataCalls, |read|, Weigh(Size, read), if read == [] then 0 else 1, Largest(read))
  }

  /** A pass that asks every file for its metadata and reads those that `wants` fails at this one. */
  predicate Fails(wants: File -> bool, f: File) {
    !f.Known() || (wants(f) && !f.Readable())
  }

  ghost predicate AnyFails(wants: File -> bool, files: seq<File>) {
    exists f :: f in files && Fails(wants, f)
  }

  ghost function SeparateResult(root: string, tree: seq<Child>, isUtf8: string -> bool): Scan {
    var mapFiles, regexFiles := MapFiles(root, tree), RegexFiles(tree);
    if AnyFails(RegexCandidate, regexFiles) then Err(Unreadable)
    else
      Ok((ScanOutput(Summarise(FlatMap(MapDoc(isUtf8), mapFiles)), Summarise(FlatMap(RegexDoc, regexFiles))),
          IoOf(2, |Walk([], tree, IsGeneratedOrVendor)| + |Walk([], tree, SkipNothing)| + 2, |mapFiles| + |regexFiles|,
               Filter(Readable, mapFiles) + Filter(RegexCandidate, regexFiles))))
  }

  ghost function SharedResult(tree: seq<Child>, isUtf8: string -> bool): Scan {
    var files := BroadFiles(tree, ExcludedByBoth);
    if AnyFails(Candidate, files) then Err(Unreadable)
    else
      Ok((ScanOutput(Summarise(FlatMap(SharedMapDoc(isUtf8), files)), Summarise(FlatMap(RegexDoc, files))),
          IoOf(1, |Walk([], tree, ExcludedByBoth)| + 1, |files|, Filter(Candidate, files))))
  }

  // ---- the scans ----

  class Telemetry {
    var walkPasses: nat
    var walkedEntries: nat
    var metadataCalls: nat
    var readCalls: nat
    var bytesRead: nat
    var peakFiles: nat
    var peakBytes: nat
    ghost var read: seq<File>

    ghost predicate Valid()
      reads this
    {
      Io(walkPasses, walkedEntries, metadataCalls, readCalls, bytesRead, peakFiles, peakBytes)
        == IoOf(walkPasses, walkedEntries, metadataCalls, read)
    }

    constructor ()
      ensures Valid() && read == [] && walkPasses == walkedEntries == metadataCalls == 0
    {
      walkPasses, walkedEntries, metadataCalls := 0, 0, 0;
      readCalls, bytesRead, peakFiles, peakBytes := 0, 0, 0, 0;
      read := [];
    }

    method CountWalk(entries: nat)
      requires Valid()
      modifies this
      ensures Valid() && read == old(read) && metadataCalls == old(metadataCalls)
      ensures walkPasses == old(walkPasses) + 1 && walkedEntries == old(walkedEntries) + entries
    {
      walkPasses := walkPasses + 1;
      walkedEntries := walkedEntries + entries;
    }

    method CountMetadata()
      requires Valid()
      modifies this
      ensures Valid() && read == old(read) && metadataCalls == old(metadataCalls) + 1
      ensures walkPasses == old(walkPasses) && walkedEntries == old(walkedEntries)
    {
      metadataCalls := metadataCalls + 1;
    }

    /** `read_counted` followed by `update_peak_content`. */
    method ReadCounted(f: File) returns (bytes: string)
      requires Valid() && f.Readable()
      modifies this
      ensures bytes == f.content
      ensures Valid() && read == old(read) + [f] && metadataCalls == old(metadataCalls)
      ensures walkPasses == old(walkPasses) && walkedEntries == old(walkedEntries)
    {
      WeighLast(read, f);
      hide Weigh, Largest, Relative;
      bytes := f.content;
      readCalls := readCalls + 1;
      bytesRead := bytesRead + |bytes|;
      if peakFiles < 1 {
        peakFiles := 1;
      }
      if peakBytes < |bytes| {
        peakBytes := |bytes|;
      }
      read := read + [f];
    }

    method Report() returns (io: Io)
      requires Valid()
      ensures io == IoOf(walkPasses, walkedEntries, metadataCalls, read)
    {
      io := Io(walkPasses, walkedEntries, metadataCalls, readCalls, bytesRead, peakFiles, peakBytes);
    }
  }

  lemma WeighLast(files: seq<File>, f: File)
    ensures Weigh(Size, files + [f]) == Weigh(Size, files) + Size(f)
    ensures Largest(files + [f]) == if Size(f) > Largest(files) then Size(f) else Largest(files)
  {
    assert (files + [f])[..|files|] == files;
    WeighAppend(Size, files, [f]);
    assert Weigh(Size, [f]) == Size(f) + Weigh(Size, []);
  }

  method FeedMap(files: seq<File>, isUtf8: string -> bool, mapping: ConsumerDigest, telemetry: Telemetry)
    requires mapping.Valid() && mapping.consumed == []
    requires telemetry.Valid() && telemetry.read == [] && telemetry.metadataCalls == 0
    modifies mapping, telemetry
    ensures mapping.Valid() && mapping.consumed == FlatMap(MapDoc(isUtf8), files)
    ensures telemetry.Valid() && telemetry.read == Filter(Readable, files) && telemetry.metadataCalls == |files|
    ensures telemetry.walkPasses == old(telemetry.walkPasses) && telemetry.walkedEntries == old(telemetry.walkedEntries)
  {
    hide IsSource, IsGeneratedOrVendor, IsRegexExcluded, Relative, Weigh, Largest, Frames, TotalBytes;
    for i := 0 to |files|
      invariant mapping.Valid() && mapping.consumed == FlatMap(MapDoc(isUtf8), files[..i])
      invariant telemetry.Valid() && telemetry.read == Filter(Readable, files[..i]) && telemetry.metadataCalls == i
      invariant telemetry.walkPasses == old(telemetry.walkPasses)
      invariant telemetry.walkedEntries == old(telemetry.walkedEntries)
    {
      var f := files[i];
      assert files[..i + 1] == files[..i] + [f];
      FlatMapLast(MapDoc(isUtf8), files[..i], f);
      FilterLast(Readable, files[..i], f);
      telemetry.CountMetadata();
      if f.Known() && f.Readable() {
        var bytes := telemetry.ReadCounted(f);
        if isUtf8(bytes) {
          mapping.Consume(RelativePath(f), bytes);
        }
      }
    }
    assert files[..|files|] == files;
  }

  lemma NothingFed(wants: File -> bool, doc: File -> seq<Document>, read: seq<File>)
    ensures !AnyFails(wants, []) && FlatMap(doc, []) == [] && Filter(wants, []) == [] && read + [] == read
  {
  }

  lemma AnyFailsStep(wants: File -> bool, files: seq<File>, i: nat)
    requires i < |files|
    ensures AnyFails(wants, files[..i + 1]) <==> AnyFails(wants, files[..i]) || Fails(wants, files[i])
    ensures Fails(wants, files[i]) ==> AnyFails(wants, files)
  {
    hide Fails;
    assert files[..i + 1] == files[..i] + [files[i]];
    assert files[i] in files && files[i] in files[..i + 1];
    assert forall f :: f in files[..i] ==> f in files[..i + 1];
  }

  method FeedRegex(files: seq<File>, regex: ConsumerDigest, telemetry: Telemetry) returns (ok: bool)
    requires forall f :: f in files ==> RegexPath(f)
    requires regex.Valid() && regex.consumed == [] && telemetry.Valid()
    modifies regex, telemetry
    ensures ok <==> !AnyFails(RegexCandidate, files)
    ensures ok ==> regex.Valid() && regex.consumed == FlatMap(RegexDoc, files)
    ensures ok ==> telemetry.Valid() && telemetry.read == old(telemetry.read) + Filter(RegexCandidate, files)
    ensures ok ==> telemetry.metadataCalls == old(telemetry.metadataCalls) + |files|
    ensures telemetry.walkPasses == old(telemetry.walkPasses) && telemetry.walkedEntries == old(telemetry.walkedEntries)
  {
    hide AnyFails, IsRegexExcluded, Relative, IoOf, Summarise, Filter, FlatMap;
    NothingFed(RegexCandidate, RegexDoc, telemetry.read);
    for i := 0 to |files|
      invariant !AnyFails(RegexCandidate, files[..i])
      invariant regex.Valid() && regex.consumed == FlatMap(RegexDoc, files[..i])
      invariant telemetry.Valid() && telemetry.read == old(telemetry.read) + Filter(RegexCandidate, files[..i])
      invariant telemetry.metadataCalls == old(telemetry.metadataCalls) + i
      invariant telemetry.walkPasses == old(telemetry.walkPasses)
      invariant telemetry.walkedEntries == old(telemetry.walkedEntries)
    {
      var f := files[i];
      assert files[..i + 1] == files[..i] + [f];
      AnyFailsStep(RegexCandidate, files, i);
      FlatMapLast(RegexDoc, files[..i], f);
      FilterLast(RegexCandidate, files[..i], f);
      telemetry.CountMetadata();
      if !f.Known() {
        return false;
      }
      if |f.content| > MAX_REGEX_FILE_BYTES {
        continue;
      }
      if !f.Readable() {
        return false;
      }
      var bytes := telemetry.ReadCounted(f);
      if bytes == "" || '\0' in bytes {
        continue;
      }
      regex.Consume(RelativePath(f), bytes);
    }
    assert files[..|files|] == files;
    ok := true;
  }

  method MapPass(root: string, tree: seq<Child>, isUtf8: string -> bool,
      telemetry: Telemetry) returns (summary: Summary)
    requires telemetry.Valid() && telemetry.read == [] && telemetry.metadataCalls == 0
    modifies telemetry
    ensures summary == Summarise(FlatMap(MapDoc(isUtf8), MapFiles(root, tree)))
    ensures telemetry.Valid() && telemetry.read == Filter(Readable, MapFiles(root, tree))
    ensures telemetry.metadataCalls == |MapFiles(root, tree)| && telemetry.walkPasses == old(telemetry.walkPasses) + 1
    ensures telemetry.walkedEntries == old(telemetry.walkedEntries) + |Walk([], tree, IsGeneratedOrVendor)| + 1
  {
    hide Walk, Sort, IsSource, IsGeneratedOrVendor, Relative, Weigh, Largest, Frames, TotalBytes;
    var walked := Walk([], tree, IsGeneratedOrVendor);
    telemetry.CountWalk(|walked| + 1);
    var files := Sort(ByString(), Filter(SourceUnder(root), FlatMap(FileOf, walked)));
    var mapping := new ConsumerDigest();
    FeedMap(files, isUtf8, mapping, telemetry);
    summary := mapping.Finish();
  }

  method RegexPass(tree: seq<Child>, telemetry: Telemetry) returns (result: Result<Summary, IoError>)
    requires telemetry.Valid()
    modifies telemetry
    ensures result.Err? <==> AnyFails(RegexCandidate, RegexFiles(tree))
    ensures result.Ok? ==> result.value == Summarise(FlatMap(RegexDoc, RegexFiles(tree)))
    ensures result.Ok? ==>
      telemetry.Valid() && telemetry.read == old(telemetry.read) + Filter(RegexCandidate, RegexFiles(tree))
    ensures result.Ok? ==> telemetry.metadataCalls == old(telemetry.metadataCalls) + |RegexFiles(tree)|
    ensures telemetry.walkPasses == old(telemetry.walkPasses) + 1
    ensures telemetry.walkedEntries == old(telemetry.walkedEntries) + |Walk([], tree, SkipNothing)| + 1
  {
    hide Walk, Sort, IsRegexExcluded, Relative, Weigh, Largest, Frames, TotalBytes;
    var walked := Walk([], tree, SkipNothing);
    telemetry.CountWalk(|walked| + 1);
    var paths := Sort(ByPath(), FlatMap(FileOf, walked));
    var files := Filter(RegexPath, paths);
    FilterMembers(RegexPath, paths);
    var regex := new ConsumerDigest();
    var ok := FeedRegex(files, regex, telemetry);
    if !ok {
      return Err(Unreadable);
    }
    var summary := regex.Finish();
    result := Ok(summary);
  }

  method RunSeparate(root: string, tree: seq<Child>, isUtf8: string -> bool) returns (scan: Scan)
    ensures scan == SeparateResult(root, tree, isUtf8)
  {
    hide Walk, Filter, FlatMap, MapFiles, RegexFiles, AnyFails, Summarise, IoOf, RegexCandidate, MapDoc;
    var telemetry := new Telemetry();
    var mapSummary := MapPass(root, tree, isUtf8, telemetry);
    var regexResult := RegexPass(tree, telemetry);
    match regexResult {
      case Err(_) =>
        scan := Err(Unreadable);
      case Ok(regexSummary) =>
        var io := telemetry.Report();
        scan := Ok((ScanOutput(mapSummary, regexSummary), io));
    }
  }

  /** What one file of the union walk is to its consumers, in the terms of the pass. */
  lemma FileFeeds(f: File, isUtf8: string -> bool)
    ensures var relative := RelativePath(f);
      var mapped := IsSource(relative) && !IsGeneratedOrVendor(relative);
      var searched := !IsRegexExcluded(relative) && |f.content| <= MAX_REGEX_FILE_BYTES;
      && Candidate(f) == (mapped || searched) && DocumentOf(f) == Document(relative, f.content)
      && SharedMapDoc(isUtf8)(f) == (if mapped && f.Readable() && isUtf8(f.content) then [DocumentOf(f)] else [])
      && RegexDoc(f) ==
        if searched && f.Readable() && f.content != "" && '\0' !in f.content then [DocumentOf(f)] else []
  {
    hide IsSource, IsGeneratedOrVendor, IsRegexExcluded, Relative;
  }

  /** The shared pass over one file: one read, lent to whichever consumers want it. */
  method FeedFile(f: File, isUtf8: string -> bool, mapping: ConsumerDigest, regex: ConsumerDigest, telemetry: Telemetry)
    returns (ok: bool)
    requires mapping != regex && mapping.Valid() && regex.Valid() && telemetry.Valid()
    modifies mapping, regex, telemetry
    ensures ok <==> !Fails(Candidate, f)
    ensures mapping.Valid() && regex.Valid() && telemetry.Valid()
    ensures ok ==> mapping.consumed == old(mapping.consumed) + SharedMapDoc(isUtf8)(f)
    ensures ok ==> regex.consumed == old(regex.consumed) + RegexDoc(f)
    ensures ok ==> telemetry.read == old(telemetry.read) + (if Candidate(f) then [f] else [])
    ensures telemetry.metadataCalls == old(telemetry.metadataCalls) + 1
    ensures telemetry.walkPasses == old(telemetry.walkPasses) && telemetry.walkedEntries == old(telemetry.walkedEntries)
  {
    hide IsSource, IsGeneratedOrVendor, IsRegexExcluded, RelativePath, DocumentOf, Candidate, SharedMapDoc, RegexDoc;
    FileFeeds(f, isUtf8);
    ConcatEmpty(mapping.consumed);
    ConcatEmpty(regex.consumed);
    ConcatEmpty(telemetry.read);
    var relative := RelativePath(f);
    var mapCandidate := IsSource(relative) && !IsGeneratedOrVendor(relative);
    telemetry.CountMetadata();
    if !f.Known() {
      return false;
    }
    var regexCandidate := !IsRegexExcluded(relative) && |f.content| <= MAX_REGEX_FILE_BYTES;
    if !mapCandidate && !regexCandidate {
      return true;
    }
    if !f.Readable() {
      return false;
    }
    var bytes := telemetry.ReadCounted(f);
    if mapCandidate && isUtf8(bytes) {
      mapping.Consume(relative, bytes);
    }
    if regexCandidate && bytes != "" && '\0' !in bytes {
      regex.Consume(relative, bytes);
    }
    ok := true;
  }

  method FeedBoth(files: seq<File>, isUtf8: string -> bool, mapping: ConsumerDigest, regex: ConsumerDigest,
      telemetry: Telemetry)
    returns (ok: bool)
    requires mapping != regex
    requires mapping.Valid() && mapping.consumed == [] && regex.Valid() && regex.consumed == []
    requires telemetry.Valid() && telemetry.read == [] && telemetry.metadataCalls == 0
    modifies mapping, regex, telemetry
    ensures ok <==> !AnyFails(Candidate, files)
    ensures ok ==> mapping.Valid() && mapping.consumed == FlatMap(SharedMapDoc(isUtf8), files)
    ensures ok ==> regex.Valid() && regex.consumed == FlatMap(RegexDoc, files)
    ensures ok ==> telemetry.Valid() && telemetry.read == Filter(Candidate, files) && telemetry.metadataCalls == |files|
    ensures telemetry.walkPasses == old(telemetry.walkPasses) && telemetry.walkedEntries == old(telemetry.walkedEntries)
  {
    hide IsSource, IsGeneratedOrVendor, IsRegexExcluded, Relative, Weigh, Largest, Frames, TotalBytes;
    for i := 0 to |files|
      invariant !AnyFails(Candidate, files[..i])
      invariant mapping.Valid() && mapping.consumed == FlatMap(SharedMapDoc(isUtf8), files[..i])
      invariant regex.Valid() && regex.consumed == FlatMap(RegexDoc, files[..i])
      invariant telemetry.Valid() && telemetry.read == Filter(Candidate, files[..i]) && telemetry.metadataCalls == i
      invariant telemetry.walkPasses == old(telemetry.walkPasses)
      invariant telemetry.walkedEntries == old(telemetry.walkedEntries)
    {
      var f := files[i];
      assert files[..i + 1] == files[..i] + [f];
      FlatMapLast(SharedMapDoc(isUtf8), files[..i], f);
      FlatMapLast(RegexDoc, files[..i], f);
      FilterLast(Candidate, files[..i], f);
      var fed := FeedFile(f, isUtf8, mapping, regex, telemetry);
      if !fed {
        return false;
      }
    }
    assert files[..|files|] == files;
    ok := true;
  }

  method RunShared(tree: seq<Child>, isUtf8: string -> bool) returns (scan: Scan)
    ensures scan == SharedResult(tree, isUtf8)
  {
    hide Walk, Sort, IsSource, IsGeneratedOrVendor, IsRegexExcluded, Relative, Weigh, Largest, Frames, TotalBytes;
    var telemetry := new Telemetry();
    var walked := Walk([], tree, ExcludedByBoth);
    telemetry.CountWalk(|walked| + 1);
    var files := Sort(ByPath(), FlatMap(FileOf, walked));
    var mapping := new ConsumerDigest();
    var regex := new ConsumerDigest();
    var ok := FeedBoth(files, isUtf8, mapping, regex, telemetry);
    if !ok {
      return Err(Unreadable);
    }
    var mapSummary := mapping.Finish();
    var regexSummary := regex.Finish();
    var io := telemetry.Report();
    scan := Ok((ScanOutput(mapSummary, regexSummary), io));
  }
}
