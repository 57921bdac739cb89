/** `WorkspaceDetector` of src/workspace-detector.ts over the abstract
    filesystem: git-root search, service-name inference and language detection. */
module Workspace {
  import opened Wrappers
  import opened Text
  import opened Seqs
  import opened FsUtils

  datatype WorkspaceInfo = WorkspaceInfo(
    root: Path,
    service: Option<string>,
    languages: seq<string>,
    path: Path,
    isGitRepo: bool)

  /** The number of directories `findGitRoot` inspects. */
  const MaxGitHops: nat := 50

  predicate HasGitDir(fs: Fs, dir: Path) {
    dir + [".git"] in fs.dirs
  }

  /** The walk of `findGitRoot` with `budget` inspections left. */
  function GitRootFrom(fs: Fs, dir: Path, budget: nat): (r: Option<Path>)
    ensures r.Some? ==> IsPrefix(r.value, dir) && |dir| - |r.value| < budget && HasGitDir(fs, r.value)
    ensures r.Some? ==> forall k :: |r.value| < k <= |dir| ==> !HasGitDir(fs, dir[..k])
    ensures r.None? ==> forall k :: 0 <= k <= |dir| && |dir| - k < budget ==> !HasGitDir(fs, dir[..k])
    decreases budget
  {
    if budget == 0 then None
    else if HasGitDir(fs, dir) then
      assert dir[..|dir|] == dir;
      Some(dir)
    else if dir == [] then None
    else
      var up := Parent(dir);
      var r := GitRootFrom(fs, up, budget - 1);
      assert forall k :: 0 <= k <= |up| ==> up[..k] == dir[..k];
      assert dir[..|dir|] == dir;
      assert r.Some? ==> r.value == up[..|r.value|];
      r
  }

  /** `findGitRoot(dir)`: the nearest of `dir` and its first 49 ancestors that
      holds a `.git` directory. */
  function FindGitRoot(fs: Fs, dir: Path): (r: Option<Path>)
    ensures r.Some? ==> IsPrefix(r.value, dir) && |dir| - |r.value| < MaxGitHops && HasGitDir(fs, r.value)
    ensures r.Some? ==> forall k :: |r.value| < k <= |dir| ==> !HasGitDir(fs, dir[..k])
    ensures r.None? ==> forall k :: 0 <= k <= |dir| && |dir| - k < MaxGitHops ==> !HasGitDir(fs, dir[..k])
  {
    GitRootFrom(fs, dir, MaxGitHops)
  }

  /** A `.git` directory more than 49 levels up is never found. */
  lemma GitRootBeyondBound(fs: Fs, dir: Path, k: nat)
    requires k <= |dir| && |dir| - k >= MaxGitHops
    requires HasGitDir(fs, dir[..k])
    requires forall k' :: k < k' <= |dir| ==> !HasGitDir(fs, dir[..k'])
    ensures FindGitRoot(fs, dir) == None
  {
  }

  function Repeat(s: string, n: nat): (r: seq<string>)
    ensures |r| == n && forall i :: 0 <= i < n ==> r[i] == s
  {
    seq(n, _ => s)
  }

  /** Length of the longest common prefix of two paths. */
  function CommonPrefix(a: Path, b: Path): (n: nat)
    ensures n <= |a| && n <= |b| && a[..n] == b[..n]
    ensures n < |a| && n < |b| ==> a[n] != b[n]
    decreases |a|
  {
    if a == [] || b == [] || a[0] != b[0] then 0
    else
      var n := CommonPrefix(a[1..], b[1..]);
      assert a[..n + 1] == [a[0]] + a[1..][..n];
      assert b[..n + 1] == [b[0]] + b[1..][..n];
      n + 1
  }

  /** `path.relative(from, to)` for resolved paths. */
  function Relative(from: Path, to: Path): string {
    var c := CommonPrefix(from, to);
    Join(Repeat("..", |from| - c) + to[c..], "/")
  }

  /** A directory below `from` is reached by joining the remaining segments. */
  lemma RelativeBelow(from: Path, to: Path)
    requires IsPrefix(from, to)
    ensures Relative(from, to) == Join(to[|from|..], "/")
  {
    var c := CommonPrefix(from, to);
    assert Repeat("..", 0) + to[c..] == to[c..];
  }

  /** The regex class `\w`. */
  predicate IsWordChar(c: char) {
    ('a' <= c <= 'z') || ('A' <= c <= 'Z') || ('0' <= c <= '9') || c == '_'
  }

  /** Length of the leading run of word characters. */
  function WordRun(s: string): (n: nat)
    ensures n <= |s|
    ensures forall i :: 0 <= i < n ==> IsWordChar(s[i])
    ensures n < |s| ==> !IsWordChar(s[n])
    decreases |s|
  {
    if s == [] || !IsWordChar(s[0]) then 0 else 1 + WordRun(s[1..])
  }

  /** A match of `/<prefix>(\w+)\/?/` can start at `i`. */
  predicate PatternAt(rel: string, prefix: string, i: nat) {
    OccursAt(rel, prefix, i) && i + |prefix| < |rel| && IsWordChar(rel[i + |prefix|])
  }

  /** Where the leftmost match of `/<prefix>(\w+)\/?/` starts, at or after `from`. */
  function MatchStart(rel: string, prefix: string, from: nat): (r: Option<nat>)
    ensures r.None? ==> forall i :: from <= i ==> !PatternAt(rel, prefix, i)
    ensures r.Some? ==> from <= r.value && PatternAt(rel, prefix, r.value)
    ensures r.Some? ==> forall i :: from <= i < r.value ==> !PatternAt(rel, prefix, i)
    decreases |rel| - from
  {
    if from + |prefix| >= |rel| then None
    else if PatternAt(rel, prefix, from) then Some(from)
    else MatchStart(rel, prefix, from + 1)
  }

  /** The greedy `(\w+)` capture of a match starting at `i`. */
  function CaptureAt(rel: string, prefix: string, i: nat): (r: string)
    requires PatternAt(rel, prefix, i)
    ensures |r| > 0 && forall k :: 0 <= k < |r| ==> IsWordChar(r[k])
    ensures IsPrefix(r, rel[i + |prefix|..])
    ensures |r| == |rel| - i - |prefix| || !IsWordChar(rel[i + |prefix| + |r|])
  {
    var tail := rel[i + |prefix|..];
    tail[..WordRun(tail)]
  }

  /** `rel.match(/<prefix>(\w+)\/?/)?.[1]`. The optional trailing `/` never
      changes the capture. */
  function MatchCapture(rel: string, prefix: string): Option<string> {
    match MatchStart(rel, prefix, 0)
    case None => None
    case Some(i) => Some(CaptureAt(rel, prefix, i))
  }

  /** The service patterns, in the order they are tried. */
  const ServicePrefixes: seq<string> := ["services/", "apps/", "packages/", "src/"]

  /** The manifests whose presence makes the directory name a service name. */
  const ServiceManifests: seq<string> := ["package.json", "go.mod", "pyproject.toml"]

  /** Index of the first pattern that matches `rel`. */
  function FirstPattern(rel: string, prefixes: seq<string>): (r: Option<nat>)
    ensures r.None? ==> forall j :: 0 <= j < |prefixes| ==> MatchStart(rel, prefixes[j], 0).None?
    ensures r.Some? ==> r.value < |prefixes| && MatchStart(rel, prefixes[r.value], 0).Some?
    ensures r.Some? ==> forall j :: 0 <= j < r.value ==> MatchStart(rel, prefixes[j], 0).None?
    decreases |prefixes|
  {
    if prefixes == [] then None
    else if MatchStart(rel, prefixes[0], 0).Some? then Some(0)
    else match FirstPattern(rel, prefixes[1..])
      case None => None
      case Some(j) => Some(j + 1)
  }

  /** `detectServiceName(dir, root)`. */
  function DetectServiceName(fs: Fs, dir: Path, root: Option<Path>): (r: Option<string>)
    ensures root.None? ==> r.None?
    ensures root.Some? ==> var rel := Relative(root.value, dir);
      match FirstPattern(rel, ServicePrefixes)
      case Some(j) => r == MatchCapture(rel, ServicePrefixes[j]) && r.Some?
      case None => (r.Some? <==> !NoneAt(fs, dir, ServiceManifests)) && (r.Some? ==> r.value == Basename(dir))
    ensures r.Some? ==> r.value == Basename(dir) || (|r.value| > 0 && forall k :: 0 <= k < |r.value| ==> IsWordChar(r.value[k]))
  {
    if root.None? then None
    else
      var rel := Relative(root.value, dir);
      match FirstPattern(rel, ServicePrefixes)
      case Some(j) => MatchCapture(rel, ServicePrefixes[j])
      case None => if !NoneAt(fs, dir, ServiceManifests) then Some(Basename(dir)) else None
  }

  lemma {:induction false} WordRunOf(w: string, t: string)
    requires forall i :: 0 <= i < |w| ==> IsWordChar(w[i])
    requires t == [] || !IsWordChar(t[0])
    ensures WordRun(w + t) == |w|
    decreases |w|
  {
    if w != [] {
      assert (w + t)[1..] == w[1..] + t;
      WordRunOf(w[1..], t);
    } else {
      assert w + t == t;
    }
  }

  /** The documented example: under `services/api/screener` the service is `api`. */
  lemma ServiceNameExample(rel: string)
    requires rel == "services/" + "api" + "/screener"
    ensures MatchCapture(rel, "services/") == Some("api")
  {
    assert rel[0..9] == "services/";
    assert PatternAt(rel, "services/", 0);
    assert rel[9..] == "api" + "/screener";
    WordRunOf("api", "/screener");
  }

  /** The directory names `walkDir` never descends into or reports. */
  predicate Skipped(name: string) {
    name == "node_modules" || name == ".git"
  }

  /** The readable directories at or below `dir`: what bounds the walk. */
  function Below(fs: Fs, dir: Path): set<Path> {
    set d | d in fs.listing.Keys && IsPrefix(dir, d)
  }

  lemma BelowShrinks(fs: Fs, dir: Path, name: string)
    requires dir in fs.listing
    ensures Below(fs, dir + [name]) < Below(fs, dir)
  {
    forall d | d in Below(fs, dir + [name]) ensures d in Below(fs, dir) {
      assert d[..|dir|] == (dir + [name])[..|dir|];
    }
    assert dir in Below(fs, dir) && dir !in Below(fs, dir + [name]);
  }

  /** A file path `walkDir` may report when started at `root`: below `root`,
      listed as a regular file, and reached without crossing a skipped name. */
  predicate WalkFile(fs: Fs, root: Path, p: Path) {
    && |p| > |root| && IsPrefix(root, p)
    && p[..|p| - 1] in fs.listing
    && DirEntryInfo(p[|p| - 1], FileEntry) in fs.listing[p[..|p| - 1]]
    && (forall i :: |root| <= i < |p| ==> !Skipped(p[i]))
  }

  /** `walk(current)` appending to `acc`. */
  function Walk(fs: Fs, root: Path, dir: Path, max: nat, acc: seq<Path>): (r: seq<Path>)
    requires IsPrefix(root, dir) && forall i :: |root| <= i < |dir| ==> !Skipped(dir[i])
    ensures IsPrefix(acc, r)
    ensures |acc| <= max ==> |r| <= max
    ensures forall i :: |acc| <= i < |r| ==> WalkFile(fs, root, r[i])
    decreases Below(fs, dir), 1
  {
    if |acc| >= max || dir !in fs.listing then acc
    else WalkEntries(fs, root, dir, fs.listing[dir], 0, max, acc)
  }

  /** The `for` loop over the entries of `dir`, from position `k`. */
  function WalkEntries(fs: Fs, root: Path, dir: Path, entries: seq<DirEntryInfo>, k: nat, max: nat, acc: seq<Path>): (r: seq<Path>)
    requires dir in fs.listing && entries == fs.listing[dir] && k <= |entries|
    requires IsPrefix(root, dir) && forall i :: |root| <= i < |dir| ==> !Skipped(dir[i])
    ensures IsPrefix(acc, r)
    ensures |acc| <= max ==> |r| <= max
    ensures forall i :: |acc| <= i < |r| ==> WalkFile(fs, root, r[i])
    decreases Below(fs, dir), 0, |entries| - k
  {
    if k == |entries| || |acc| >= max then acc
    else
      var e := entries[k];
      var child := dir + [e.name];
      assert child[..|root|] == root;
      assert child[..|child| - 1] == dir;
      var acc' :=
        if Skipped(e.name) then acc
        else if e.kind == DirEntry then
          BelowShrinks(fs, dir, e.name);
          Walk(fs, root, child, max, acc)
        else if e.kind == FileEntry then
          assert e == DirEntryInfo(e.name, FileEntry);
          acc + [child]
        else acc;
      var r := WalkEntries(fs, root, dir, entries, k + 1, max, acc');
      assert r[..|acc|] == r[..|acc'|][..|acc|];
      r
  }

  /** The default file cap of `walkDir`. */
  const DefaultMaxFiles: nat := 100

  /** `walkDir(dir, maxFiles)`. */
  function WalkDir(fs: Fs, dir: Path, max: nat): (r: seq<Path>)
    ensures |r| <= max
    ensures forall i :: 0 <= i < |r| ==> WalkFile(fs, dir, r[i])
  {
    Walk(fs, dir, dir, max, [])
  }

  /** `path.extname` of a file name. */
  function Extname(name: string): (r: string)
    ensures r == [] || (r[0] == '.' && EndsWith(name, r) && '.' !in r[1..])
  {
    match LastIndex(name, '.')
    case None => ""
    case Some(i) => if i == 0 || name == ".." then "" else name[i..]
  }

  /** The `langMap` of `detectLanguages`. */
  function LangOf(ext: string): (r: Option<string>)
    ensures r.Some? ==> r.value in LanguageNames
  {
    match ext
    case ".ts" => Some("typescript")
    case ".tsx" => Some("typescript")
    case ".js" => Some("javascript")
    case ".jsx" => Some("javascript")
    case ".py" => Some("python")
    case ".go" => Some("go")
    case ".rs" => Some("rust")
    case ".java" => Some("java")
    case ".kt" => Some("kotlin")
    case ".swift" => Some("swift")
    case ".rb" => Some("ruby")
    case ".php" => Some("php")
    case ".c" => Some("c")
    case ".cpp" => Some("cpp")
    case ".cs" => Some("csharp")
    case _ => None
  }

  const LanguageNames: set<string> := {"typescript", "javascript", "python", "go", "rust", "java",
    "kotlin", "swift", "ruby", "php", "c", "cpp", "csharp"}

  /** The language of one file, from its lower-cased extension. */
  function FileLanguage(p: Path): (r: Option<string>)
    ensures r.Some? ==> r.value in LanguageNames
  {
    LangOf(Lower(Extname(Basename(p))))
  }

  /** `detectLanguages(dir)`: the distinct languages of the first 100 files the
      walk reports, in first-seen order. */
  function DetectLanguages(fs: Fs, dir: Path): (r: seq<string>)
    ensures NoDups(r)
    ensures var files := WalkDir(fs, dir, DefaultMaxFiles);
      && (forall l :: l in r ==> l in LanguageNames && Produced(files, FileLanguage, l))
      && (forall i :: 0 <= i < |files| && FileLanguage(files[i]).Some? ==> FileLanguage(files[i]).value in r)
  {
    var files := WalkDir(fs, dir, DefaultMaxFiles);
    LanguagesOf(files);
    Dedup(FilterMap(files, FileLanguage))
  }

  /** Every distinct language is a known one that some file has. */
  lemma LanguagesOf(files: seq<Path>)
    ensures forall l :: l in Dedup(FilterMap(files, FileLanguage)) ==> l in LanguageNames && Produced(files, FileLanguage, l)
  {
    var ls := FilterMap(files, FileLanguage);
    forall l | l in Dedup(ls) ensures l in LanguageNames && Produced(files, FileLanguage, l) {
      var k :| 0 <= k < |ls| && ls[k] == l;
      var i :| 0 <= i < |files| && FileLanguage(files[i]) == Some(l);
    }
  }

  /** `detect(cwd)`; `cwd` is `None` when the argument was falsy. */
  function Detect(fs: Fs, cwd: Option<Path>, processCwd: Path): (r: WorkspaceInfo)
    ensures r.path == cwd.GetOr(processCwd)
    ensures r.isGitRepo <==> FindGitRoot(fs, r.path).Some?
    ensures r.root == (if r.isGitRepo then FindGitRoot(fs, r.path).value else r.path)
    ensures IsPrefix(r.root, r.path)
    ensures !r.isGitRepo ==> r.service.None?
  {
    var dir := cwd.GetOr(processCwd);
    var git := FindGitRoot(fs, dir);
    assert dir[..|dir|] == dir;
    WorkspaceInfo(git.GetOr(dir), DetectServiceName(fs, dir, git), DetectLanguages(fs, dir), dir, git.Some?)
  }
}
