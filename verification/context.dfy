/** `ContextDetector` of packages/core/src/context-detector.ts: task analysis,
    branch rules, framework, project-type, monorepo and language detection,
    and per-field configuration overrides. */
module ContextDetector {
  import opened Wrappers
  import opened Text
  import opened Seqs
  import opened Js
  import opened FsUtils
  import opened ContextTypes
  import opened Config
  import Workspace

  // ---------------------------------------------------------------------------
  // Task analysis

  /** `KEYWORD_SETS`, in declaration order. */
  const KeywordSets: seq<(string, seq<string>)> := [
    ("test", ["test", "tests", "testing", "spec", "specs", "unit", "e2e", "integration", "coverage"]),
    ("security", ["security", "secure", "auth", "authentication", "jwt", "oauth", "password", "encryption"]),
    ("performance", ["performance", "optimize", "optimization", "latency", "throughput", "speed", "fast"]),
    ("refactor", ["refactor", "cleanup", "restructure", "rewrite", "simplify"]),
    ("documentation", ["doc", "docs", "documentation", "readme", "changelog"]),
    ("bugfix", ["bug", "fix", "error", "issue", "crash", "broken", "failure"]),
    ("feature", ["feature", "add", "create", "implement", "build", "support"])
  ]

  /** The seven category names, in `KEYWORD_SETS` order. */
  const CategoryNames: seq<string> := ["test", "security", "performance", "refactor", "documentation", "bugfix", "feature"]

  /** The words that force high complexity. */
  const ComplexWords: seq<string> := ["system", "architecture", "migration", "refactor"]

  /** Some token is one of `variants` (`tokens.some(t => variants.includes(t))`). */
  predicate Mentions(tokens: seq<string>, variants: seq<string>) {
    exists t :: t in tokens && t in variants
  }

  /** The category names of a keyword table, in order. */
  function Names(sets: seq<(string, seq<string>)>): (r: seq<string>)
    ensures |r| == |sets| && forall j :: 0 <= j < |sets| ==> r[j] == sets[j].0
  {
    seq(|sets|, j requires 0 <= j < |sets| => sets[j].0)
  }

  /** `keywords` lists exactly the categories of `sets` some token mentions. */
  predicate Categorized(tokens: seq<string>, sets: seq<(string, seq<string>)>, keywords: seq<string>) {
    forall j :: 0 <= j < |sets| ==> (sets[j].0 in keywords <==> Mentions(tokens, sets[j].1))
  }

  /** The categories of `sets[i..]` some token mentions, in table order. */
  function MatchedCategories(tokens: seq<string>, sets: seq<(string, seq<string>)>, i: nat): (r: seq<string>)
    requires i <= |sets|
    ensures forall k :: k in r ==> exists j :: i <= j < |sets| && sets[j].0 == k && Mentions(tokens, sets[j].1)
    ensures forall j :: i <= j < |sets| && Mentions(tokens, sets[j].1) ==> sets[j].0 in r
    ensures IsSubseq(r, Names(sets)[i..])
    decreases |sets| - i
  {
    if i == |sets| then []
    else
      var rest := MatchedCategories(tokens, sets, i + 1);
      var names := Names(sets)[i..];
      assert names[1..] == Names(sets)[i + 1..];
      assert names == [sets[i].0] + names[1..];
      if Mentions(tokens, sets[i].1) then
        SubseqCons(sets[i].0, rest, names[1..]);
        [sets[i].0] + rest
      else
        SubseqSkip(sets[i].0, rest, names[1..]);
        rest
  }

  /** With distinct category names, the matched list is exactly categorized
      and duplicate-free. */
  lemma MatchedCategoriesExact(tokens: seq<string>, sets: seq<(string, seq<string>)>)
    requires NoDups(Names(sets))
    ensures Categorized(tokens, sets, MatchedCategories(tokens, sets, 0))
    ensures NoDups(MatchedCategories(tokens, sets, 0))
  {
    var r := MatchedCategories(tokens, sets, 0);
    assert Names(sets)[0..] == Names(sets);
    SubseqNoDups(r, Names(sets));
    forall j | 0 <= j < |sets| && sets[j].0 in r ensures Mentions(tokens, sets[j].1) {
      var j' :| 0 <= j' < |sets| && sets[j'].0 == sets[j].0 && Mentions(tokens, sets[j'].1);
      assert Names(sets)[j] == Names(sets)[j'];
    }
  }

  function ComplexityOf(tokens: seq<string>): (c: Complexity)
    ensures Mentions(tokens, ComplexWords) ==> c == High
    ensures !Mentions(tokens, ComplexWords) ==> (c == Low <==> |tokens| <= 4) && (c == High <==> |tokens| >= 15)
  {
    var base := if |tokens| <= 4 then Low else if |tokens| >= 15 then High else Medium;
    if Mentions(tokens, ComplexWords) then High else base
  }

  /** None of the five typed categories was matched. */
  predicate Untyped(keywords: seq<string>) {
    "bugfix" !in keywords && "test" !in keywords && "refactor" !in keywords
      && "documentation" !in keywords && "feature" !in keywords
  }

  /** The task type from the matched categories, by fixed precedence. */
  function TaskTypeOf(keywords: seq<string>): (t: TaskType)
    ensures t == BugfixTask <==> "bugfix" in keywords
    ensures t == TestTask <==> "test" in keywords && "bugfix" !in keywords
    ensures t == RefactorTask <==> "refactor" in keywords && "test" !in keywords && "bugfix" !in keywords
    ensures t == DocumentationTask <==>
      ("documentation" in keywords && "refactor" !in keywords && "test" !in keywords && "bugfix" !in keywords)
    ensures t == FeatureTask <==>
      ("feature" in keywords && "documentation" !in keywords && "refactor" !in keywords
        && "test" !in keywords && "bugfix" !in keywords)
    ensures t == UnknownTask <==> Untyped(keywords)
  {
    if "bugfix" in keywords then BugfixTask
    else if "test" in keywords then TestTask
    else if "refactor" in keywords then RefactorTask
    else if "documentation" in keywords then DocumentationTask
    else if "feature" in keywords then FeatureTask
    else UnknownTask
  }

  /** The lower-cased whitespace tokens of the task text. */
  function TaskTokens(input: string): seq<string> {
    Words(Lower(input))
  }

  lemma CategoryNamesAreKeys()
    ensures Names(KeywordSets) == CategoryNames
    ensures NoDups(CategoryNames)
  {
  }

  /** `analyzeTask(input)`. */
  function AnalyzeTask(input: string): (r: Task)
    ensures NoDups(r.keywords) && IsSubseq(r.keywords, CategoryNames)
    ensures Categorized(TaskTokens(input), KeywordSets, r.keywords)
    ensures forall k :: k in r.keywords ==> k in CategoryNames
    ensures r.complexity == ComplexityOf(TaskTokens(input))
    ensures r.ttype == TaskTypeOf(r.keywords)
  {
    var tokens := TaskTokens(input);
    var keywords := MatchedCategories(tokens, KeywordSets, 0);
    CategoryNamesAreKeys();
    assert Names(KeywordSets)[0..] == CategoryNames;
    MatchedCategoriesExact(tokens, KeywordSets);
    SubseqElements(keywords, CategoryNames);
    Task(keywords, ComplexityOf(tokens), TaskTypeOf(keywords))
  }

  /** `emptyTask()`: what an absent or empty task text yields. */
  function EmptyTask(): (r: Task)
    ensures r.keywords == [] && r.complexity == Low && r.ttype == UnknownTask
  {
    Task([], Low, UnknownTask)
  }

  /** Security or performance words alone leave the task type unknown. */
  lemma SecurityAloneIsUnknown(input: string)
    requires forall j :: 0 <= j < |KeywordSets| && j != 1 && j != 2 ==> !Mentions(TaskTokens(input), KeywordSets[j].1)
    ensures AnalyzeTask(input).ttype == UnknownTask
  {
    var r := AnalyzeTask(input);
    KeywordSetNames();
    UnmentionedUntyped(TaskTokens(input), KeywordSets, r.keywords);
  }

  lemma KeywordSetNames()
    ensures |KeywordSets| == 7
    ensures KeywordSets[0].0 == "test" && KeywordSets[3].0 == "refactor" && KeywordSets[4].0 == "documentation"
    ensures KeywordSets[5].0 == "bugfix" && KeywordSets[6].0 == "feature"
  {
  }

  /** In a table laid out like `KEYWORD_SETS`, no typed category matched means no type. */
  lemma UnmentionedUntyped(tokens: seq<string>, sets: seq<(string, seq<string>)>, keywords: seq<string>)
    requires Categorized(tokens, sets, keywords) && |sets| == 7
    requires sets[0].0 == "test" && sets[3].0 == "refactor" && sets[4].0 == "documentation"
    requires sets[5].0 == "bugfix" && sets[6].0 == "feature"
    requires forall j :: 0 <= j < |sets| && j != 1 && j != 2 ==> !Mentions(tokens, sets[j].1)
    ensures Untyped(keywords)
  {
    UnmentionedUnmatched(tokens, sets, keywords, 0);
    UnmentionedUnmatched(tokens, sets, keywords, 3);
    UnmentionedUnmatched(tokens, sets, keywords, 4);
    UnmentionedUnmatched(tokens, sets, keywords, 5);
    UnmentionedUnmatched(tokens, sets, keywords, 6);
  }

  /** A category none of whose words is mentioned is not matched. */
  lemma UnmentionedUnmatched(tokens: seq<string>, sets: seq<(string, seq<string>)>, keywords: seq<string>, j: nat)
    requires Categorized(tokens, sets, keywords)
    requires j < |sets| && !Mentions(tokens, sets[j].1)
    ensures sets[j].0 !in keywords
  {
  }

  /** An empty task text is analysed like the empty task. */
  lemma BlankTaskIsEmpty(input: string)
    requires forall i :: 0 <= i < |input| ==> IsSpace(input[i])
    ensures AnalyzeTask(input) == EmptyTask()
  {
    assert forall i :: 0 <= i < |input| ==> Lower(input)[i] == input[i];
    BlankHasNoWords(Lower(input));
    var tokens := TaskTokens(input);
    assert tokens == [];
    assert !Mentions(tokens, ComplexWords);
    NoTokensNoCategories(KeywordSets, 0);
  }

  lemma {:induction false} NoTokensNoCategories(sets: seq<(string, seq<string>)>, i: nat)
    requires i <= |sets|
    ensures MatchedCategories([], sets, i) == []
    decreases |sets| - i
  {
    if i < |sets| {
      NoTokensNoCategories(sets, i + 1);
    }
  }

  lemma {:induction false} BlankHasNoWords(s: string)
    requires forall i :: 0 <= i < |s| ==> IsSpace(s[i])
    ensures Words(s) == []
    decreases |s|
  {
    if s != [] {
      BlankHasNoWords(s[1..]);
    }
  }

  // ---------------------------------------------------------------------------
  // Git context

  /** The prefixes of the branch rules are mutually exclusive. */
  lemma BranchPrefixesExclusive(branch: string)
    ensures StartsWith(branch, "feature/") || StartsWith(branch, "feat/") ==>
      !StartsWith(branch, "bugfix/") && !StartsWith(branch, "fix/") && !StartsWith(branch, "release/")
      && branch != "main" && branch != "master"
    ensures StartsWith(branch, "bugfix/") || StartsWith(branch, "fix/") ==>
      !StartsWith(branch, "release/") && branch != "main" && branch != "master"
    ensures StartsWith(branch, "release/") ==> branch != "main" && branch != "master"
  {
    if StartsWith(branch, "feature/") { StartsWithAt(branch, "feature/", 0); StartsWithAt(branch, "feature/", 1); }
    if StartsWith(branch, "feat/") { StartsWithAt(branch, "feat/", 0); StartsWithAt(branch, "feat/", 1); }
    if StartsWith(branch, "bugfix/") { StartsWithAt(branch, "bugfix/", 0); }
    if StartsWith(branch, "fix/") { StartsWithAt(branch, "fix/", 0); StartsWithAt(branch, "fix/", 1); }
    if StartsWith(branch, "release/") { StartsWithAt(branch, "release/", 0); }
  }

  /** `detectBranchType(branch)`. */
  function DetectBranchType(branch: string): (r: BranchType)
    ensures r == MainBranch <==> branch == "main" || branch == "master"
    ensures r == FeatureBranch <==> StartsWith(branch, "feature/") || StartsWith(branch, "feat/")
    ensures r == BugfixBranch <==> StartsWith(branch, "bugfix/") || StartsWith(branch, "fix/")
    ensures r == ReleaseBranch <==> StartsWith(branch, "release/")
    ensures branch == "" ==> r == UnknownBranch
  {
    BranchPrefixesExclusive(branch);
    if branch == "" then UnknownBranch
    else if branch == "main" || branch == "master" then MainBranch
    else if StartsWith(branch, "feature/") || StartsWith(branch, "feat/") then FeatureBranch
    else if StartsWith(branch, "bugfix/") || StartsWith(branch, "fix/") then BugfixBranch
    else if StartsWith(branch, "release/") then ReleaseBranch
    else UnknownBranch
  }

  /** `detectGitContext()`: `branchOutput` is the output of
      `git branch --show-current`, `None` when the command failed. A failed
      or blank branch reads as `unknown` of unknown type; any other trimmed
      name is kept; any one of the three CI variables marks a pull request. */
  function DetectGitContext(branchOutput: Option<string>, env: Env): (r: Git)
    ensures branchOutput.None? ==> r.branch == "unknown" && r.branchType == UnknownBranch
    ensures branchOutput.Some? && Trim(branchOutput.value) == "" ==> r.branch == "unknown" && r.branchType == UnknownBranch
    ensures branchOutput.Some? && Trim(branchOutput.value) != "" ==>
      r.branch == Trim(branchOutput.value) && r.branchType == DetectBranchType(r.branch)
    ensures EnvSet(env, "GITHUB_HEAD_REF") ==> r.isPr
    ensures EnvSet(env, "CI_PULL_REQUEST") ==> r.isPr
    ensures "GITHUB_EVENT_NAME" in env && env["GITHUB_EVENT_NAME"] == "pull_request" ==> r.isPr
    ensures "GITHUB_EVENT_NAME" in env && env["GITHUB_EVENT_NAME"] == "pull_request_target" ==> r.isPr
    ensures r.isPr ==> (EnvSet(env, "GITHUB_HEAD_REF") || EnvSet(env, "CI_PULL_REQUEST")
      || ("GITHUB_EVENT_NAME" in env && env["GITHUB_EVENT_NAME"] in {"pull_request", "pull_request_target"}))
  {
    var b := if branchOutput.Some? then Trim(branchOutput.value) else "";
    var isPr := EnvSet(env, "GITHUB_HEAD_REF") || EnvSet(env, "CI_PULL_REQUEST")
      || ("GITHUB_EVENT_NAME" in env && (env["GITHUB_EVENT_NAME"] == "pull_request" || env["GITHUB_EVENT_NAME"] == "pull_request_target"));
    Git(if b == "" then "unknown" else b, DetectBranchType(b), isPr)
  }

  // ---------------------------------------------------------------------------
  // package.json

  /** The dependency sections `collectDependencies` reads. */
  const DependencySections: seq<string> := ["dependencies", "devDependencies", "peerDependencies", "optionalDependencies"]

  /** `Object.keys(entries)` of a truthy object-typed section; an array
      contributes its indices. */
  function SectionKeys(entries: Option<Value>): (r: set<string>)
    ensures entries.Some? && entries.value.JObj? ==> r == entries.value.fields.Keys
    ensures entries.None? || !(entries.value.JObj? || entries.value.JArr?) ==> r == {}
  {
    match entries
    case Some(JObj(m)) => m.Keys
    case Some(JArr(items)) => set i | 0 <= i < |items| :: NatToString(i)
    case _ => {}
  }

  /** The section value lists `d` as a dependency: a key of an object, or
      an index of an array. */
  predicate SectionHas(entries: Option<Value>, d: string) {
    match entries
    case Some(JObj(m)) => d in m
    case Some(JArr(items)) => exists i :: 0 <= i < |items| && d == NatToString(i)
    case _ => false
  }

  /** `collectDependencies(pkg)`: a name is collected iff one of the four
      dependency sections lists it. */
  function CollectDependencies(pkg: Value): (r: set<string>)
    ensures forall d :: d in r <==> exists s :: s in DependencySections && SectionHas(Get(pkg, s), d)
  {
    var r := SectionKeys(Get(pkg, "dependencies")) + SectionKeys(Get(pkg, "devDependencies"))
      + SectionKeys(Get(pkg, "peerDependencies")) + SectionKeys(Get(pkg, "optionalDependencies"));
    assert forall s :: s in DependencySections ==> forall d :: d in SectionKeys(Get(pkg, s)) <==> SectionHas(Get(pkg, s), d);
    r
  }

  /** `FRAMEWORK_DEPENDENCIES`, in declaration order. */
  const FrameworkDependencies: seq<(string, seq<string>)> := [
    ("nestjs", ["@nestjs/core", "@nestjs/common", "@nestjs/platform-express"]),
    ("express", ["express"]),
    ("fastify", ["fastify"]),
    ("koa", ["koa"]),
    ("react", ["react"]),
    ("nextjs", ["next"]),
    ("vue", ["vue"]),
    ("nuxt", ["nuxt"]),
    ("angular", ["@angular/core"]),
    ("svelte", ["svelte"]),
    ("react-native", ["react-native"])
  ]

  /** The entry of `table` has an identifier among the dependencies. */
  predicate Uses(deps: set<string>, ids: seq<string>) {
    exists id :: id in ids && id in deps
  }

  /** Entry `j` is the first entry of `table` with an identifier in `deps`. */
  predicate FirstUse(deps: set<string>, table: seq<(string, seq<string>)>, j: nat)
    requires j < |table|
  {
    Uses(deps, table[j].1) && forall j' :: 0 <= j' < j ==> !Uses(deps, table[j'].1)
  }

  /** Index of the first table entry from `i` on with an identifier in `deps`. */
  function FirstFrameworkFrom(deps: set<string>, table: seq<(string, seq<string>)>, i: nat): (r: Option<nat>)
    requires i <= |table|
    ensures r.Some? ==> i <= r.value < |table| && Uses(deps, table[r.value].1)
    ensures r.Some? ==> forall j :: i <= j < r.value ==> !Uses(deps, table[j].1)
    ensures r.None? ==> forall j :: i <= j < |table| ==> !Uses(deps, table[j].1)
    decreases |table| - i
  {
    if i == |table| then None
    else if Uses(deps, table[i].1) then Some(i)
    else FirstFrameworkFrom(deps, table, i + 1)
  }

  /** The dependency part of `detectFramework`. */
  function FrameworkFromDependencies(deps: set<string>): (r: Option<string>)
    ensures r.Some? <==> exists j :: 0 <= j < |FrameworkDependencies| && Uses(deps, FrameworkDependencies[j].1)
    ensures r.Some? ==> exists j :: (0 <= j < |FrameworkDependencies| && FirstUse(deps, FrameworkDependencies, j)
      && r.value == FrameworkDependencies[j].0)
  {
    match FirstFrameworkFrom(deps, FrameworkDependencies, 0)
    case None => None
    case Some(j) => Some(FrameworkDependencies[j].0)
  }

  /** The first table entry wins: with both `react` and `next` present (and no
      backend framework), the framework is react. */
  lemma ReactBeforeNext(deps: set<string>)
    requires "react" in deps && "next" in deps
    requires forall j :: 0 <= j < 4 ==> forall id :: id in FrameworkDependencies[j].1 ==> id !in deps
    ensures FrameworkFromDependencies(deps) == Some("react")
  {
    assert Uses(deps, FrameworkDependencies[4].1);
    assert forall j :: 0 <= j < 4 ==> !Uses(deps, FrameworkDependencies[j].1);
  }

  // ---------------------------------------------------------------------------
  // Package context and framework detection

  datatype PackageContext = PackageContext(
    root: Path,
    scanRoot: Path,
    packageJson: Option<Value>,
    packageJsonPath: Option<Path>,
    hasTsConfig: bool,
    hasPyProject: bool,
    hasRequirements: bool,
    hasGoMod: bool,
    hasCargoToml: bool,
    hasGemfile: bool,
    hasPom: bool,
    hasGradle: bool)

  /** `readJson(path)`: the file text through the `JSON.parse` oracle `parse`;
      `None` when the file cannot be read or does not parse. */
  function ReadJson(fs: Fs, p: Path, parse: string -> Option<Value>): Option<Value> {
    if p in fs.text then parse(fs.text[p]) else None
  }

  /** The named file exists in the scan root or the workspace root. */
  predicate AtRoots(fs: Fs, scanRoot: Path, root: Path, name: string) {
    Exists(fs, scanRoot + [name]) || Exists(fs, root + [name])
  }

  /** `loadPackageContext(workingDir, root, serviceRoot)`. */
  function LoadPackageContext(fs: Fs, root: Path, serviceRoot: Option<Path>, parse: string -> Option<Value>): (r: PackageContext)
    ensures r.scanRoot == serviceRoot.GetOr(root) && r.root == root
    ensures r.packageJsonPath == FindUp(fs, r.scanRoot, ["package.json"], Some(root))
    ensures r.packageJsonPath.None? ==> r.packageJson.None?
    ensures r.packageJsonPath.Some? ==> r.packageJson == ReadJson(fs, r.packageJsonPath.value, parse)
    ensures r.hasTsConfig <==> AtRoots(fs, r.scanRoot, root, "tsconfig.json")
    ensures r.hasPyProject <==> AtRoots(fs, r.scanRoot, root, "pyproject.toml")
    ensures r.hasRequirements <==> AtRoots(fs, r.scanRoot, root, "requirements.txt")
    ensures r.hasGoMod <==> AtRoots(fs, r.scanRoot, root, "go.mod")
    ensures r.hasCargoToml <==> AtRoots(fs, r.scanRoot, root, "Cargo.toml")
    ensures r.hasGemfile <==> AtRoots(fs, r.scanRoot, root, "Gemfile")
    ensures r.hasPom <==> AtRoots(fs, r.scanRoot, root, "pom.xml")
    ensures r.hasGradle <==> AtRoots(fs, r.scanRoot, root, "build.gradle")
  {
    var scanRoot := serviceRoot.GetOr(root);
    var pj := FindUp(fs, scanRoot, ["package.json"], Some(root));
    PackageContext(root, scanRoot,
      if pj.Some? then ReadJson(fs, pj.value, parse) else None,
      pj,
      AtRoots(fs, scanRoot, root, "tsconfig.json"),
      AtRoots(fs, scanRoot, root, "pyproject.toml"),
      AtRoots(fs, scanRoot, root, "requirements.txt"),
      AtRoots(fs, scanRoot, root, "go.mod"),
      AtRoots(fs, scanRoot, root, "Cargo.toml"),
      AtRoots(fs, scanRoot, root, "Gemfile"),
      AtRoots(fs, scanRoot, root, "pom.xml"),
      AtRoots(fs, scanRoot, root, "build.gradle"))
  }

  /** `readFileAtRoots(ctx, name)`: the scan root's copy, else the root's. */
  function ReadFileAtRoots(fs: Fs, pc: PackageContext, name: string): (r: Option<string>)
    ensures pc.scanRoot + [name] in fs.text ==> r == Some(fs.text[pc.scanRoot + [name]])
    ensures r.None? <==> pc.scanRoot + [name] !in fs.text && pc.root + [name] !in fs.text
  {
    if pc.scanRoot + [name] in fs.text then Some(fs.text[pc.scanRoot + [name]])
    else if pc.root + [name] in fs.text then Some(fs.text[pc.root + [name]])
    else None
  }

  const PythonCandidates: seq<string> := ["django", "flask", "fastapi"]

  /** The first candidate named in the lower-cased text. */
  function FirstNamed(content: string, candidates: seq<string>): (r: Option<string>)
    ensures r.Some? ==> r.value in candidates && Contains(Lower(content), r.value)
    ensures r.None? ==> forall c :: c in candidates ==> !Contains(Lower(content), c)
    decreases |candidates|
  {
    if candidates == [] then None
    else if Contains(Lower(content), candidates[0]) then Some(candidates[0])
    else FirstNamed(content, candidates[1..])
  }

  /** The candidate a non-empty `file` at the roots names first. */
  function FileHit(fs: Fs, pc: PackageContext, file: string): (r: Option<string>)
    ensures r.Some? ==> r.value in PythonCandidates
  {
    var content := ReadFileAtRoots(fs, pc, file);
    if content.Some? && content.value != "" then FirstNamed(content.value, PythonCandidates) else None
  }

  /** The first of `files` whose text names a candidate: the hit of the
      earliest file that has one, none when no file has one. */
  function PythonFromFiles(fs: Fs, pc: PackageContext, files: seq<string>): (r: Option<string>)
    ensures r.Some? ==> r.value in PythonCandidates
    ensures r.None? <==> forall k :: 0 <= k < |files| ==> FileHit(fs, pc, files[k]).None?
    ensures r.Some? ==> exists k :: (
      && 0 <= k < |files| && r == FileHit(fs, pc, files[k])
      && forall m :: 0 <= m < k ==> FileHit(fs, pc, files[m]).None?)
    decreases |files|
  {
    if files == [] then None
    else
      var hit := FileHit(fs, pc, files[0]);
      if hit.Some? then hit else PythonFromFiles(fs, pc, files[1..])
  }

  /** The files searched, in order: `pyproject.toml` and
      `requirements.txt` when present, then `Pipfile`. */
  function PythonFiles(pc: PackageContext): (r: seq<string>)
    ensures |r| >= 1 && r[|r| - 1] == "Pipfile"
    ensures "pyproject.toml" in r <==> pc.hasPyProject
    ensures "requirements.txt" in r <==> pc.hasRequirements
  {
    (if pc.hasPyProject then ["pyproject.toml"] else [])
      + (if pc.hasRequirements then ["requirements.txt"] else []) + ["Pipfile"]
  }

  /** `detectPythonFramework(ctx)`: the first candidate named by the
      dependency files in order, else `django` when a `manage.py` sits at
      either root, else none. */
  function DetectPythonFramework(fs: Fs, pc: PackageContext): (r: Option<string>)
    ensures r.Some? ==> r.value in PythonCandidates
    ensures PythonFromFiles(fs, pc, PythonFiles(pc)).Some? ==> r == PythonFromFiles(fs, pc, PythonFiles(pc))
    ensures PythonFromFiles(fs, pc, PythonFiles(pc)).None? ==>
      (r.Some? <==> AtRoots(fs, pc.scanRoot, pc.root, "manage.py")) && (r.Some? ==> r.value == "django")
  {
    var fromFiles := PythonFromFiles(fs, pc, PythonFiles(pc));
    if fromFiles.Some? then fromFiles
    else if AtRoots(fs, pc.scanRoot, pc.root, "manage.py") then Some("django")
    else None
  }

  /** The framework the dependencies of a truthy `package.json` name. */
  function DependencyFramework(pc: PackageContext): Option<string> {
    if TruthyOpt(pc.packageJson) then FrameworkFromDependencies(CollectDependencies(pc.packageJson.value)) else None
  }

  /** The Python framework when a Python manifest is present. */
  function PythonFramework(fs: Fs, pc: PackageContext): Option<string> {
    if pc.hasPyProject || pc.hasRequirements then DetectPythonFramework(fs, pc) else None
  }

  /** A present, non-empty `Gemfile` at the roots mentions `rails`. */
  predicate RailsGemfile(fs: Fs, pc: PackageContext) {
    var gem := if pc.hasGemfile then ReadFileAtRoots(fs, pc, "Gemfile") else None;
    gem.Some? && gem.value != "" && Contains(Lower(gem.value), "rails")
  }

  /** `detectFramework(ctx)`: the first of, in order, the framework the
      `package.json` dependencies name, the Python framework, `rails` for a
      Gemfile naming it, and `spring` for a Maven or Gradle build. */
  function DetectFramework(fs: Fs, pc: PackageContext): (r: Option<string>)
    ensures DependencyFramework(pc).Some? ==> r == DependencyFramework(pc)
    ensures r.None? ==> !pc.hasPom && !pc.hasGradle
    ensures DependencyFramework(pc).None? && (pc.hasPom || pc.hasGradle) ==> r.Some?
    ensures DependencyFramework(pc).None? && PythonFramework(fs, pc).Some? ==> r == PythonFramework(fs, pc)
    ensures DependencyFramework(pc).None? && PythonFramework(fs, pc).None? ==>
      && (RailsGemfile(fs, pc) ==> r == Some("rails"))
      && (!RailsGemfile(fs, pc) ==> r == if pc.hasPom || pc.hasGradle then Some("spring") else None)
  {
    var fromDeps := DependencyFramework(pc);
    if fromDeps.Some? then fromDeps
    else
      var py := PythonFramework(fs, pc);
      if py.Some? then py
      else if RailsGemfile(fs, pc) then Some("rails")
      else if pc.hasPom || pc.hasGradle then Some("spring")
      else None
  }

  // ---------------------------------------------------------------------------
  // Project type, monorepo, languages

  const FrontendFrameworks: set<string> := {"react", "nextjs", "vue", "nuxt", "angular", "svelte"}
  const BackendFrameworks: set<string> := {"nestjs", "express", "fastify", "koa", "django", "flask", "rails", "spring"}
  const MobileFrameworks: set<string> := {"react-native", "flutter"}

  /** `pkg.private === false && (pkg.main || pkg.module || pkg.types)`. */
  predicate PublishedLibrary(pkg: Value) {
    Get(pkg, "private") == Some(JBool(false))
      && (TruthyOpt(Get(pkg, "main")) || TruthyOpt(Get(pkg, "module")) || TruthyOpt(Get(pkg, "types")))
  }

  /** `detectProjectType(framework, ctx)`. */
  function DetectProjectType(framework: Option<string>, packageJson: Option<Value>): (r: ProjectType)
    ensures Set(framework) && framework.value in FrontendFrameworks ==> r == Frontend
    ensures Set(framework) && framework.value in MobileFrameworks ==> r == Mobile
    ensures Set(framework) && framework.value in BackendFrameworks ==> r == Backend
    ensures r == Library <==> (!(Set(framework) && framework.value in FrontendFrameworks + MobileFrameworks + BackendFrameworks)
      && TruthyOpt(packageJson) && PublishedLibrary(packageJson.value))
    ensures r != Frontend && r != Mobile && r != Library ==> r == Backend
  {
    if Set(framework) && framework.value in FrontendFrameworks then Frontend
    else if Set(framework) && framework.value in MobileFrameworks then Mobile
    else if Set(framework) && framework.value in BackendFrameworks then Backend
    else if TruthyOpt(packageJson) && PublishedLibrary(packageJson.value) then Library
    else Backend
  }

  /** The root `package.json` exists, parses to a truthy value and declares
      truthy `workspaces`. */
  predicate DeclaresWorkspaces(fs: Fs, root: Path, parse: string -> Option<Value>) {
    var pkg := ReadJson(fs, root + ["package.json"], parse);
    Exists(fs, root + ["package.json"]) && TruthyOpt(pkg) && TruthyOpt(Get(pkg.value, "workspaces"))
  }

  /** `detectMonorepo(root)`: the kind and whether it is a monorepo. The
      markers are tried in the order nx, turbo, lerna; a pnpm workspace file
      or declared `workspaces` both count as yarn workspaces. */
  function DetectMonorepo(fs: Fs, root: Path, parse: string -> Option<Value>): (r: (bool, MonorepoType))
    ensures r.0 <==> r.1 != NoMonorepo
    ensures Exists(fs, root + ["nx.json"]) ==> r.1 == Nx
    ensures r.1 == Nx <==> Exists(fs, root + ["nx.json"])
    ensures r.1 == Turborepo <==> !Exists(fs, root + ["nx.json"]) && Exists(fs, root + ["turbo.json"])
    ensures r.1 == Lerna <==> (!Exists(fs, root + ["nx.json"]) && !Exists(fs, root + ["turbo.json"])
      && Exists(fs, root + ["lerna.json"]))
    ensures r.1 == YarnWorkspaces <==> (!Exists(fs, root + ["nx.json"]) && !Exists(fs, root + ["turbo.json"])
      && !Exists(fs, root + ["lerna.json"])
      && (Exists(fs, root + ["pnpm-workspace.yaml"]) || DeclaresWorkspaces(fs, root, parse)))
    ensures r.1 == NoMonorepo <==> (!Exists(fs, root + ["nx.json"]) && !Exists(fs, root + ["turbo.json"])
      && !Exists(fs, root + ["lerna.json"]) && !Exists(fs, root + ["pnpm-workspace.yaml"])
      && !DeclaresWorkspaces(fs, root, parse))
  {
    if Exists(fs, root + ["nx.json"]) then (true, Nx)
    else if Exists(fs, root + ["turbo.json"]) then (true, Turborepo)
    else if Exists(fs, root + ["lerna.json"]) then (true, Lerna)
    else if Exists(fs, root + ["pnpm-workspace.yaml"]) then (true, YarnWorkspaces)
    else if DeclaresWorkspaces(fs, root, parse) then (true, YarnWorkspaces)
    else (false, NoMonorepo)
  }

  /** `for ([cond, x] of adds) if (cond) set.add(x)`. */
  function AddWhen(s: seq<string>, adds: seq<(bool, string)>): (r: seq<string>)
    ensures NoDups(s) ==> NoDups(r)
    ensures IsPrefix(s, r)
    ensures forall y :: y in r <==> y in s || exists i :: 0 <= i < |adds| && adds[i] == (true, y)
    decreases |adds|
  {
    if adds == [] then s
    else
      var s1 := if adds[0].0 then Add(s, adds[0].1) else s;
      var r := AddWhen(s1, adds[1..]);
      assert r[..|s|] == r[..|s1|][..|s|];
      assert forall y :: ((exists i :: 0 <= i < |adds[1..]| && adds[1..][i] == (true, y))
        ==> exists i :: 0 <= i < |adds| && adds[i] == (true, y)) by {
        forall y | exists i :: 0 <= i < |adds[1..]| && adds[1..][i] == (true, y)
          ensures exists i :: 0 <= i < |adds| && adds[i] == (true, y) {
          var i :| 0 <= i < |adds[1..]| && adds[1..][i] == (true, y);
          assert adds[i + 1] == (true, y);
        }
      }
      r
  }

  /** The additions of `detectLanguagesFromWorkspace` after the workspace
      languages, in order. */
  function ManifestAdds(pc: PackageContext): seq<(bool, string)> {
    var deps := if TruthyOpt(pc.packageJson) then CollectDependencies(pc.packageJson.value) else {};
    [("typescript" in deps, "typescript"),
     ("javascript" in deps, "javascript"),
     (pc.hasTsConfig, "typescript"),
     (pc.hasPyProject || pc.hasRequirements, "python"),
     (pc.hasGoMod, "go"),
     (pc.hasCargoToml, "rust")]
  }

  /** `detectLanguagesFromWorkspace(languages, ctx)`. */
  function LanguagesFromWorkspace(languages: seq<string>, pc: PackageContext): (r: seq<string>)
    ensures NoDups(r)
    ensures IsPrefix(Dedup(Lowered(languages)), r)
    ensures forall l :: l in r <==> (l in Lowered(languages)
      || exists i :: 0 <= i < |ManifestAdds(pc)| && ManifestAdds(pc)[i] == (true, l))
  {
    AddWhen(Dedup(Lowered(languages)), ManifestAdds(pc))
  }

  /** A `tsconfig.json`, a Python manifest, `go.mod` or `Cargo.toml` each add
      their language. */
  lemma ManifestsAddLanguages(languages: seq<string>, pc: PackageContext)
    ensures var r := LanguagesFromWorkspace(languages, pc);
      && (pc.hasTsConfig ==> "typescript" in r)
      && (pc.hasPyProject || pc.hasRequirements ==> "python" in r)
      && (pc.hasGoMod ==> "go" in r)
      && (pc.hasCargoToml ==> "rust" in r)
  {
    var adds := ManifestAdds(pc);
    assert adds[2].1 == "typescript" && adds[3].1 == "python" && adds[4].1 == "go" && adds[5].1 == "rust";
  }

  /** `languages.map(l => l.toLowerCase())`. */
  function Lowered(ls: seq<string>): (r: seq<string>)
    ensures |r| == |ls| && forall i :: 0 <= i < |ls| ==> r[i] == Lower(ls[i])
  {
    seq(|ls|, i requires 0 <= i < |ls| => Lower(ls[i]))
  }

  // ---------------------------------------------------------------------------
  // Service root

  /** The manifests that mark a service root, in the order they are tried. */
  const ServiceRootMarkers: seq<string> := ["package.json", "pyproject.toml", "go.mod", "Cargo.toml", "Gemfile"]

  /** `findServiceRoot(cwd, root)`: the walk of `findUp` over the service
      markers, answering with the directory instead of the file. */
  function FindServiceRoot(fs: Fs, cwd: Path, root: Path): (r: Option<Path>)
    ensures r.Some? ==> IsPrefix(r.value, cwd) && !NoneAt(fs, r.value, ServiceRootMarkers)
    ensures r.Some? ==> forall k :: |r.value| < k <= |cwd| ==> NoneAt(fs, cwd[..k], ServiceRootMarkers)
    ensures r.Some? && IsPrefix(root, cwd) ==> IsPrefix(root, r.value)
    ensures r.None? ==> forall k :: StopLevel(cwd, Some(root)) <= k <= |cwd| ==> NoneAt(fs, cwd[..k], ServiceRootMarkers)
  {
    match FindUp(fs, cwd, ServiceRootMarkers, Some(root))
    case None => None
    case Some(p) =>
      var k, j :| StopLevel(cwd, Some(root)) <= k <= |cwd| && 0 <= j < |ServiceRootMarkers|
        && p == cwd[..k] + [ServiceRootMarkers[j]] && HitAt(fs, cwd, ServiceRootMarkers, k, j);
      assert Parent(p) == cwd[..k];
      assert IsPrefix(root, cwd) ==> cwd[..k][..|root|] == cwd[..|root|];
      Some(cwd[..k])
  }

  // ---------------------------------------------------------------------------
  // Overrides and the whole detection

  /** The language list an override installs. */
  function OverrideLanguages(o: LanguageOverride): seq<string> {
    match o
    case OneLanguage(l) => [Lower(l)]
    case ManyLanguages(ls) => Lowered(ls)
  }

  /** The language override is truthy: a non-empty string or any array. */
  predicate LanguageOverrideSet(o: Option<LanguageOverride>) {
    o.Some? && (o.value.ManyLanguages? || o.value.lang != "")
  }

  /** `applyOverrides(context, config)`. */
  function ApplyOverrides(ctx: DetectedContext, config: Option<AutoConfig>): (r: DetectedContext)
    ensures config.None? || config.value.project.None? ==> r == ctx
    ensures r.git == ctx.git && r.task == ctx.task && r.workspace == ctx.workspace && r.service.root == ctx.service.root
    ensures config.Some? && config.value.project.Some? ==> var o := config.value.project.value;
      && r.project.ptype == o.ptype.GetOr(ctx.project.ptype)
      && r.project.framework == (if Set(o.framework) then o.framework else ctx.project.framework)
      && r.project.language == (if LanguageOverrideSet(o.language) then OverrideLanguages(o.language.value) else ctx.project.language)
      && r.project.isMonorepo == o.isMonorepo.GetOr(ctx.project.isMonorepo)
      && r.project.monorepoType == ctx.project.monorepoType
      && r.service.name == (if Set(o.serviceName) then o.serviceName else ctx.service.name)
  {
    if config.None? || config.value.project.None? then ctx
    else
      var o := config.value.project.value;
      var p := ctx.project;
      var p1 := p.(ptype := o.ptype.GetOr(p.ptype));
      var p2 := if Set(o.framework) then p1.(framework := o.framework) else p1;
      var p3 := if LanguageOverrideSet(o.language) then p2.(language := OverrideLanguages(o.language.value)) else p2;
      var p4 := p3.(isMonorepo := o.isMonorepo.GetOr(p.isMonorepo));
      var s := if Set(o.serviceName) then ctx.service.(name := o.serviceName) else ctx.service;
      ctx.(project := p4, service := s)
  }

  /** An empty language array is truthy: it clears the detected languages. */
  lemma EmptyLanguageArrayClears(ctx: DetectedContext, o: ProjectOverrides)
    requires o.language == Some(ManyLanguages([]))
    ensures ApplyOverrides(ctx, Some(AutoConfig(Some(o), None, None, None))).project.language == []
  {
  }

  /** Everything `detect` reads from outside the filesystem. */
  datatype DetectInputs = DetectInputs(
    cwd: Option<Path>,
    processCwd: Path,
    userInput: Option<string>,
    bebopWorkspace: Option<Path>,
    env: Env,
    branchOutput: Option<string>,
    config: Option<AutoConfig>,
    parse: string -> Option<Value>,
    sep: char)

  /** `relativeCwd`: `path.relative(root, cwd) || '.'`, separator-normalised. */
  function RelativeCwd(root: Path, cwd: Path, sep: char): (r: string)
    ensures root == cwd ==> r == NormalizePath(".", sep)
  {
    var rel := Workspace.Relative(root, cwd);
    if root == cwd then
      RelativeToSelf(root);
      NormalizePath(".", sep)
    else
      NormalizePath(if rel == "" then "." else rel, sep)
  }

  lemma RelativeToSelf(p: Path)
    ensures Workspace.Relative(p, p) == ""
  {
    var c := Workspace.CommonPrefix(p, p);
    assert c == |p|;
    assert Workspace.Repeat("..", 0) + p[c..] == [];
  }

  /** `detect(cwd, userInput)`: the detected context before and after the
      configuration overrides. */
  function Detect(fs: Fs, inp: DetectInputs): (r: DetectedContext)
    ensures var dir := inp.cwd.GetOr(inp.processCwd);
      var ws := Workspace.Detect(fs, Some(dir), inp.processCwd);
      var root := inp.bebopWorkspace.GetOr(ws.root);
      && r.workspace == Some(WorkspaceContext(root, dir, FindServiceRoot(fs, dir, root), RelativeCwd(root, dir, inp.sep)))
      && r.service.root == FindServiceRoot(fs, dir, root)
      && r.git == DetectGitContext(inp.branchOutput, inp.env)
      && r.task == (if Set(inp.userInput) then AnalyzeTask(inp.userInput.value) else EmptyTask())
      && (inp.config.None? ==> r.service.name == ws.service)
  {
    ApplyOverrides(DetectedBase(fs, inp), inp.config)
  }

  /** The context `detect` builds before overrides apply. */
  function DetectedBase(fs: Fs, inp: DetectInputs): DetectedContext {
    var dir := inp.cwd.GetOr(inp.processCwd);
    var ws := Workspace.Detect(fs, Some(dir), inp.processCwd);
    var root := inp.bebopWorkspace.GetOr(ws.root);
    var serviceRoot := FindServiceRoot(fs, dir, root);
    var pc := LoadPackageContext(fs, root, serviceRoot, inp.parse);
    var framework := DetectFramework(fs, pc);
    var mono := DetectMonorepo(fs, root, inp.parse);
    var task := if Set(inp.userInput) then AnalyzeTask(inp.userInput.value) else EmptyTask();
    DetectedContext(
      Project(DetectProjectType(framework, pc.packageJson), framework, LanguagesFromWorkspace(ws.languages, pc), mono.0, mono.1),
      Service(ws.service, serviceRoot),
      DetectGitContext(inp.branchOutput, inp.env),
      task,
      Some(WorkspaceContext(root, dir, serviceRoot, RelativeCwd(root, dir, inp.sep))))
  }

  /** The project `detect` finds: its framework, the type that framework
      and `package.json` decide, the languages and the monorepo verdict at
      the workspace root, all read from the package context of the
      workspace and service roots. */
  lemma DetectedProject(fs: Fs, inp: DetectInputs)
    ensures var dir := inp.cwd.GetOr(inp.processCwd);
      var ws := Workspace.Detect(fs, Some(dir), inp.processCwd);
      var root := inp.bebopWorkspace.GetOr(ws.root);
      var pc := LoadPackageContext(fs, root, FindServiceRoot(fs, dir, root), inp.parse);
      var base := DetectedBase(fs, inp).project;
      && base.framework == DetectFramework(fs, pc)
      && base.ptype == DetectProjectType(base.framework, pc.packageJson)
      && base.language == LanguagesFromWorkspace(ws.languages, pc)
      && (base.isMonorepo, base.monorepoType) == DetectMonorepo(fs, root, inp.parse)
  {
  }

  /** `detect` answers the detected context unless a project override is
      configured, and no override changes the monorepo type. */
  lemma DetectOverridesBase(fs: Fs, inp: DetectInputs)
    ensures inp.config.None? || inp.config.value.project.None? ==> Detect(fs, inp) == DetectedBase(fs, inp)
    ensures Detect(fs, inp).project.monorepoType == DetectedBase(fs, inp).project.monorepoType
  {
    var base := DetectedBase(fs, inp);
    assert Detect(fs, inp) == ApplyOverrides(base, inp.config);
  }
}
