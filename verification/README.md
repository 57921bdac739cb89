# bebop core, modelled in Dafny

bebop is a prompt constrainer for coding agents. It reads a developer's task
prompt, detects the context it runs in (workspace, languages, frameworks, git
branch, task type), selects "constraint packs" of rules that apply to that
context, compiles the rules into a bounded prompt, checks the prompt
against the packs' forbidden patterns, records usage, and installs itself
into the agent tools (Claude hooks, Cursor hooks, an OpenCode plugin, shell aliases).

This project models that core as pure Dafny functions over immutable data
and proves what each step promises. The filesystem, the process environment,
the JSON and YAML parsers, the clock and the child processes are parameters
(oracles), so every operation is a function of its inputs.

| module | file | models |
|---|---|---|
| `Wrappers`, `Text`, `Seqs`, `Js` | wrappers.dfy, text.dfy, seqs.dfy, json.dfy | `Option`/`Result`, the JavaScript string built-ins the source relies on, sequence helpers, parsed JSON values |
| `Directives` | directives.dfy | `&use` / `&pack` directives in a prompt |
| `FsUtils` | fsutils.dfy | `findUp`, `normalizePath`, `globToRegExp`, `matchesGlob` |
| `Workspace` | workspace.dfy | git root, service name, language detection, bounded directory walk |
| `ContextTypes`, `Config`, `ContextDetector` | contexttypes.dfy, config.dfy, context.dfy | the detected context, the configuration it reads, and the detector |
| `PackSelector` | selector.dfy | which packs apply to a context |
| `Registry` | registry.dfy | pack identifiers, versions, pack files, loading |
| `Enforcement` | enforcement.dfy | forbidden-pattern checks over the prompt |
| `Compiler` | compiler.dfy | rule filtering, ordering, budget, prompt text |
| `Usage` | usage.dfy | sessions, usage records and their summary |
| `Tools` | tools.dfy | the file read and file write tools |
| `Errors` | errors.dfy | error values and their rendering |
| `Cli` | cli.dfy | argument handling and the command flows |
| `MarkerBlock`, `HookSettings`, `Init`, `Integration`, `CliInit` | markerblock.dfy, hooksettings.dfy, init.dfy, integration.dfy, cliinit.dfy | `bebop init`: marker blocks, hook settings, registry layout, templates, integrations |

## Model

| member | source | states |
|---|---|---|
| Directives.ScanTokens | src/directive-parser.ts:15-43 | the directive flag is set exactly when some token starts with `&`; no kept token and no pack is a directive, and no pack is empty; every token is a pack, a kept token or a dropped directive (the three counts add up); packs and kept tokens keep their order from the prompt |
| Directives.ParseDirectives | src/directive-parser.ts:7-50 | `hasDirectives` holds iff some whitespace-separated word starts with `&`; every word of the cleaned input and every pack is a non-directive word of the input |
| Directives.CleanedTokensRoundTrip | src/directive-parser.ts:41-47 | splitting the space-joined kept tokens gives back exactly those tokens |
| Directives.ScanWithoutDirectives | src/directive-parser.ts:15-43 | a prompt without directives selects no packs and keeps every token |
| Directives.ParseIdempotent | src/directive-parser.ts:7-50 | parsing the cleaned input again finds no directives, no packs, and leaves the text unchanged |
| Directives.UseStopsAtFirstNonPack | src/directive-parser.ts:19-26 | `&use` takes the maximal run of non-directive tokens containing `/`; the first token without `/` ends the run and is kept as prompt text |
| Directives.UseRunPrefix | src/directive-parser.ts:22-25 | the run `&use` consumes is exactly the leading pack-shaped tokens |
| Directives.PackTakesNext | src/directive-parser.ts:28-34 | `&pack x` selects `x` whatever its shape, and `x` is not kept as text |
| Directives.PackWithoutOperand | src/directive-parser.ts:28-38 | `&pack` at the end or before another directive is dropped alone and selects nothing |
| Directives.UseExample | src/directive-parser.ts:7-50 | `&use core/security Create user` selects `core/security` and leaves `Create user` |
| FsUtils.FindUp | packages/core/src/fs-utils.ts:21-45 | a result is the first listed name that exists in the nearest directory between the start and the stop directory (the root when the stop is not an ancestor), and no directory below it holds any name; `None` means no inspected directory holds any name |
| FsUtils.FindUpStaysBelowStop | packages/core/src/fs-utils.ts:33-35 | when the stop directory is an ancestor, a result always lies inside it |
| FsUtils.NormalizeOnPosix | packages/core/src/fs-utils.ts:47-49 | with `/` as the platform separator the path is unchanged |
| FsUtils.NormalizeKeepsOthers | packages/core/src/fs-utils.ts:47-49 | each platform separator becomes `/` and every other character stays in place |
| FsUtils.Tokenize | packages/core/src/fs-utils.ts:51-59 | a pattern with neither a star nor the text `__DOUBLE_STAR__` becomes one literal token per character |
| FsUtils.MarkDoubleStars | packages/core/src/fs-utils.ts:54 | a pattern without `*` is left unchanged by the `**` rewrite |
| FsUtils.LiteralGlobMatchesItself | packages/core/src/fs-utils.ts:51-59 | a pattern without `*` or `__DOUBLE_STAR__` matches exactly the target equal to it: regex metacharacters are escaped |
| FsUtils.SpelledPlaceholder | packages/core/src/fs-utils.ts:54-56 | the text `__DOUBLE_STAR__` written in a pattern becomes `.*` just like `**`: `a__DOUBLE_STAR__b` and `a**b` are the same glob |
| FsUtils.SingleStar | packages/core/src/fs-utils.ts:51-59 | `*` matches exactly the targets without `/` |
| FsUtils.DoubleStarAlone | packages/core/src/fs-utils.ts:51-59 | `**` matches exactly the targets without a line terminator |
| FsUtils.StarMatchMeaning | packages/core/src/fs-utils.ts:51-59 | a star token matches a prefix of characters it accepts, then the rest of the pattern matches the remainder |
| FsUtils.MatchesGlobIgnoresPadding | packages/core/src/fs-utils.ts:61-65 | surrounding white space on the pattern or the target never changes whether they match |
| FsUtils.TrimIdem | packages/core/src/fs-utils.ts:62-63 | trimming twice is trimming once |
| Workspace.FindGitRoot | src/workspace-detector.ts:28-54 | a result is the nearest of the directory and its first 49 ancestors holding a `.git` directory; `None` means none of those 50 does |
| Workspace.GitRootBeyondBound | src/workspace-detector.ts:30-33 | a `.git` directory 50 or more levels up is never found |
| Workspace.RelativeBelow | src/workspace-detector.ts:59 | the relative path from a root to a directory below it is the remaining segments joined with `/` |
| Workspace.DetectServiceName | src/workspace-detector.ts:56-87 | no git root gives no service; otherwise the first of the `services/`, `apps/`, `packages/`, `src/` patterns that matches decides and yields its word capture; when none matches, the service is the directory's own name, and there is one iff the directory holds `package.json`, `go.mod` or `pyproject.toml` |
| Workspace.ServiceNameExample | src/workspace-detector.ts:63 | under `services/api/screener` the service is `api`, not `screener` as the comment says |
| Workspace.WalkDir | src/workspace-detector.ts:128-159 | at most `maxFiles` paths, each a file below the start that does not pass through `node_modules` or `.git` |
| Workspace.DetectLanguages | src/workspace-detector.ts:89-126 | the languages are distinct, each comes from the extension of a walked file, and every walked file with a known extension contributes its language |
| Workspace.Detect | src/workspace-detector.ts:13-26 | the path is the given directory or the process directory; it is a git repository iff a git root is found; the root is that git root (an ancestor of the path) or the path itself; without a git root there is no service |
| ContextDetector.MatchedCategories | packages/core/src/context-detector.ts:382-386 | a category is reported iff some prompt token is one of its variants, and the categories keep their table order |
| ContextDetector.MatchedCategoriesExact | packages/core/src/context-detector.ts:382-386 | the reported categories are exactly the matched ones, each once |
| ContextDetector.ComplexityOf | packages/core/src/context-detector.ts:388-395 | a prompt mentioning `system`, `architecture`, `migration` or `refactor` is high; otherwise it is low iff it has at most 4 words and high iff it has at least 15 |
| ContextDetector.TaskTypeOf | packages/core/src/context-detector.ts:397-402 | each task type holds exactly when its category matched and no category of higher precedence (bugfix, test, refactor, documentation, feature) did; unknown when none matched |
| ContextDetector.AnalyzeTask | packages/core/src/context-detector.ts:378-405 | the keywords are distinct category names in table order, matched exactly as the keyword table says; complexity and type follow from the lower-cased words |
| ContextDetector.CategoryNamesAreKeys | packages/core/src/context-detector.ts:62-70 | the seven category names are distinct |
| ContextDetector.SecurityAloneIsUnknown | packages/core/src/context-detector.ts:397-402 | a prompt matching only security or performance words has unknown type: those categories set no type |
| ContextDetector.BlankTaskIsEmpty | packages/core/src/context-detector.ts:117-119 | an all-white-space prompt analyses to the empty task |
| ContextDetector.BranchPrefixesExclusive | packages/core/src/context-detector.ts:369-376 | the branch rules never overlap, so their order never matters |
| ContextDetector.DetectBranchType | packages/core/src/context-detector.ts:369-376 | main iff `main` or `master`; feature iff a `feature/` or `feat/` prefix; bugfix iff `bugfix/` or `fix/`; release iff `release/`; the empty branch is unknown |
| ContextDetector.DetectGitContext | packages/core/src/context-detector.ts:346-367 | a failed or blank `git branch` reads as branch `unknown` of unknown type; otherwise the branch is the trimmed output, typed by `DetectBranchType`; a non-empty `GITHUB_HEAD_REF`, a non-empty `CI_PULL_REQUEST`, or `GITHUB_EVENT_NAME` equal to `pull_request` or `pull_request_target` each mark a pull request, and nothing else does |
| ContextDetector.CollectDependencies | packages/core/src/context-detector.ts:200-210 | a name is collected iff one of the four dependency sections lists it: as a key of an object section, or as an index of an array section; other section values contribute nothing |
| ContextDetector.FrameworkFromDependencies | packages/core/src/context-detector.ts:212-221 | a framework is found iff some table entry's identifier is a dependency, and it is the first such entry in table order |
| ContextDetector.ReactBeforeNext | packages/core/src/context-detector.ts:44-56 | a project depending on both `react` and `next` is detected as `react`, since `react` comes first |
| ContextDetector.LoadPackageContext | packages/core/src/context-detector.ts:153-185 | the scan root is the service root or the workspace root; `package.json` is searched upwards from the scan root, stops at the workspace root and is read when found; each of the eight manifest flags (tsconfig, pyproject, requirements, go.mod, Cargo, Gemfile, pom, gradle) holds iff its file exists at the scan root or the workspace root |
| ContextDetector.ReadFileAtRoots | packages/core/src/context-detector.ts:272-283 | the scan root's file wins; the result is absent iff the file is readable at neither root |
| ContextDetector.FirstNamed | packages/core/src/context-detector.ts:256-261 | a reported candidate occurs in the lower-cased content; no reported candidate means none occurs |
| ContextDetector.DetectPythonFramework | packages/core/src/context-detector.ts:244-270 | the answer is the first candidate named by the dependency files searched in order (`pyproject.toml` and `requirements.txt` when present, then `Pipfile`); failing that, `django` iff a `manage.py` sits at the scan root or the workspace root, else none; only `django`, `flask` and `fastapi` are possible |
| ContextDetector.PythonFromFiles | packages/core/src/context-detector.ts:252-260 | there is no hit iff no file names a candidate; a hit is that of the earliest file with one |
| ContextDetector.DetectFramework | packages/core/src/context-detector.ts:212-242 | the first answer in order wins: the framework the `package.json` dependencies name, then the Python framework when a Python manifest is present, then `rails` for a Gemfile that mentions it, then `spring` for a Maven or Gradle build, else none |
| ContextDetector.DetectProjectType | packages/core/src/context-detector.ts:295-320 | a known framework decides frontend, mobile or backend; otherwise library iff `package.json` declares `private: false` and an entry point; everything else is backend |
| ContextDetector.DetectMonorepo | packages/core/src/context-detector.ts:322-344 | it is a monorepo iff the kind is known; nx iff `nx.json`; turborepo iff `turbo.json` without `nx.json`; lerna iff `lerna.json` without the two before; yarn workspaces iff none of those three and either `pnpm-workspace.yaml` exists or the root `package.json` parses to a truthy value with truthy `workspaces`; no monorepo iff none of the five holds |
| ContextDetector.LanguagesFromWorkspace | packages/core/src/context-detector.ts:121-151 | the detected languages, lower-cased and deduplicated, come first; a language is listed iff it was detected or a manifest adds it; no language is listed twice |
| ContextDetector.ManifestsAddLanguages | packages/core/src/context-detector.ts:134-148 | `tsconfig.json` adds typescript, a Python manifest adds python, `go.mod` adds go, `Cargo.toml` adds rust |
| ContextDetector.FindServiceRoot | packages/core/src/context-detector.ts:407-431 | a result is the nearest directory from the working directory up, holding one of the five manifests, and stays inside the workspace root when the working directory is below it; `None` means no directory up to the workspace root holds one |
| ContextDetector.ApplyOverrides | packages/core/src/context-detector.ts:433-459 | without project overrides the context is unchanged; otherwise each set override replaces its field (languages lower-cased, an array replacing the list), and git, task, workspace, service root and monorepo kind never change |
| ContextDetector.EmptyLanguageArrayClears | packages/core/src/context-detector.ts:443-448 | an empty language array is truthy and clears the detected languages |
| ContextDetector.RelativeToSelf | packages/core/src/context-detector.ts:108 | the working directory relative to itself is empty, so `relativeCwd` becomes `.` |
| ContextDetector.Detect | packages/core/src/context-detector.ts:73-115 | the workspace root is `BEBOP_WORKSPACE` or the detected root; the service root, git context and task are those of the parts above; without a configuration the service name is the one the workspace detector found |
| ContextDetector.DetectedProject | packages/core/src/context-detector.ts:79-95 | the detected project's framework comes from the package context of the workspace and service roots, its type from that framework and `package.json`, its languages from the workspace scan and that context, its monorepo verdict from the workspace root |
| ContextDetector.DetectOverridesBase | packages/core/src/context-detector.ts:114 | without a project override `detect` answers the detected context; no override changes the monorepo type |
| PackSelector.AddPacks | packages/core/src/pack-selector.ts:136-145 | the selected packs become the old ones followed by the new non-empty packs not yet selected, in order |
| PackSelector.AddPacksReasons | packages/core/src/pack-selector.ts:136-145 | each non-empty pack gains the reason once per occurrence in the added list; the empty pack gains nothing |
| PackSelector.AddPacksWellformed | packages/core/src/pack-selector.ts:136-145 | adding keeps the selection duplicate-free, free of the empty pack, and every selected pack with a reason |
| PackSelector.Enabled | packages/core/src/pack-selector.ts:79-83 | a switch is on unless it is explicitly `false` |
| PackSelector.SwitchesOf | packages/core/src/pack-selector.ts:78-83 | without `auto_select` every stage is on |
| PackSelector.Contributions | packages/core/src/pack-selector.ts:85-128 | the `always` packs come first, with the reason `always` |
| PackSelector.RemovePacks | packages/core/src/pack-selector.ts:163-171 | a pack stays selected iff it was selected and is not removed; every removed pack records the removal reason; earlier reasons are kept |
| PackSelector.RemovePacksOrder | packages/core/src/pack-selector.ts:163-164 | deleting keeps the other packs in their insertion order |
| PackSelector.ApplyOverride | packages/core/src/pack-selector.ts:157-173 | an override's removals win over its additions; a pack survives unless removed; nothing appears unless it was selected or added; reasons only grow |
| PackSelector.ApplyOverrideOrder | packages/core/src/pack-selector.ts:160-171 | one override keeps the packs it does not remove in front, in their order, and appends only non-empty packs it adds |
| PackSelector.ApplyOverridesFrom | packages/core/src/pack-selector.ts:151-173 | over the test, security, performance overrides in order: a pack no firing override removes stays; every result pack was selected or added by a firing override; a pack the performance entry removes, when it fires, is absent |
| PackSelector.OverridesKeepOrder | packages/core/src/pack-selector.ts:151-173 | the selected packs no firing override removes stay in front, in their order; every pack after them is one a firing override adds |
| PackSelector.OverridesTakeEffect | packages/core/src/pack-selector.ts:157-173 | for each of test, security and performance that fires: a pack it removes is absent unless a later firing override adds it back; a non-empty pack it adds is present unless it or a later firing override removes it |
| PackSelector.ApplyKeywordOverrides | packages/core/src/pack-selector.ts:147-173 | without a `compilation` block the selection is unchanged; with one, the packs no firing override removes stay in front in order, followed only by packs a firing override adds, and each firing override's removals and additions hold unless a later override undoes them; the selection stays well formed |
| PackSelector.Select | packages/core/src/pack-selector.ts:74-134 | the result has no duplicates, no empty pack, and a reason for every pack; with a `compilation` block, the stage packs no firing override removes lead the result in first-seen order, and every later pack is one a firing override adds |
| PackSelector.SelectWithoutOverrides | packages/core/src/pack-selector.ts:85-132 | without overrides the packs are the non-empty stage packs in first-seen order, and a pack's reasons are the reasons of every stage that named it, in stage order |
| PackSelector.AlwaysFirst | packages/core/src/pack-selector.ts:85-86 | the `always` packs lead the result |
| PackSelector.DefaultsLead | packages/core/src/pack-selector.ts:22-23 | with the default rules `core/security` then `core/code-quality` lead every selection |
| PackSelector.TypePackSelected | packages/core/src/pack-selector.ts:87-90 | with the type switch on, every pack the rules give the project type is selected, with reason `project:<type>` |
| PackSelector.BackendSelectsNestjs | packages/core/src/pack-selector.ts:25-27 | with no configuration, a backend project selects `framework/nestjs` for the reason `project:backend` |
| PackSelector.ServicePackSelected | packages/core/src/pack-selector.ts:105-109 | a named service always selects `services/<name>` with the reason `service:<name>` |
| PackSelector.AllSwitchesOff | packages/core/src/pack-selector.ts:78-128 | with every switch off and no `additional` packs only the `always` packs remain |
| PackSelector.SelectSoundAndComplete | packages/core/src/pack-selector.ts:74-173 | a stage pack no firing override removes is selected; every selected pack comes from a stage or a firing override's `add_packs`; a pack a firing test, security or performance override removes is absent unless a later one adds it back, and a pack it adds is present unless it or a later one removes it |
| PackSelector.PerformanceRemovalWins | packages/core/src/pack-selector.ts:151-173 | a pack the `performance` override removes is never selected when the task mentions performance |
| Registry.StripV | src/pack-registry.ts:147 | one leading `v` is dropped and nothing else changes |
| Registry.ParsePackIdentifier | src/pack-registry.ts:141-149 | an identifier without `@` is the whole input with no version; the id never contains `@` and is a prefix of the input; a version exists only when the input has `@`, and contains no `@` |
| Registry.ParseIdentifierRoundTrip | src/pack-registry.ts:141-149 | `id@version` parses back to `id` and the version without its leading `v` |
| Registry.ParseIgnoresLaterSegments | src/pack-registry.ts:142 | everything after a second `@` is ignored |
| Registry.VersionsMatch | src/pack-registry.ts:151-154 | a string version matches iff both sides agree once a leading `v` is dropped from each; a numeric version matches iff the requested text, its `v` dropped, is the number's decimal rendering; a version that is neither a string nor a number makes the comparison throw |
| Registry.VersionsMatchReflexive | src/pack-registry.ts:151-154 | every version matches itself, and a number matches its decimal rendering |
| Registry.FirstOpener | src/pack-registry.ts:136 | the leftmost case-insensitive `` ```yaml `` opener from a position on |
| Registry.ExtractYaml | src/pack-registry.ts:135-139 | without an opener there is no YAML; after the first opener, there is YAML iff a closing fence follows the fence word, and then it is the trimmed text up to the first such fence |
| Registry.ExtractYamlLeftmost | src/pack-registry.ts:135-139 | the YAML is found iff the pattern matches somewhere (an opening fence, then a closing fence after the fence word), and then it is the trimmed text of the leftmost opener and the first closing fence after it |
| Registry.ExtractFencedBody | src/pack-registry.ts:135-139 | a Markdown pack with one fenced YAML block yields exactly that block's text, trimmed |
| Registry.ParsePackFile | src/pack-registry.ts:113-132 | a pack is read iff the file is readable and its YAML (fenced, else the whole text) parses to a document with a truthy `id` and a `rules` list; it keeps that id, those rules and its path, and its version is the document's, or `"1"` when that is missing or null |
| Registry.RegistryDirs | src/pack-registry.ts:40-46 | the search order is `~/.bebop/packs`, the workspace's `packs`, its `templates/packs`, then the extra directories |
| Registry.FileSteps | src/pack-registry.ts:73-78 | every candidate of a listing is a file directly inside the listed directory |
| Registry.FileStepsMembers | src/pack-registry.ts:73-78 | a step is among a listing's candidates iff it names an entry of that listing whose extension, in any case, is `.md`, `.yaml` or `.yml` |
| Registry.FirstDecisive | src/pack-registry.ts:68-87 | the first step that returns a pack or throws |
| Registry.LoadPack | src/pack-registry.ts:65-90 | the result is the verdict of the first step that does not pass the request over (a matching pack, or the error it throws); no pack is found iff every directory and listed file passes the request over; a loaded pack has the requested id |
| Registry.FirstVerdict | src/pack-registry.ts:65-90 | the result is the verdict of the first decisive step; a loaded pack is the verdict of some step every earlier step passed over; the result is `null` iff every step passes over; a loaded pack has the requested id |
| Registry.StepsAppend | src/pack-registry.ts:68 | the search over concatenated directory lists is the concatenation of the searches |
| Registry.EarlierDirectoryWins | src/pack-registry.ts:68-87 | a pack found in a directory shadows every later directory |
| Registry.Gather | src/pack-registry.ts:53-62 | over the loads of the ids: the first throw rejects the call; otherwise the packs are exactly the packs found and the missing ids exactly those whose load found nothing, both in order, and every id lands in one of the two |
| Registry.LoadPacks | src/pack-registry.ts:49-63 | the loaded packs are exactly the packs the ids load to, and the missing ids exactly the ids that load to nothing, both in request order; loading succeeds iff no single load throws |
| Registry.LoadPacksPartition | src/pack-registry.ts:53-60 | an id is missing iff it was requested and no directory provides it; a pack is loaded iff it is the load of some requested id |
| Registry.ThrowIfAllMissing | src/pack-registry.ts:156-160 | it throws iff nothing loaded and something is missing, and the error names the first missing id |
| Enforcement.EnforceBlock | packages/core/src/enforcement.ts:26-27 | only an object-typed `enforce` block is considered; a rule without one contributes nothing |
| Enforcement.LevelOf | packages/core/src/enforcement.ts:35 | the level is `warn` exactly when the block says `warn`; anything else blocks |
| Enforcement.NormalizePatterns | packages/core/src/enforcement.ts:73-79 | a falsy value gives no patterns; an array gives the string forms of its items with the empty ones dropped, in item order and with repeats kept; the empty pattern never survives |
| Enforcement.NonEmptyStringsIsKeep | packages/core/src/enforcement.ts:77 | dropping empty strings one by one is `filter(Boolean)` |
| Enforcement.ScalarPatternWrapped | packages/core/src/enforcement.ts:78 | a truthy non-array value becomes the one-element list of its string form |
| Enforcement.ExtractPatterns | packages/core/src/enforcement.ts:62-71 | no extracted pattern is empty |
| Enforcement.PatternPrecedence | packages/core/src/enforcement.ts:62-71 | `diff-scan` prefers `deny_patterns`, every other type prefers `patterns`; an empty `patterns` array is truthy and so yields no patterns at all, hiding `deny_patterns` |
| Enforcement.PatternSource | packages/core/src/enforcement.ts:81-101 | a blank pattern compiles to nothing; a pattern not starting with `/` is the trimmed text, case-insensitive; the flags are never empty |
| Enforcement.SlashLiteralRoundTrip | packages/core/src/enforcement.ts:85-88 | `/body/flags` compiles to `body` with those flags, or `i` when there are none |
| Enforcement.LeadingSlashOnly | packages/core/src/enforcement.ts:85-97 | a pattern whose only `/` is the first character is taken literally, case-insensitive |
| Enforcement.PatternEntriesShape | packages/core/src/enforcement.ts:37-48 | each entry names the rule, its pack, its type and level, and a listed pattern that compiled and matched the input |
| Enforcement.RuleEntries | packages/core/src/enforcement.ts:25-57 | a rule without an `enforce` block reports nothing; every entry carries the rule's id, its pack, a non-empty type and the rule's level |
| Enforcement.EntriesAppend | packages/core/src/enforcement.ts:25 | the entries of concatenated rule lists are the concatenated entries |
| Enforcement.AtLevel | packages/core/src/enforcement.ts:50-54 | an entry is kept iff it is one of the entries and has the level |
| Enforcement.LevelsPartition | packages/core/src/enforcement.ts:50-54 | every entry is either a violation or a warning, never both and never neither |
| Enforcement.RunEnforcement | packages/core/src/enforcement.ts:18-60 | the violations are exactly the block-level entries and the warnings exactly the warn-level entries, in rule and pattern order |
| Enforcement.EnforceRule | packages/core/src/enforcement.ts:26-56 | one rule's blocks and warnings are its entries at each level |
| Enforcement.TestPatterns | packages/core/src/enforcement.ts:37-56 | the pattern loop sends every hit to the list of its level |
| Enforcement.CollectHits | packages/core/src/enforcement.ts:37-56 | the loop collects exactly the entries for the patterns that compile and match |
| Enforcement.AtLevelUniform | packages/core/src/enforcement.ts:50-54 | entries of one level all land in that level's list and none in the other |
| Enforcement.NoEnforceNoEntries | packages/core/src/enforcement.ts:26-27 | rules without `enforce` blocks never report anything |
| Compiler.AllRules | src/prompt-compiler.ts:55 | a tagged rule is present iff it is a rule of a loaded pack, tagged with that pack's id |
| Compiler.Checks | src/prompt-compiler.ts:118-133 | a check is made only for a non-empty `languages` or `paths` list, and all checks pass iff each stated requirement is met |
| Compiler.RuleApplies | src/prompt-compiler.ts:114-144 | a rule without `applies_when` always applies; otherwise it applies iff some listed language is a project language (case-insensitively) when languages are listed, and some listed glob matches the working directory when paths are listed |
| Compiler.AnyIsIgnored | src/prompt-compiler.ts:135-141 | the `any` flag never changes whether a rule applies |
| Compiler.Filter | src/prompt-compiler.ts:58 | the result is the generic order-keeping filter `Seqs.Keep` of the rules by applicability; a rule is kept iff it applies |
| Compiler.FilterIdempotent | src/prompt-compiler.ts:58 | filtering an already filtered list changes nothing |
| Compiler.LimitPrecedence | src/prompt-compiler.ts:72-73 | the compilation section's limit wins, then the packs section's (zero counts as set), then 15 |
| Compiler.Slice | src/prompt-compiler.ts:75-76 | the constraints are a prefix of the rules whose length follows `slice(0, n)`, a negative limit counting back from the end |
| Compiler.PromptLines | src/prompt-compiler.ts:152-169 | the prompt has five fixed lines plus one line per constraint, or the placeholder line when there are none |
| Compiler.FormatCompiledPrompt | src/prompt-compiler.ts:147-172 | the prompt starts with `Task: ` and the user's input |
| Compiler.FormattedLines | src/prompt-compiler.ts:147-172 | when no input holds a line break, splitting the prompt on line breaks gives back exactly its lines: the task, a blank line, the header, the constraint lines, a blank line and the context line |
| Compiler.ConstraintLineSingle | src/prompt-compiler.ts:161 | a constraint line holds no line break when its parts hold none |
| Compiler.ContextLineSingle | src/prompt-compiler.ts:166-169 | the context line holds no line break when the framework and service names hold none |
| Compiler.EstimateTokens | src/prompt-compiler.ts:174-177 | the estimate is at least 1, and for a non-empty text the least whole number not below 1.3 times the word count |
| Compiler.EstimateMonotone | src/prompt-compiler.ts:174-177 | more words never give a smaller estimate |
| Compiler.Summaries | src/prompt-compiler.ts:64-68 | one summary per violation, with its rule, pack and type |
| Compiler.Compile | src/prompt-compiler.ts:48-112 | loading fails iff the registry fails; a rejection is always `ENFORCEMENT_FAILED`; a result echoes the task, counts its constraints, reports the registry's missing packs and estimates of at least one token |
| Compiler.RejectsExactlyOnBlockingHits | src/prompt-compiler.ts:60-70 | with enforcement on, compiling fails iff some applicable rule has a block-level hit, and the error lists exactly those hits |
| Compiler.DisabledEnforcementNeverRejects | src/prompt-compiler.ts:60-61 | with `enforce: false`, compiling succeeds iff the packs load, and reports no warnings |
| Compiler.WarningsAreWarnHits | src/prompt-compiler.ts:60-109 | the reported warnings are exactly the warn-level hits of the applicable rules |
| Compiler.ConstraintsAreLeadingApplicableRules | src/prompt-compiler.ts:72-81 | the constraints are the applicable rules in order, cut as `slice(0, limit)` cuts: `min(limit, applicable)` of them for a non-negative limit, all but the last `-limit` for a negative one, and the first 15 (all, when fewer apply) without configuration |
| Compiler.CompiledFields | src/prompt-compiler.ts:83-111 | a result's `formatted` is the prompt of the task, its constraints and the context; `compiledTokens` estimates it; `originalTokens` estimates the prompt of every loaded rule, never empty as it opens with `Task: `; the context names the project type, service and framework |
| Compiler.ConstraintsApply | src/prompt-compiler.ts:55-81 | unless `include_all_rules` is set, every constraint comes from a rule of a loaded pack that applies to the context |
| Usage.RegistryPath | src/usage-log.ts:54-56 | a non-empty explicit path wins, then a non-empty `BEBOP_REGISTRY`, then `~/.bebop` |
| Usage.CountJoinedWords | src/usage-log.ts:193-195 | the word count of words joined by single spaces is the number of words |
| Usage.SinceBound | src/usage-log.ts:108-116 | a `since` bound exists iff the date is non-empty and parses to a non-zero time, and then that time is the bound |
| Usage.LineRecord | src/usage-log.ts:111-120 | a line yields a record only when it is non-empty, parses, and passes the tool, session and date filters |
| Usage.ReadUsageRecords | src/usage-log.ts:100-124 | a missing log gives no records; otherwise the k-th record is the parse of the k-th line that is non-empty, parses and passes the filters, with one record per such line; every record passes the filters |
| Usage.BeforeIrreflexive | src/usage-log.ts:141-146 | no timestamp sorts before itself |
| Usage.BeforeTransitive | src/usage-log.ts:141-146 | string order on timestamps is transitive |
| Usage.BeforeTotal | src/usage-log.ts:141-146 | of two different timestamps one sorts first |
| Usage.BeforeAsymmetric | src/usage-log.ts:141-146 | two timestamps never sort before each other |
| Usage.FirstSeenIsMinimum | src/usage-log.ts:141-143 | the first-seen timestamp is the timestamp of some record and no record's timestamp sorts before it |
| Usage.LastSeenIsMaximum | src/usage-log.ts:144-146 | the last-seen timestamp is the timestamp of some record and sorts before no record's timestamp |
| Usage.TotalAppend | src/usage-log.ts:135-139 | a token total over two record lists is the sum of their totals |
| Usage.SummarizeUsage | src/usage-log.ts:126-163 | the summary counts every record, has first and last timestamps iff there are records, and keeps the session id only when it is non-empty |
| Usage.SummarizeLoop | src/usage-log.ts:126-163 | the accumulating loop ends with the summary defined by sums and by the earliest and latest timestamps |
| Usage.SummaryLines | src/usage-log.ts:170-188 | the heading comes first, then the tool and session lines when present, then `Prompts`, `Original tokens`, `Compiled tokens`, `Tokens saved` with their decimal totals and `Average savings` with the rendered average and `%`, then `First` and `Last` with the timestamps when present |
| Usage.FormatSummary | src/usage-log.ts:165-191 | the no-usage message is printed iff there are no prompts; otherwise the text is the summary lines joined by line breaks, and starts with the heading |
| Usage.SummaryReadsBack | src/usage-log.ts:165-191 | splitting a non-empty summary at its line breaks gives back its lines, when no printed field holds a line break |
| Usage.ActiveSession | src/usage-log.ts:81-84 | a tool has an active session iff the state holds it |
| Usage.StartSession | src/usage-log.ts:72-79 | afterwards the tool's active session is the new one and every other tool's is unchanged |
| Usage.EndSession | src/usage-log.ts:86-98 | ending reports the tool's session, a summary iff there was a session, leaves the state untouched without one, and otherwise removes only that tool |
| Usage.EndAfterStart | src/usage-log.ts:72-98 | ending a session just started returns it, restores the state without the tool, and summarises exactly the records logged for that tool and session |
| Tools.PathArg | packages/core/src/tools/index.ts:22-26 | a path is accepted iff the input's `path` is a non-empty string, and it is that string |
| Tools.ContentArg | packages/core/src/tools/index.ts:93-95 | content is accepted iff the input's `content` is a string, the empty string included |
| Tools.TokenEstimate | packages/core/src/tools/index.ts:62-65 | the least whole number not below 1.3 times the word count, and zero exactly for a text without words |
| Tools.CompilerEstimateIsFloored | packages/core/src/tools/index.ts:62-65 | the prompt compiler's estimate is this one raised to at least 1 |
| Tools.OneLineShownTwice | packages/core/src/tools/index.ts:36-45 | as written, a large file without line breaks comes back twice, around a marker claiming -59 omitted lines |
| Tools.LongLineExample | packages/core/src/tools/index.ts:33-45 | 1540 one-letter words on one line estimate to 2002 tokens and come back twice |
| Tools.ReadAsWritten | packages/core/src/tools/index.ts:33-45 | a file within 2000 estimated tokens comes back whole; a larger file of more than 60 lines gets exactly the corrected cut of `Tools.ReadResult` |
| Tools.ReadResult | packages/core/src/tools/index.ts:40-45 | the corrected cut (see Findings): a file within 2000 estimated tokens, or of at most 60 lines, comes back whole |
| Tools.CutFileLines | packages/core/src/tools/index.ts:40-45 | a cut file reads back as its first 30 lines, a blank line, the marker, a blank line and its last 30 lines; the marker counts exactly the lines left out, at least one |
| Tools.FileRead | packages/core/src/tools/index.ts:21-60 | a `null` input rejects; a bad path fails with the path message; for a valid path, a read text comes back cut as written (`Tools.ReadAsWritten`), and a failed read gives `File not found: <path>` for `ENOENT`, `Path is a directory: <path>` for `EISDIR` and `Failed to read file: <message>` otherwise |
| Tools.BadPathNeverReads | packages/core/src/tools/index.ts:21-147 | an invalid path is refused before the filesystem is touched: the answer does not depend on it |
| Tools.Fragment | packages/core/src/tools/index.ts:163-177 | a line index contributes nothing iff the old and new line there agree, `undefined` past the end included |
| Tools.DiffBodyEmpty | packages/core/src/tools/index.ts:163-178 | the diff body is empty iff every line index agrees |
| Tools.SameLinesEverywhere | packages/core/src/tools/index.ts:157-163 | the lines agree at every index up to the longer length iff the two line lists are equal |
| Tools.GenerateDiff | packages/core/src/tools/index.ts:149-181 | the line loop produces the diff text `DiffText` defines: an empty old text gives the `+++` header and the new text; equal texts give `No changes`; otherwise both headers and one entry per differing line |
| Tools.DiffLoop | packages/core/src/tools/index.ts:163-178 | the loop accumulates exactly the per-line fragments |
| Tools.DiffShowsChange | packages/core/src/tools/index.ts:149-181 | two different texts always produce a non-empty diff body |
| Tools.TruncateContent | packages/core/src/tools/index.ts:183-187 | content within the line limit is returned whole |
| Tools.TruncatedLines | packages/core/src/tools/index.ts:183-189 | a truncated preview reads back as the first lines followed by one line counting the rest |
| Tools.FileWrite | packages/core/src/tools/index.ts:86-126 | a `null` input rejects; a bad path or content fails with its message; valid input always succeeds with the diff against the current text (empty when unreadable), the file marked new iff it could not be read, and the 500-line preview |
| Tools.Apply | packages/core/src/tools/index.ts:128-147 | a `null` input rejects; a bad path or content fails with its message; for valid input, a clean write gives `Successfully wrote <path>` and a failed one `Failed to write file: <message>` |
| Errors.ToString | src/errors.ts:12-23 | the rendering starts with the coloured `Error [code]:` headline and the message, and is exactly that headline when there are no suggestions |
| Errors.RenderedLines | src/errors.ts:13-19 | the headline, a blank line, the coloured `Suggestions:` line, then one numbered line per suggestion |
| Errors.RenderedLinesSplit | src/errors.ts:12-23 | when no part holds a line break, the rendering splits back into exactly those lines |
| Errors.ToStringIsJoin | src/errors.ts:12-23 | the rendering is the line-break join of its lines |
| Errors.NumberedIsJoin | src/errors.ts:17-19 | the suggestion loop appends each numbered line after a line break, in order |
| Errors.PackNotFound | src/errors.ts:35-45 | message `Pack not found: ` followed by the id, code `PACK_NOT_FOUND`, the pack id as detail, and three suggestions |
| Errors.PackNotFoundIdentifies | src/errors.ts:35-37 | the not-found message determines the pack id |
| Errors.EnforcementFailed | src/errors.ts:167-177 | message `Enforcement failed for <n> rule(s).` with n the number of violations, code `ENFORCEMENT_FAILED`, the violations as detail, and three suggestions |
| Cli.GetInputFromArgs | src/cli.ts:44-49 | a non-empty fallback (`--input` or piped text) is the task; otherwise the positional words joined by single spaces, empty when there are none |
| Cli.TaskWordsRoundTrip | src/cli.ts:44-49 | positional words without white space, joined into the task, split back into the same words |
| Cli.OptionOrStdin | src/cli.ts:244-245 | a non-empty `--input` wins; otherwise the trimmed piped text is used |
| Cli.ParsePacksInput | src/cli.ts:32-42 | no list gives no packs; a JSON array gives its strings; text that is not JSON gives its non-empty comma- or space-separated fields, none holding a separator |
| Cli.PackListRoundTrip | src/cli.ts:38-41 | a space-joined list of ids that does not parse as JSON reads back as the same list |
| Cli.PacksFieldRead | src/cli.ts:36 | a JSON object whose `packs` field is an array gives that array's strings |
| Cli.ShouldEnforce | src/cli.ts:86-90 | enforcement is off exactly when `--no-enforce` is given or `BEBOP_ENFORCE` is `0` |
| Cli.ResolveContext | src/cli.ts:51-59 | the `--context` value is used exactly when it is non-empty and parses to a truthy JSON value; otherwise the detector runs on the input |
| Cli.ResolvePacks | src/cli.ts:61-84 | directive packs take precedence over the `--packs` list, which takes precedence over the selector; the cleaned text falls back to the input when empty |
| Cli.DirectivePacksWin | src/cli.ts:72-74 | when the input names packs by directive, neither `--packs` nor the context changes the pack list |
| Cli.NoDirectivesKeepsInput | src/cli.ts:69-70 | with directives off the text is left as it is and the packs come from `--packs` or the selector |
| Cli.HookCompile | src/cli.ts:243-283 | no input exits early; input already holding `Active constraints:` is echoed unchanged; otherwise a successful compile keeps the input as the task |
| Cli.FormattedHasMarker | src/cli.ts:251-254 | every compiled prompt contains the `Active constraints:` marker the hook looks for |
| Cli.HookIdempotent | src/cli.ts:251-254 | feeding the hook its own compiled output echoes it without compiling again |
| Cli.CompileCommand | src/cli.ts:295-333 | `compile` exits with no input exactly when the task text is empty and never echoes |
| Cli.AutoCompilesWholeInput | src/cli.ts:304-309 | `--auto` compiles the whole input, directive words included, for the `--packs` list or else the selector's packs |
| Cli.DirectivesChoosePacks | src/cli.ts:304-309 | without `--auto`, the directive packs are compiled and the task is the input with its directives removed |
| Cli.CompileAutoCommand | src/cli.ts:343-378 | `compile-auto` exits with no input exactly when the text is empty; a successful compile keeps the whole input as the task |
| Cli.CompileAutoIsAutoFlag | src/cli.ts:343-378 | `compile-auto` behaves as `compile --auto` with no `--packs` list |
| Cli.CompileWithSwitchedOff | src/cli.ts:315 | with enforcement off, a compile fails only when its packs cannot be loaded |
| Cli.CompileSwitchedOffNeverRejects | src/cli.ts:315 | `compile` with `--no-enforce` or `BEBOP_ENFORCE=0` never fails on an enforcement violation |
| Cli.HookSwitchedOffNeverRejects | src/cli.ts:265 | the same for `hook compile` |
| Cli.SelectPacksLines | src/cli.ts:160-177 | the `select-packs` text output, read line by line, is the selected pack list |
| MarkerBlock.BebopMarkersOneLine | packages/core/src/init.ts:294-295 | the two block markers are non-empty and hold no line break |
| MarkerBlock.Separator | packages/core/src/init.ts:306-307 | what goes between existing text and an appended block is one or two line breaks, never nothing |
| MarkerBlock.Upsert | packages/core/src/init.ts:293-309 | without both markers the marked block is appended after a blank line; with both, the first start marker through the first end marker after it is replaced by the marked block; with both but the end only before the start, the text is left as it is |
| MarkerBlock.UpsertFixed | packages/core/src/init.ts:300-303 | a text already holding the marked block at its first start marker is rewritten to itself |
| MarkerBlock.UpsertIdempotent | packages/core/src/init.ts:293-309 | writing the same alias block twice leaves the rc file as the first write left it |
| MarkerBlock.UpsertInstalls | packages/core/src/init.ts:293-309 | after the write the file holds the marked block, at the first start marker, where the old span began or right after the separator |
| Init.AgentsUpdate | packages/core/src/init.ts:162-186 | no bundled file writes nothing; no existing file gets the bundled text; an existing file that already holds the agents marker is left alone |
| Init.AgentsAppendShape | packages/core/src/init.ts:183-185 | an append keeps the old text, ends its last line, and adds a `---` rule between blank lines before the bundled text |
| Init.AgentsAppendOnce | packages/core/src/init.ts:179-181 | when the bundled text carries the marker, a second `init` leaves the file as the first one left it |
| Init.AgentsWritten | packages/core/src/init.ts:166-185 | the file is written exactly when it is missing or lacks the marker |
| Init.ToCopyExact | packages/core/src/init.ts:145-157 | a destination is copied exactly when its name is listed, its destination does not exist and its source is a regular file |
| Init.CopyTemplateDir | packages/core/src/init.ts:136-160 | a missing template directory copies nothing; otherwise the copied paths are the listed regular files whose destination did not exist |
| Init.CreatedDirs | packages/core/src/init.ts:35-41 | only directories that did not exist are reported as created, at most one per name |
| Init.CreatedExactly | packages/core/src/init.ts:35-41 | a registry sub-directory is reported as created exactly when it did not exist |
| Init.RegistryPath | packages/core/src/init.ts:31 | a non-empty registry path option, `/` included, names the registry; a missing or empty one gives `.bebop` in the home directory |
| HookSettings.FindBebop | packages/core/src/init.ts:506-509 | the entry found is the first whose hooks mention bebop; none found means no entry's hooks do |
| HookSettings.DropBebop | packages/core/src/init.ts:522 | the filter throws iff some hook's test throws; otherwise it keeps exactly the hooks whose command does not mention bebop, in their order (the generic filter `Seqs.Keep`) |
| HookSettings.MergedEntries | packages/core/src/init.ts:511-526 | without a bebop entry a new entry is appended; an entry already running the script leaves the list as it is; otherwise only the bebop entry changes, its hooks becoming its non-bebop hooks followed by the script's command hook; the merge throws iff the entry search or that filter throws |
| HookSettings.MergeHookSettings | packages/core/src/init.ts:497-533 | settings that are not an object or array throw; an array, or an object whose `hooks` is an array, comes back unchanged; otherwise other keys are kept, and the merge succeeds iff the `UserPromptSubmit` list merges, `hooks.UserPromptSubmit` becoming that merged list |
| HookSettings.ReadSettings | packages/core/src/init.ts:535-542 | a missing or unparsable settings file reads as an empty object |
| HookSettings.MergeInstallsHook | packages/core/src/init.ts:506-526 | after the merge the first bebop entry runs the hook script |
| HookSettings.MergedEntriesIdempotent | packages/core/src/init.ts:506-526 | merging the entry list a second time changes nothing |
| HookSettings.MergeIdempotent | packages/core/src/init.ts:497-533 | installing the hook twice leaves the settings as one install left them |
| Integration.Attempts | packages/core/src/init.ts:58-100 | the Claude and Cursor hooks are tried exactly when hooks are on and the tool is present; the opencode plugin when plugins are on and it is present; aliases whenever aliases are on; options default to on |
| Integration.Record | packages/core/src/init.ts:62-100 | every attempted integration has a result and only attempted ones do |
| Integration.RecordFaithful | packages/core/src/init.ts:62-100 | an integration is recorded installed exactly when its installer did not fail, and the warnings are the failure lines in order |
| Integration.InstallAutoIntegration | packages/core/src/init.ts:53-103 | the installed keys are exactly the attempted integrations; `codex` is never installed |
| Integration.InstallOutcome | packages/core/src/init.ts:53-103 | each installed flag is true exactly when its installer did not fail |
| Integration.AliasTools | packages/core/src/init.ts:281-283 | the aliased tools are exactly the detected ones |
| Integration.AliasBlockSnoc | packages/core/src/init.ts:411-415 | each further tool adds its shell function after a blank line |
| Integration.AliasBlockStart | packages/core/src/init.ts:411-415 | the block begins with the first tool's function |
| Integration.AliasFiles | packages/core/src/init.ts:263-279 | `.zshrc` is a target exactly when the shell is zsh or the file is missing, likewise `.bashrc`; no file is named twice |
| Integration.AliasWrites | packages/core/src/init.ts:262-291 | with no tool detected nothing is written; otherwise each target gets the alias block upserted into its current text |
| Integration.OverwriteGuard | packages/core/src/init.ts:486-491 | an existing hook script or plugin without the bebop marker blocks the install; a missing one or one with the marker does not |
| Integration.ReinstallAllowed | packages/core/src/init.ts:213-218 | installing twice is allowed: a file holding the marker anywhere after some preamble, as the generated plugin and hook script do, never blocks a reinstall |
| CliInit.FindMatcher | src/init.ts:369 | the entry found is the first with matcher `.*`; none found means no entry has it |
| CliInit.WithCommand | src/init.ts:373-379 | the matcher entry keeps every hook and runs the script, added at the end only when missing |
| CliInit.MergedMatcherEntries | src/init.ts:369-380 | without a matcher entry one is appended; otherwise only the matcher entry changes |
| CliInit.MergeMatcherSettings | src/init.ts:361-387 | an object or array is merged and any other value throws; an array, or an object whose `hooks` is an array, comes back unchanged; otherwise other keys are kept and `hooks.UserPromptSubmit` becomes the list merged with the matcher entry |
| CliInit.MatcherHolds | src/init.ts:369-380 | after the merge the first matcher entry runs the hook script |
| CliInit.MatcherEntriesIdempotent | src/init.ts:369-380 | merging the entry list a second time changes nothing |
| CliInit.MatcherIdempotent | src/init.ts:361-387 | installing the hook twice leaves the settings as one install left them |
| CliInit.MatcherKeepsHooks | src/init.ts:373-379 | every hook the matcher entry listed stays listed |

## Left out

- `readStdin`, console output, exit codes and `--json` / `--verbose` output of src/cli.ts: I/O and `JSON.stringify`; the piped text is a parameter, already trimmed, and each command's outcome is a datatype.
- The `detect-context`, `init`, `pack list`, `pack show` and `pack import` commands of src/cli.ts: they print or copy what the modelled operations compute.
- The top-level error reporter of src/cli.ts and `handleError` / `isBebopError` of src/errors.ts: console output and `process.exit`.
- The error factories of src/errors.ts other than `PACK_NOT_FOUND` and `ENFORCEMENT_FAILED`: they share the shape `ToString` renders and are not raised by the modelled operations.
- `PackRegistry.listAvailable`: a directory scan used only to print the pack list.
- `appendUsage`, `getUsageLogPath`, `getSessionStatePath` and the session state reader and writer: file I/O; the log text and the session state map are parameters.
- `startSession`'s session id and timestamp: they come from the clock and `Math.random`, so the new session is a parameter.
- `averageSavingsPct` and the compiler's `savings` statistic: rounded floating-point percentages.
- `detectAiTools`, `commandExists` and `detectGitContext`'s branch lookup: `execSync`; the detected tools and the branch name are parameters.
- `installClaudeHook`, `installCursorHook`, `installOpencodePlugin` and `writeHookScript`: directory creation, file writes and `chmod`; whether an installer fails is a parameter, and their overwrite guard and settings merge are modelled.
- The text of the hook script, opencode plugin, alias functions and bundled templates: opaque strings; the alias template is a parameter.
- `ShellExecuteTool`: child processes and timers.
- The JavaScript regular-expression engine: enforcement patterns are tested through an engine parameter; the service-name patterns and globs are matched by hand-written equivalents.
- Glob `?`: it is not escaped by `globToRegExp` and would act as a regular-expression quantifier; the model treats it as a literal character.
- Workspace.FindGitRoot: paths are absolute and resolved. A relative `--cwd`, which src/cli.ts:102-109 hands to `detect` unresolved, makes the source's `path.dirname` walk stop at `.`, so it never finds a `.git` above the process directory; the model climbs all 50 levels. `Workspace.Detect` and `ContextDetector.Detect` inherit this.
- Lower-casing is ASCII only (`A`-`Z`); Unicode case mapping is not modelled.
- `JSON.parse`, YAML parsing and `Date.parse`: parameters returning `None` where the source would throw or get `NaN`.
- JSON and YAML numbers are integers only (`JNum` holds an `int`): a number with a fraction or exponent cannot be represented, so a parser oracle has to reject such input or give it another shape. A fractional `max_constraints` (which `slice` would truncate) is therefore not modelled.
- Registry.VersionsMatch: a numeric pack or request version is an integer; a YAML `version: 1.5`, which the source renders as `1.5`, is outside the model.
- Prototype properties of parsed JSON objects (`"constructor" in obj`) and the integer-key ordering of `Object.keys`: the model's objects hold only their own keys.
- The `minConfidence` field of the selector's configuration: it is never read.
- A context supplied with `--context` is used without any check of its shape; a parameter decodes the fields the selector and compiler read.
- src/init.ts shares with packages/core/src/init.ts, line for line, the registry directories, template copying, tool detection, integration bookkeeping, shell-alias candidates and marker-block upsert; those are modelled once, in `Init`, `Integration` and `MarkerBlock`. Its `initRegistry` has no AGENTS.md step, so `Init.AgentsUpdate` and its lemmas describe the core package only. Its alias-function template and hook-script text differ from the core's, but both are opaque strings here (the template is a parameter) and the overwrite guards test the same markers. Its settings merge differs and is modelled in `CliInit`.
- MarkerBlock.Upsert: a `$` pattern inside the alias block would be expanded by `String.prototype.replace`; the model inserts the block literally.
- HookSettings.MergeIdempotent: requires the script path to contain `bebop`, as the installed `bebop-hook.sh` path always does; for other paths the merge would add a second entry.
- HookSettings.MergedEntriesIdempotent: the same requirement as `HookSettings.MergeIdempotent`.
- HookSettings.MergeInstallsHook: the same requirement as `HookSettings.MergeIdempotent`.
- Init.AgentsAppendOnce: stated for bundled text that carries the agents marker, as the shipped AGENTS.md does; other bundled text would be appended again on every run.
- MarkerBlock.UpsertIdempotent: requires the block not to contain the end marker, and a file holding the start marker to hold the end marker too; otherwise the second write can replace a different span than the first wrote.
- Cli.ParsePacksInput: the source hands on the elements of a parsed array as they are; the model converts each with `String()`, which leaves strings unchanged.
- Three unit tests of the directive parser expect `&use core example` to become `core/example`; the parser only accepts tokens holding `/`, and the model follows the parser.

## Findings

| source | as written | input that shows it | evidently intended | confidence | as-written member | corrected member |
|---|---|---|---|---|---|---|
| packages/core/src/tools/index.ts:40-45 | a file over 2000 estimated tokens is always cut to its first and last 30 lines, however few lines it has | a single line of 1540 one-letter words (2002 estimated tokens) comes back twice, around `... (-59 lines omitted) ...` | cut only a file with more than 60 lines, so that the marker counts the lines actually left out | not executed | Tools.OneLineShownTwice | Tools.CutFileLines |
