/** `PromptCompiler.compile` (src/prompt-compiler.ts): the selected packs are
    loaded, their rules filtered by `applies_when`, the user input checked
    against the rules' enforcement patterns, and the surviving rules, cut to
    the configured limit, rendered below the task. */
module Compiler {
  import opened Wrappers
  import opened Text
  import opened Seqs
  import opened Js
  import opened FsUtils
  import opened ContextTypes
  import opened Config
  import opened Registry
  import opened Enforcement
  import opened Errors

  /** `CompiledConstraint`: the rule id and text and the id of its pack. */
  datatype Constraint = Constraint(id: string, text: string, source: Value)

  datatype PromptContext = PromptContext(project: string, service: Option<string>, framework: Option<string>)

  /** `stats` without `savings`, a rounded floating-point percentage. */
  datatype Stats = Stats(originalTokens: nat, compiledTokens: nat, ruleCount: nat, missingPacks: seq<string>)

  datatype CompiledPrompt = CompiledPrompt(
    task: string,
    constraints: seq<Constraint>,
    context: PromptContext,
    stats: Stats,
    enforcementWarnings: seq<Entry>,
    formatted: string)

  /** Why `compile` rejects: the registry threw while loading, or the
      compiler raised a `BebopError`. */
  datatype CompileError = LoadFailed(reason: string) | Raised(error: BebopError)

  /** What the compiler takes from the host: the path separator and
      `path.join(p, '')`. */
  datatype Platform = Platform(sep: char, join: string -> string)

  /** The registry the compiler loads from. */
  datatype Store = Store(fs: Fs, dirs: seq<Path>, parse: YamlParser)

  /** One pack's rules, each tagged with the pack's id. */
  function Tagged(p: Pack): (r: seq<SourcedRule>)
    ensures |r| == |p.rules|
    ensures forall i :: 0 <= i < |r| ==> r[i] == SourcedRule(p.rules[i], p.id)
  {
    seq(|p.rules|, i requires 0 <= i < |p.rules| => SourcedRule(p.rules[i], p.id))
  }

  /** `packs.flatMap(pack => pack.rules.map(rule => ({ ...rule, _pack: pack.id })))`. */
  function AllRules(packs: seq<Pack>): (r: seq<SourcedRule>)
    ensures forall sr :: sr in r <==> exists p :: p in packs && sr.rule in p.rules && sr.pack == p.id
    decreases |packs|
  {
    if packs == [] then []
    else
      var head := Tagged(packs[0]);
      var rest := AllRules(packs[1..]);
      assert forall sr :: sr in head <==> sr.rule in packs[0].rules && sr.pack == packs[0].id by {
        forall sr ensures sr in head <==> sr.rule in packs[0].rules && sr.pack == packs[0].id {
          if sr.rule in packs[0].rules && sr.pack == packs[0].id {
            var i :| 0 <= i < |packs[0].rules| && packs[0].rules[i] == sr.rule;
            assert head[i] == sr;
          }
        }
      }
      assert forall p :: p in packs <==> p == packs[0] || p in packs[1..];
      head + rest
  }

  /** `s.map(x => x.toLowerCase())`. */
  function LowerAll(ss: seq<string>): (r: seq<string>)
    ensures |r| == |ss|
    ensures forall i :: 0 <= i < |ss| ==> r[i] == Lower(ss[i])
  {
    seq(|ss|, i requires 0 <= i < |ss| => Lower(ss[i]))
  }

  /** Some wanted language is one of the project's, ignoring case. */
  predicate LanguagesMatch(wanted: seq<string>, project: seq<string>) {
    exists i :: 0 <= i < |wanted| && Lower(wanted[i]) in LowerAll(project)
  }

  /** `context.workspace?.relativeCwd || '.'`. */
  function RelativeCwd(ctx: DetectedContext): (r: string)
    ensures r != ""
  {
    if ctx.workspace.Some? && ctx.workspace.value.relativeCwd != "" then ctx.workspace.value.relativeCwd else "."
  }

  /** The relative directory as written and as `path.join` normalises it,
      backslashes turned into slashes. */
  function Candidates(ctx: DetectedContext, plat: Platform): (r: seq<string>)
    ensures |r| == 2
  {
    var rel := RelativeCwd(ctx);
    [NormalizePath(rel, '\\'), NormalizePath(plat.join(rel), '\\')]
  }

  /** Some path pattern matches some candidate. */
  predicate PathsMatch(patterns: seq<string>, candidates: seq<string>, sep: char) {
    exists i, j :: 0 <= i < |patterns| && 0 <= j < |candidates| && MatchesGlob(patterns[i], candidates[j], sep)
  }

  /** A non-empty `languages` list is a requirement. */
  predicate WantsLanguages(aw: AppliesWhen) {
    aw.languages.Some? && |aw.languages.value| > 0
  }

  /** A non-empty `paths` list is a requirement. */
  predicate WantsPaths(aw: AppliesWhen) {
    aw.paths.Some? && |aw.paths.value| > 0
  }

  /** The `checks` array: one entry per requirement, languages first. */
  function Checks(aw: AppliesWhen, ctx: DetectedContext, plat: Platform): (r: seq<bool>)
    ensures |r| <= 2
    ensures r == [] <==> !WantsLanguages(aw) && !WantsPaths(aw)
    ensures ((forall i :: 0 <= i < |r| ==> r[i])
             <==> (WantsLanguages(aw) ==> LanguagesMatch(aw.languages.value, ctx.project.language))
                  && (WantsPaths(aw) ==> PathsMatch(aw.paths.value, Candidates(ctx, plat), plat.sep)))
  {
    var languages := WantsLanguages(aw) ==> LanguagesMatch(aw.languages.value, ctx.project.language);
    var paths := WantsPaths(aw) ==> PathsMatch(aw.paths.value, Candidates(ctx, plat), plat.sep);
    CheckList(WantsLanguages(aw), languages, WantsPaths(aw), paths)
  }

  /** The checks of the requirements that are stated, in order. */
  function CheckList(wantsLanguages: bool, languages: bool, wantsPaths: bool, paths: bool): (r: seq<bool>)
    requires !wantsLanguages ==> languages
    requires !wantsPaths ==> paths
    ensures |r| <= 2
    ensures r == [] <==> !wantsLanguages && !wantsPaths
    ensures (forall i :: 0 <= i < |r| ==> r[i]) <==> languages && paths
  {
    if wantsLanguages && wantsPaths then
      var both := [languages, paths];
      assert (forall i :: 0 <= i < |both| ==> both[i]) ==> both[0] && both[1];
      both
    else if wantsLanguages then
      var one := [languages];
      assert (forall i :: 0 <= i < |one| ==> one[i]) ==> one[0];
      one
    else if wantsPaths then
      var one := [paths];
      assert (forall i :: 0 <= i < |one| ==> one[i]) ==> one[0];
      one
    else []
  }

  /** `ruleApplies(rule, context)`: a rule applies exactly when each
      requirement it states is met. */
  function RuleApplies(rule: PackRule, ctx: DetectedContext, plat: Platform): (r: bool)
    ensures rule.appliesWhen.None? ==> r
    ensures rule.appliesWhen.Some? ==>
      var aw := rule.appliesWhen.value;
      (r <==> (WantsLanguages(aw) ==> LanguagesMatch(aw.languages.value, ctx.project.language))
              && (WantsPaths(aw) ==> PathsMatch(aw.paths.value, Candidates(ctx, plat), plat.sep)))
  {
    match rule.appliesWhen
    case None => true
    case Some(aw) =>
      var checks := Checks(aw, ctx, plat);
      if aw.any == Some(true) && checks == [] then true
      else if checks == [] then true
      else forall i :: 0 <= i < |checks| ==> checks[i]
  }

  /** `any: true` changes nothing: without requirements a rule applies
      either way, and with requirements the flag is not read. */
  lemma AnyIsIgnored(rule: PackRule, ctx: DetectedContext, plat: Platform, any: Option<bool>)
    requires rule.appliesWhen.Some?
    ensures RuleApplies(rule.(appliesWhen := Some(rule.appliesWhen.value.(any := any))), ctx, plat)
      == RuleApplies(rule, ctx, plat)
  {
  }

  /** The rules that apply, in order. */
  function Filter(rules: seq<SourcedRule>, ctx: DetectedContext, plat: Platform): (r: seq<SourcedRule>)
    ensures r == Keep(rules, AppliesIn(ctx, plat))
    ensures forall sr :: sr in r <==> sr in rules && RuleApplies(sr.rule, ctx, plat)
    ensures IsSubseq(r, rules)
    decreases |rules|
  {
    KeepMembers(rules, AppliesIn(ctx, plat));
    if rules == [] then []
    else
      var rest := Filter(rules[1..], ctx, plat);
      if RuleApplies(rules[0].rule, ctx, plat) then [rules[0]] + rest
      else rest
  }

  /** The test `filterRules` applies to a sourced rule. */
  function AppliesIn(ctx: DetectedContext, plat: Platform): SourcedRule -> bool {
    (sr: SourcedRule) => RuleApplies(sr.rule, ctx, plat)
  }

  /** Filtering an already filtered list changes nothing. */
  lemma FilterIdempotent(rules: seq<SourcedRule>, ctx: DetectedContext, plat: Platform)
    ensures Filter(Filter(rules, ctx, plat), ctx, plat) == Filter(rules, ctx, plat)
  {
    KeepIdempotent(rules, AppliesIn(ctx, plat));
  }

  /** `config?.compilation?.include_all_rules ?? false`. */
  function IncludeAllRules(config: Option<AutoConfig>): bool {
    if config.Some? && config.value.compilation.Some? then config.value.compilation.value.includeAllRules.GetOr(false)
    else false
  }

  /** `compilation.max_constraints ?? packs.max_constraints ?? 15`. */
  function MaxConstraints(config: Option<AutoConfig>): int {
    var fromCompilation :=
      if config.Some? && config.value.compilation.Some? then config.value.compilation.value.maxConstraints else None;
    var fromPacks := if config.Some? && config.value.packs.Some? then config.value.packs.value.maxConstraints else None;
    if fromCompilation.Some? then fromCompilation.value
    else fromPacks.GetOr(15)
  }

  /** Which limit wins: the compilation section's, then the packs
      section's (a zero counts as set), then 15. */
  lemma LimitPrecedence(config: AutoConfig)
    ensures config.compilation.Some? && config.compilation.value.maxConstraints.Some? ==>
      MaxConstraints(Some(config)) == config.compilation.value.maxConstraints.value
    ensures ((config.compilation.None? || config.compilation.value.maxConstraints.None?)
             && config.packs.Some? && config.packs.value.maxConstraints.Some?) ==>
      MaxConstraints(Some(config)) == config.packs.value.maxConstraints.value
    ensures ((config.compilation.None? || config.compilation.value.maxConstraints.None?)
             && (config.packs.None? || config.packs.value.maxConstraints.None?)) ==>
      MaxConstraints(Some(config)) == 15
  {
  }

  /** `s.slice(0, n)`: a negative end counts back from the end. */
  function Slice<T>(s: seq<T>, n: int): (r: seq<T>)
    ensures |r| <= |s| && r == s[..|r|]
    ensures n >= 0 ==> |r| == if n < |s| then n else |s|
    ensures n < 0 ==> |r| == if -n < |s| then |s| + n else 0
  {
    if n >= 0 then (if n < |s| then s[..n] else s)
    else if -n < |s| then s[..|s| + n]
    else []
  }

  function ToConstraint(sr: SourcedRule): Constraint {
    Constraint(sr.rule.id, sr.rule.text, sr.pack)
  }

  function ToConstraints(rules: seq<SourcedRule>): (r: seq<Constraint>)
    ensures |r| == |rules|
    ensures forall i :: 0 <= i < |rules| ==> r[i] == ToConstraint(rules[i])
  {
    seq(|rules|, i requires 0 <= i < |rules| => ToConstraint(rules[i]))
  }

  /** One `- [id] text (pack)` line. */
  function ConstraintLine(c: Constraint): string {
    "- [" + c.id + "] " + c.text + " (" + ToJsString(c.source) + ")"
  }

  /** The closing `Context:` line. */
  function ContextLine(ctx: DetectedContext): string {
    "Context: " + ctx.project.ptype.Name()
      + (if Set(ctx.project.framework) then " (" + ctx.project.framework.value + ")" else "")
      + (if Set(ctx.service.name) then ", service " + ctx.service.name.value else "")
  }

  /** The lines `formatCompiledPrompt` joins. */
  function PromptLines(userInput: string, constraints: seq<Constraint>, ctx: DetectedContext): (r: seq<string>)
    ensures |r| == 5 + (if constraints == [] then 1 else |constraints|)
  {
    ["Task: " + userInput, "", "Active constraints:"]
      + (if constraints == [] then ["- (no constraints selected)"]
         else seq(|constraints|, i requires 0 <= i < |constraints| => ConstraintLine(constraints[i])))
      + ["", ContextLine(ctx)]
  }

  /** `formatCompiledPrompt(userInput, constraints, context)`. */
  function FormatCompiledPrompt(userInput: string, constraints: seq<Constraint>, ctx: DetectedContext): (r: string)
    ensures StartsWith(r, "Task: " + userInput)
  {
    var lines := PromptLines(userInput, constraints, ctx);
    JoinStartsWithFirst(lines, "\n");
    Join(lines, "\n")
  }

  /** A join starts with its first part. */
  lemma {:induction false} JoinStartsWithFirst(parts: seq<string>, sep: string)
    requires parts != []
    ensures StartsWith(Join(parts, sep), parts[0])
  {
    if |parts| > 1 {
      var j := Join(parts, sep);
      assert j == parts[0] + (sep + Join(parts[1..], sep));
      assert j[..|parts[0]|] == parts[0];
    }
  }

  /** Nothing the prompt is built from holds a line break. */
  predicate SingleLineInputs(userInput: string, constraints: seq<Constraint>, ctx: DetectedContext) {
    && '\n' !in userInput
    && (forall i :: 0 <= i < |constraints| ==>
          '\n' !in constraints[i].id && '\n' !in constraints[i].text && '\n' !in ToJsString(constraints[i].source))
    && (ctx.project.framework.Some? ==> '\n' !in ctx.project.framework.value)
    && (ctx.service.name.Some? ==> '\n' !in ctx.service.name.value)
  }

  /** The formatted prompt reads back line by line: the task, a blank line,
      the header, one line per constraint (or the placeholder), a blank line
      and the context line. */
  lemma FormattedLines(userInput: string, constraints: seq<Constraint>, ctx: DetectedContext)
    requires SingleLineInputs(userInput, constraints, ctx)
    ensures Split(FormatCompiledPrompt(userInput, constraints, ctx), '\n') == PromptLines(userInput, constraints, ctx)
  {
    var head := ["Task: " + userInput, "", "Active constraints:"];
    var body := if constraints == [] then ["- (no constraints selected)"]
      else seq(|constraints|, i requires 0 <= i < |constraints| => ConstraintLine(constraints[i]));
    var foot := ["", ContextLine(ctx)];
    var lines := head + body + foot;
    assert lines == PromptLines(userInput, constraints, ctx);
    ContextLineSingle(ctx);
    forall k | 0 <= k < |body| ensures '\n' !in body[k] {
      if constraints != [] {
        ConstraintLineSingle(constraints[k]);
      }
    }
    forall k | 0 <= k < |lines| ensures '\n' !in lines[k] {
      if k < 3 {
        assert lines[k] == head[k];
      } else if k < 3 + |body| {
        assert lines[k] == body[k - 3];
      } else {
        assert lines[k] == foot[k - 3 - |body|];
      }
    }
    SplitJoin(lines, '\n');
  }

  lemma ConstraintLineSingle(c: Constraint)
    requires '\n' !in c.id && '\n' !in c.text && '\n' !in ToJsString(c.source)
    ensures '\n' !in ConstraintLine(c)
  {
  }

  lemma ContextLineSingle(ctx: DetectedContext)
    requires ctx.project.framework.Some? ==> '\n' !in ctx.project.framework.value
    requires ctx.service.name.Some? ==> '\n' !in ctx.service.name.value
    ensures '\n' !in ContextLine(ctx)
  {
    assert '\n' !in ctx.project.ptype.Name();
  }

  /** `Math.max(1, Math.ceil(words * 1.3))`, in exact arithmetic: the least
      whole number of tokens at least 1.3 per word, and never below 1. */
  function EstimateTokens(text: string): (r: nat)
    ensures r >= 1
    ensures |Words(text)| > 0 ==> 10 * r >= 13 * |Words(text)| && 10 * (r - 1) < 13 * |Words(text)|
  {
    var w := |Words(text)|;
    var t := (13 * w + 9) / 10;
    if t < 1 then 1 else t
  }

  /** More words never mean fewer tokens. */
  lemma EstimateMonotone(a: string, b: string)
    requires |Words(a)| <= |Words(b)|
    ensures EstimateTokens(a) <= EstimateTokens(b)
  {
  }

  /** What the compiler passes on about each violation. */
  function Summaries(entries: seq<Entry>): (r: seq<ViolationSummary>)
    ensures |r| == |entries|
    ensures forall i :: 0 <= i < |entries| ==>
      r[i] == ViolationSummary(entries[i].ruleId, entries[i].packId, entries[i].etype)
  {
    seq(|entries|, i requires 0 <= i < |entries| => ViolationSummary(entries[i].ruleId, entries[i].packId, entries[i].etype))
  }

  /** The rules `compile` works with after filtering. */
  function Applicable(all: seq<SourcedRule>, config: Option<AutoConfig>, ctx: DetectedContext, plat: Platform): seq<SourcedRule> {
    if IncludeAllRules(config) then all else Filter(all, ctx, plat)
  }

  /** The enforcement hits at `level`, none when enforcement is off. */
  function Found(input: string, rules: seq<SourcedRule>, engine: RegexEngine, enforce: bool, level: Level): seq<Entry> {
    if enforce then AtLevel(Entries(input, rules, engine), level) else []
  }

  /** `compile(userInput, context, selectedPacks, { enforce })`. */
  function Compile(store: Store, plat: Platform, engine: RegexEngine, config: Option<AutoConfig>,
                   userInput: string, ctx: DetectedContext, selected: seq<string>, enforce: Option<bool>)
    : (r: Result<CompiledPrompt, CompileError>)
    ensures (r.Err? && r.error.LoadFailed?) <==> LoadPacks(store.fs, store.dirs, store.parse, selected).Err?
    ensures r.Err? && r.error.Raised? ==> r.error.error.code == "ENFORCEMENT_FAILED"
    ensures r.Ok? ==> r.value.task == userInput && r.value.stats.ruleCount == |r.value.constraints|
    ensures r.Ok? ==> r.value.stats.compiledTokens >= 1 && r.value.stats.originalTokens >= 1
    ensures r.Ok? ==> r.value.stats.missingPacks == LoadPacks(store.fs, store.dirs, store.parse, selected).value.missing
  {
    match LoadPacks(store.fs, store.dirs, store.parse, selected)
    case Err(e) => Err(LoadFailed(e))
    case Ok(loaded) =>
      var all := AllRules(loaded.packs);
      var applicable := Applicable(all, config, ctx, plat);
      var on := enforce.GetOr(true);
      var violations := Found(userInput, applicable, engine, on, Block);
      if |violations| > 0 then Err(Raised(EnforcementFailed(Summaries(violations))))
      else
        var constraints := ToConstraints(Slice(applicable, MaxConstraints(config)));
        var formatted := FormatCompiledPrompt(userInput, constraints, ctx);
        var unfiltered := FormatCompiledPrompt(userInput, ToConstraints(all), ctx);
        Ok(CompiledPrompt(
          userInput,
          constraints,
          PromptContext(ctx.project.ptype.Name(), ctx.service.name, ctx.project.framework),
          Stats(EstimateTokens(if unfiltered != "" then unfiltered else userInput), EstimateTokens(formatted),
                |constraints|, loaded.missing),
          Found(userInput, applicable, engine, on, Warn),
          formatted))
  }

  /** The registry's answer for the selected packs. */
  function Load(store: Store, selected: seq<string>): Result<LoadResult, string> {
    LoadPacks(store.fs, store.dirs, store.parse, selected)
  }

  /** The rules `compile` filters once the packs have loaded. */
  function ApplicableRules(store: Store, plat: Platform, config: Option<AutoConfig>, ctx: DetectedContext,
                           selected: seq<string>): seq<SourcedRule>
    requires Load(store, selected).Ok?
  {
    Applicable(AllRules(Load(store, selected).value.packs), config, ctx, plat)
  }

  /** With enforcement on (the default), `compile` throws
      `ENFORCEMENT_FAILED` exactly when some applicable rule has a blocking
      pattern that matches the input, and the error lists those hits. */
  lemma RejectsExactlyOnBlockingHits(store: Store, plat: Platform, engine: RegexEngine, config: Option<AutoConfig>,
                                     userInput: string, ctx: DetectedContext, selected: seq<string>)
    requires Load(store, selected).Ok?
    ensures var rules := ApplicableRules(store, plat, config, ctx, selected);
      var hits := AtLevel(Entries(userInput, rules, engine), Block);
      && (Compile(store, plat, engine, config, userInput, ctx, selected, None).Err?
          <==> exists e :: e in Entries(userInput, rules, engine) && e.level == Block)
      && (hits != [] ==>
          Compile(store, plat, engine, config, userInput, ctx, selected, None)
            == Err(Raised(EnforcementFailed(Summaries(hits)))))
  {
    var rules := ApplicableRules(store, plat, config, ctx, selected);
    var hits := AtLevel(Entries(userInput, rules, engine), Block);
    if hits != [] {
      assert hits[0] in hits;
    }
  }

  /** With `enforce: false` nothing is tested: `compile` succeeds whenever
      the packs load, and reports no warnings. */
  lemma DisabledEnforcementNeverRejects(store: Store, plat: Platform, engine: RegexEngine, config: Option<AutoConfig>,
                                        userInput: string, ctx: DetectedContext, selected: seq<string>)
    ensures var r := Compile(store, plat, engine, config, userInput, ctx, selected, Some(false));
      && (r.Ok? <==> Load(store, selected).Ok?)
      && (r.Ok? ==> r.value.enforcementWarnings == [])
  {
  }

  /** A successful compile reports as warnings exactly the `warn`-level hits
      of the applicable rules. */
  lemma WarningsAreWarnHits(store: Store, plat: Platform, engine: RegexEngine, config: Option<AutoConfig>,
                            userInput: string, ctx: DetectedContext, selected: seq<string>)
    requires Compile(store, plat, engine, config, userInput, ctx, selected, None).Ok?
    ensures Load(store, selected).Ok?
    ensures forall e :: (e in Compile(store, plat, engine, config, userInput, ctx, selected, None).value.enforcementWarnings
      <==> e in Entries(userInput, ApplicableRules(store, plat, config, ctx, selected), engine) && e.level == Warn)
  {
  }

  /** The constraints are the applicable rules in order, cut to the limit
      as `slice(0, limit)` cuts: the first `limit` rules that apply (all of
      them when fewer apply), counting back from the end for a negative
      limit; without configuration, the first 15. */
  lemma ConstraintsAreLeadingApplicableRules(store: Store, plat: Platform, engine: RegexEngine, config: Option<AutoConfig>,
                                             userInput: string, ctx: DetectedContext, selected: seq<string>,
                                             enforce: Option<bool>)
    ensures var r := Compile(store, plat, engine, config, userInput, ctx, selected, enforce);
      r.Ok? ==> Load(store, selected).Ok? && var cs := r.value.constraints;
      var rules := ApplicableRules(store, plat, config, ctx, selected);
      && |cs| <= |rules|
      && (forall i :: 0 <= i < |cs| ==> cs[i] == ToConstraint(rules[i]))
      && (MaxConstraints(config) >= 0 ==>
            |cs| == if MaxConstraints(config) < |rules| then MaxConstraints(config) else |rules|)
      && (MaxConstraints(config) < 0 ==>
            |cs| == if -MaxConstraints(config) < |rules| then |rules| + MaxConstraints(config) else 0)
      && (config.None? ==> |cs| == if |rules| < 15 then |rules| else 15)
  {
  }

  /** What a successful compile reports beside its constraints: the prompt
      formatted from the task, those constraints and the context; its token
      estimate; the estimate of the prompt every loaded rule would give (of
      the bare task when that prompt is empty, which it never is, as it
      opens with `Task: `); and the context summary. */
  lemma CompiledFields(store: Store, plat: Platform, engine: RegexEngine, config: Option<AutoConfig>,
                       userInput: string, ctx: DetectedContext, selected: seq<string>, enforce: Option<bool>)
    ensures var r := Compile(store, plat, engine, config, userInput, ctx, selected, enforce);
      r.Ok? ==> Load(store, selected).Ok? && var c := r.value;
      var unfiltered := FormatCompiledPrompt(userInput, ToConstraints(AllRules(Load(store, selected).value.packs)), ctx);
      && c.formatted == FormatCompiledPrompt(userInput, c.constraints, ctx)
      && c.stats.compiledTokens == EstimateTokens(c.formatted)
      && c.stats.originalTokens == EstimateTokens(if unfiltered != "" then unfiltered else userInput)
      && c.stats.originalTokens == EstimateTokens(unfiltered)
      && c.context == PromptContext(ctx.project.ptype.Name(), ctx.service.name, ctx.project.framework)
  {
  }

  /** Unless `include_all_rules` is set, every constraint comes from a rule
      of a loaded pack whose `applies_when` the context meets. */
  lemma ConstraintsApply(store: Store, plat: Platform, engine: RegexEngine, config: Option<AutoConfig>,
                         userInput: string, ctx: DetectedContext, selected: seq<string>, enforce: Option<bool>)
    requires Compile(store, plat, engine, config, userInput, ctx, selected, enforce).Ok?
    requires !IncludeAllRules(config)
    ensures Load(store, selected).Ok?
    ensures forall c :: c in Compile(store, plat, engine, config, userInput, ctx, selected, enforce).value.constraints ==>
      exists sr :: sr in AllRules(Load(store, selected).value.packs) && RuleApplies(sr.rule, ctx, plat) && c == ToConstraint(sr)
  {
    var cs := Compile(store, plat, engine, config, userInput, ctx, selected, enforce).value.constraints;
    var rules := ApplicableRules(store, plat, config, ctx, selected);
    ConstraintsAreLeadingApplicableRules(store, plat, engine, config, userInput, ctx, selected, enforce);
    forall c | c in cs
      ensures exists sr :: sr in AllRules(Load(store, selected).value.packs) && RuleApplies(sr.rule, ctx, plat) && c == ToConstraint(sr)
    {
      var i :| 0 <= i < |cs| && cs[i] == c;
      assert rules[i] in rules;
    }
  }
}
