/** The decisions of the command-line front end (src/cli.ts): where the task
    text comes from, how the pack list is chosen, whether enforcement runs,
    and the `hook compile`, `compile` and `select-packs` pipelines built
    from the detector, selector and compiler. Standard input, the
    configuration file and the process environment are parameters. */
module Cli {
  import opened Wrappers
  import opened Text
  import opened Js
  import opened FsUtils
  import opened ContextTypes
  import opened Config
  import opened Directives
  import PackSelector
  import ContextDetector
  import Registry
  import Compiler
  import Enforcement

  /** `JSON.parse`, with `None` where it throws. */
  type JsonParser = string -> Option<Value>

  /** The variadic `[task...]` argument as commander hands it over. */
  datatype Args = NoArgs | OneArg(s: string) | ArgList(items: seq<string>)

  /** `Array.isArray(args) ? args : args ? [args] : []`. */
  function ArgWords(args: Args): seq<string> {
    match args
    case NoArgs => []
    case OneArg(s) => if s != "" then [s] else []
    case ArgList(items) => items
  }

  /** `getInputFromArgs(args, fallback)`: the fallback when it is non-empty,
      otherwise the positional words joined by single spaces. */
  function GetInputFromArgs(args: Args, fallback: string): (r: string)
    ensures fallback != "" ==> r == fallback
    ensures fallback == "" && ArgWords(args) == [] ==> r == ""
    ensures fallback == "" && ArgWords(args) != [] ==> r == Join(ArgWords(args), " ")
  {
    if fallback != "" then fallback
    else
      var list := ArgWords(args);
      if |list| > 0 then Join(list, " ") else ""
  }

  /** Without `--input` or piped text, the task is the positional words:
      splitting it on white space gives them back. */
  lemma TaskWordsRoundTrip(words: seq<string>)
    requires forall i :: 0 <= i < |words| ==> |words[i]| > 0 && NoSep(words[i], Whitespace)
    ensures Words(GetInputFromArgs(ArgList(words), "")) == words
  {
    FieldsOfJoin(words, Whitespace);
  }

  /** `options.input || stdinInput || ''`, where the piped text has been
      trimmed by `readStdin`. */
  function OptionOrStdin(input: Option<string>, stdin: string): (r: string)
    ensures input.Some? && input.value != "" ==> r == input.value
    ensures (input.None? || input.value == "") ==> r == Trim(stdin)
  {
    if input.Some? && input.value != "" then input.value else Trim(stdin)
  }

  /** `parsePacksInput(input)`: a JSON array, an object's `packs` array, or
      else the non-empty pieces between runs of commas and white space. */
  function ParsePacksInput(input: Option<string>, parse: JsonParser): (r: seq<string>)
    ensures input.None? || input.value == "" ==> r == []
    ensures input.Some? && input.value != "" && parse(input.value).None? ==>
      && r == Fields(input.value, CommaOrWhitespace)
      && (forall i :: 0 <= i < |r| ==> |r[i]| > 0 && NoSep(r[i], CommaOrWhitespace))
    ensures input.Some? && input.value != "" && parse(input.value).Some? && parse(input.value).value.JArr? ==>
      r == Strings(parse(input.value).value.items)
  {
    if input.None? || input.value == "" then []
    else match parse(input.value)
      case None => Fields(input.value, CommaOrWhitespace)
      case Some(v) =>
        if v.JArr? then Strings(v.items)
        else if Truthy(v) && Get(v, "packs").Some? && Get(v, "packs").value.JArr? then Strings(Get(v, "packs").value.items)
        else Fields(input.value, CommaOrWhitespace)
  }

  /** A pack list written as space-separated ids that is not JSON comes
      back as the same list. */
  lemma PackListRoundTrip(packs: seq<string>, parse: JsonParser)
    requires forall i :: 0 <= i < |packs| ==> |packs[i]| > 0 && NoSep(packs[i], CommaOrWhitespace)
    requires parse(Join(packs, " ")).None?
    ensures ParsePacksInput(Some(Join(packs, " ")), parse) == packs
  {
    FieldsOfJoin(packs, CommaOrWhitespace);
  }

  /** A JSON object whose `packs` is an array gives that array. */
  lemma PacksFieldRead(input: string, parse: JsonParser, fields: map<string, Value>, items: seq<Value>)
    requires input != "" && parse(input) == Some(JObj(fields))
    requires "packs" in fields && fields["packs"] == JArr(items)
    ensures ParsePacksInput(Some(input), parse) == Strings(items)
  {
  }

  /** `shouldEnforce(options)`. */
  function ShouldEnforce(enforce: Option<bool>, env: Env): (r: bool)
    ensures !r <==> enforce == Some(false) || ("BEBOP_ENFORCE" in env && env["BEBOP_ENFORCE"] == "0")
  {
    if enforce == Some(false) then false
    else if "BEBOP_ENFORCE" in env && env["BEBOP_ENFORCE"] == "0" then false
    else true
  }

  /** Where the context comes from: a `--context` value that parses to a
      truthy JSON value is used as it is; otherwise the detector runs. */
  datatype ContextSource = Supplied(value: Value) | Detected(ctx: DetectedContext)

  /** `resolveContext(contextArg, cwd, input)`. */
  function ResolveContext(contextArg: Option<string>, parse: JsonParser, fs: Fs, detect: ContextDetector.DetectInputs,
                          input: string): (r: ContextSource)
    ensures r.Supplied? <==> contextArg.Some? && contextArg.value != "" && TruthyOpt(parse(contextArg.value))
    ensures r.Supplied? ==> Some(r.value) == parse(contextArg.value)
    ensures r.Detected? ==> r.ctx == ContextDetector.Detect(fs, detect.(userInput := Some(input)))
  {
    if contextArg.Some? && contextArg.value != "" && TruthyOpt(parse(contextArg.value)) then
      Supplied(parse(contextArg.value).value)
    else
      Detected(ContextDetector.Detect(fs, detect.(userInput := Some(input))))
  }

  /** A supplied context is used without any check of its shape; `decode`
      reads the fields the selector and compiler look at. */
  function ContextOf(source: ContextSource, decode: Value -> DetectedContext): DetectedContext {
    match source
    case Supplied(v) => decode(v)
    case Detected(ctx) => ctx
  }

  /** The pack list `resolvePacks` settles on and the text to compile. */
  datatype Resolution = Resolution(packs: seq<string>, cleanedInput: string)

  /** The directives `resolvePacks` works from: the ones handed in, else
      the input's own when directives are allowed, else none. */
  function DirectivesFor(input: string, allowDirectives: bool, parsed: Option<ParsedDirectives>): ParsedDirectives {
    match parsed
    case Some(p) => p
    case None => if allowDirectives then ParseDirectives(input) else ParsedDirectives([], input, false)
  }

  /** The selector's packs for a context. */
  function Selected(config: Option<AutoConfig>, ctx: DetectedContext): seq<string> {
    PackSelector.Select(config, PackSelector.DefaultRules, ctx).packs
  }

  /** `resolvePacks(packsArg, context, input, config, allowDirectives,
      parsedDirectives)`: directive packs first, then the `--packs` list,
      then the selector. */
  function ResolvePacks(packsArg: Option<string>, parse: JsonParser, ctx: DetectedContext, input: string,
                        config: Option<AutoConfig>, allowDirectives: bool, parsed: Option<ParsedDirectives>)
    : (r: Resolution)
    ensures var d := DirectivesFor(input, allowDirectives, parsed);
      && r.cleanedInput == (if d.cleanedInput != "" then d.cleanedInput else input)
      && (d.packs != [] ==> r.packs == d.packs)
      && (d.packs == [] && ParsePacksInput(packsArg, parse) != [] ==> r.packs == ParsePacksInput(packsArg, parse))
      && (d.packs == [] && ParsePacksInput(packsArg, parse) == [] ==> r.packs == Selected(config, ctx))
  {
    var d := DirectivesFor(input, allowDirectives, parsed);
    var cleanedInput := if d.cleanedInput != "" then d.cleanedInput else input;
    if |d.packs| > 0 then Resolution(d.packs, cleanedInput)
    else
      var fromArg := ParsePacksInput(packsArg, parse);
      if |fromArg| > 0 then Resolution(fromArg, cleanedInput)
      else Resolution(Selected(config, ctx), cleanedInput)
  }

  /** Packs named by directives in the input win over any `--packs` list
      and over the selector. */
  lemma DirectivePacksWin(packsArg1: Option<string>, packsArg2: Option<string>, parse: JsonParser,
                          ctx1: DetectedContext, ctx2: DetectedContext, input: string, config: Option<AutoConfig>)
    requires ParseDirectives(input).packs != []
    ensures ResolvePacks(packsArg1, parse, ctx1, input, config, true, None).packs
         == ResolvePacks(packsArg2, parse, ctx2, input, config, true, None).packs
         == ParseDirectives(input).packs
  {
  }

  /** With directives switched off the input is compiled as it stands,
      and the packs come from `--packs` or the selector only. */
  lemma NoDirectivesKeepsInput(packsArg: Option<string>, parse: JsonParser, ctx: DetectedContext, input: string,
                               config: Option<AutoConfig>)
    ensures var r := ResolvePacks(packsArg, parse, ctx, input, config, false, None);
      && r.cleanedInput == input
      && r.packs == (if ParsePacksInput(packsArg, parse) != [] then ParsePacksInput(packsArg, parse) else Selected(config, ctx))
  {
  }

  /** Everything a command reads from outside: piped text, environment,
      filesystem, home directory, configuration and the parsers and regular
      expression engine. */
  datatype Host = Host(
    stdin: string,
    env: Env,
    fs: Fs,
    home: Path,
    processCwd: Path,
    config: Option<AutoConfig>,
    json: JsonParser,
    yaml: Registry.YamlParser,
    decode: Value -> DetectedContext,
    detect: ContextDetector.DetectInputs,
    plat: Compiler.Platform,
    engine: Enforcement.RegexEngine)

  /** The options of `compile`, `compile-auto` and `hook compile`. */
  datatype Options = Options(
    context: Option<string>,
    packs: Option<string>,
    input: Option<string>,
    auto: bool,
    enforce: Option<bool>)

  /** What a compiling command does: exit with `No input provided.`, echo
      its input, or print the compiler's answer. */
  datatype Outcome = NoInput | Echoed(text: string) | Ran(result: Result<Compiler.CompiledPrompt, Compiler.CompileError>)

  /** `new PackRegistry({ workspaceRoot: context.workspace?.root })`. */
  function StoreFor(host: Host, ctx: DetectedContext): Compiler.Store {
    var root := if ctx.workspace.Some? then Some(ctx.workspace.value.root) else None;
    Compiler.Store(host.fs, Registry.RegistryDirs(host.home, root, host.processCwd, None), host.yaml)
  }

  /** Compiles `input` for the context and packs with the command's
      enforcement switch. */
  function CompileWith(host: Host, opts: Options, input: string, ctx: DetectedContext, packs: seq<string>)
    : Result<Compiler.CompiledPrompt, Compiler.CompileError>
  {
    Compiler.Compile(StoreFor(host, ctx), host.plat, host.engine, host.config, input, ctx, packs,
                     Some(ShouldEnforce(opts.enforce, host.env)))
  }

  /** The context a command works with. */
  function CommandContext(host: Host, opts: Options, input: string): DetectedContext {
    ContextOf(ResolveContext(opts.context, host.json, host.fs, host.detect, input), host.decode)
  }

  /** The text `hook compile` reads. */
  function HookInput(opts: Options, host: Host): string {
    OptionOrStdin(opts.input, host.stdin)
  }

  /** The marker of an already compiled prompt. */
  const ActiveConstraints: string := "Active constraints:"

  /** `hook compile`: a prompt that already holds compiled constraints
      passes through untouched; anything else is compiled for the selected
      packs. */
  function HookCompile(opts: Options, host: Host): (r: Outcome)
    ensures r.NoInput? <==> HookInput(opts, host) == ""
    ensures r.Echoed? <==> HookInput(opts, host) != "" && Contains(HookInput(opts, host), ActiveConstraints)
    ensures r.Echoed? ==> r.text == HookInput(opts, host)
    ensures r.Ran? && r.result.Ok? ==> r.result.value.task == HookInput(opts, host)
  {
    var input := HookInput(opts, host);
    if input == "" then NoInput
    else if Contains(input, ActiveConstraints) then Echoed(input)
    else
      var ctx := CommandContext(host, opts, input);
      Ran(CompileWith(host, opts, input, ctx, Selected(host.config, ctx)))
  }

  /** A compiled prompt carries the marker line. */
  lemma FormattedHasMarker(task: string, constraints: seq<Compiler.Constraint>, ctx: DetectedContext)
    ensures Contains(Compiler.FormatCompiledPrompt(task, constraints, ctx), ActiveConstraints)
  {
    var lines := Compiler.PromptLines(task, constraints, ctx);
    assert lines[2] == ActiveConstraints;
    var j := JoinPartAt(lines, "\n", 2);
    ContainsWitness(Join(lines, "\n"), ActiveConstraints, j);
  }

  /** Running the hook on its own output changes nothing: a compiled
      prompt fed back in is echoed as it is, without a second compile. */
  lemma HookIdempotent(opts: Options, host: Host, task: string, constraints: seq<Compiler.Constraint>,
                       ctx: DetectedContext)
    requires HookInput(opts, host) == Compiler.FormatCompiledPrompt(task, constraints, ctx)
    ensures HookCompile(opts, host) == Echoed(Compiler.FormatCompiledPrompt(task, constraints, ctx))
  {
    FormattedHasMarker(task, constraints, ctx);
    assert StartsWith(HookInput(opts, host), "Task: " + task);
  }

  /** The text `compile` reads: `--input`, else the piped text, else the
      positional words. */
  function CommandInput(args: Args, opts: Options, host: Host): string {
    GetInputFromArgs(args, OptionOrStdin(opts.input, host.stdin))
  }

  /** The directives `compile` reads; `--auto` ignores them. */
  function CommandDirectives(input: string, auto: bool): ParsedDirectives {
    if auto then ParsedDirectives([], input, false) else ParseDirectives(input)
  }

  /** The `compile` command (and, with `auto` set, `compile --auto`). */
  function CompileCommand(args: Args, opts: Options, host: Host): (r: Outcome)
    ensures r.NoInput? <==> CommandInput(args, opts, host) == ""
    ensures !r.Echoed?
  {
    var input := CommandInput(args, opts, host);
    if input == "" then NoInput
    else
      var parsed := CommandDirectives(input, opts.auto);
      var cleanedInput := if parsed.cleanedInput != "" then parsed.cleanedInput else input;
      var ctx := CommandContext(host, opts, cleanedInput);
      var resolution := ResolvePacks(opts.packs, host.json, ctx, cleanedInput, host.config, !opts.auto, Some(parsed));
      Ran(CompileWith(host, opts, cleanedInput, ctx, resolution.packs))
  }

  /** `compile --auto` compiles the whole input, directive words included,
      for the `--packs` list or else the selector's packs. */
  lemma AutoCompilesWholeInput(args: Args, opts: Options, host: Host)
    requires opts.auto && CommandInput(args, opts, host) != ""
    ensures var input := CommandInput(args, opts, host);
      var ctx := CommandContext(host, opts, input);
      var fromArg := ParsePacksInput(opts.packs, host.json);
      CompileCommand(args, opts, host)
        == Ran(CompileWith(host, opts, input, ctx, if fromArg != [] then fromArg else Selected(host.config, ctx)))
  {
  }

  /** Without `--auto`, packs named by directives are the ones compiled,
      and the task is the input with the directives removed. */
  lemma DirectivesChoosePacks(args: Args, opts: Options, host: Host)
    requires !opts.auto
    requires var input := CommandInput(args, opts, host);
      input != "" && ParseDirectives(input).packs != [] && ParseDirectives(input).cleanedInput != ""
    ensures var input := CommandInput(args, opts, host);
      var d := ParseDirectives(input);
      CompileCommand(args, opts, host) == Ran(CompileWith(host, opts, d.cleanedInput,
        CommandContext(host, opts, d.cleanedInput), d.packs))
  {
  }

  /** The `compile-auto` command: the whole input, the detected or
      supplied context and the selector's packs; it has no `--packs`
      option and reads no directives. */
  function CompileAutoCommand(args: Args, opts: Options, host: Host): (r: Outcome)
    ensures r.NoInput? <==> CommandInput(args, opts, host) == ""
    ensures r.Ran? && r.result.Ok? ==> r.result.value.task == CommandInput(args, opts, host)
  {
    var input := CommandInput(args, opts, host);
    if input == "" then NoInput
    else
      var ctx := CommandContext(host, opts, input);
      Ran(CompileWith(host, opts, input, ctx, Selected(host.config, ctx)))
  }

  /** `compile-auto` is `compile --auto` without a `--packs` list. */
  lemma CompileAutoIsAutoFlag(args: Args, opts: Options, host: Host)
    ensures CompileAutoCommand(args, opts, host) == CompileCommand(args, opts.(auto := true, packs := None), host)
  {
    var opts' := opts.(auto := true, packs := None);
    assert CommandInput(args, opts', host) == CommandInput(args, opts, host);
    var input := CommandInput(args, opts, host);
    if input != "" {
      var ctx := CommandContext(host, opts, input);
      assert CommandContext(host, opts', input) == ctx;
      assert ParsePacksInput(None, host.json) == [];
      AutoCompilesWholeInput(args, opts', host);
      var packs := Selected(host.config, ctx);
      assert CompileWith(host, opts', input, ctx, packs) == CompileWith(host, opts, input, ctx, packs);
    }
  }

  /** With enforcement switched off, compiling fails only when the packs
      cannot be loaded. */
  lemma CompileWithSwitchedOff(host: Host, opts: Options, input: string, ctx: DetectedContext, packs: seq<string>)
    requires !ShouldEnforce(opts.enforce, host.env)
    ensures CompileWith(host, opts, input, ctx, packs).Err? ==> CompileWith(host, opts, input, ctx, packs).error.LoadFailed?
  {
    Compiler.DisabledEnforcementNeverRejects(StoreFor(host, ctx), host.plat, host.engine, host.config, input, ctx, packs);
  }

  /** With `BEBOP_ENFORCE=0` or `--no-enforce`, `compile` never fails on
      enforcement. */
  lemma CompileSwitchedOffNeverRejects(args: Args, opts: Options, host: Host)
    requires opts.enforce == Some(false) || ("BEBOP_ENFORCE" in host.env && host.env["BEBOP_ENFORCE"] == "0")
    ensures CompileCommand(args, opts, host).Ran? ==>
      (CompileCommand(args, opts, host).result.Err? ==> CompileCommand(args, opts, host).result.error.LoadFailed?)
  {
    var input := CommandInput(args, opts, host);
    if input != "" {
      var parsed := CommandDirectives(input, opts.auto);
      var cleanedInput := if parsed.cleanedInput != "" then parsed.cleanedInput else input;
      var ctx := CommandContext(host, opts, cleanedInput);
      var resolution := ResolvePacks(opts.packs, host.json, ctx, cleanedInput, host.config, !opts.auto, Some(parsed));
      CompileWithSwitchedOff(host, opts, cleanedInput, ctx, resolution.packs);
    }
  }

  /** The same for `hook compile`. */
  lemma HookSwitchedOffNeverRejects(opts: Options, host: Host)
    requires opts.enforce == Some(false) || ("BEBOP_ENFORCE" in host.env && host.env["BEBOP_ENFORCE"] == "0")
    ensures HookCompile(opts, host).Ran? ==>
      (HookCompile(opts, host).result.Err? ==> HookCompile(opts, host).result.error.LoadFailed?)
  {
    var input := HookInput(opts, host);
    if input != "" && !Contains(input, ActiveConstraints) {
      var ctx := CommandContext(host, opts, input);
      CompileWithSwitchedOff(host, opts, input, ctx, Selected(host.config, ctx));
    }
  }

  /** `select-packs` without `--json`: the selected packs, one per line. */
  function SelectPacksText(opts: Options, host: Host): (r: string)
  {
    var input := OptionOrStdin(opts.input, host.stdin);
    Join(Selected(host.config, CommandContext(host, opts, input)), "\n")
  }

  /** Reading the `select-packs` output line by line gives the selection
      back whenever it is non-empty and no pack id holds a newline. */
  lemma SelectPacksLines(opts: Options, host: Host)
    requires var packs := Selected(host.config, CommandContext(host, opts, OptionOrStdin(opts.input, host.stdin)));
      packs != [] && forall i :: 0 <= i < |packs| ==> '\n' !in packs[i]
    ensures Split(SelectPacksText(opts, host), '\n')
      == Selected(host.config, CommandContext(host, opts, OptionOrStdin(opts.input, host.stdin)))
  {
    var packs := Selected(host.config, CommandContext(host, opts, OptionOrStdin(opts.input, host.stdin)));
    SplitJoin(packs, '\n');
  }
}
