/** Automatic integration (packages/core/src/init.ts, `installAutoIntegration`
    and its installers): which installers run, how their outcomes are
    recorded, the shell alias targets and block, and the guards against
    overwriting a foreign hook script or plugin. The outcome of each
    installer and the generated texts are parameters. */
module Integration {
  import opened Wrappers
  import opened Text
  import opened Seqs
  import opened FsUtils
  import opened MarkerBlock

  /** `detectAiTools()`: which commands exist. */
  datatype Detected = Detected(claude: bool, cursor: bool, opencode: bool, codex: bool)

  /** The switches of `installAutoIntegration`; unset means on. */
  datatype AutoOptions = AutoOptions(installAliases: Option<bool>, installHooks: Option<bool>, installPlugins: Option<bool>)

  /** One installer `installAutoIntegration` runs, keyed as in `installed`,
      with the prefix of its warning. */
  datatype Install = Install(key: string, prefix: string)

  const ClaudeHook: Install := Install("claude", "Claude hook install failed: ")
  const CursorHook: Install := Install("cursor", "Cursor hook install failed: ")
  const OpencodePlugin: Install := Install("opencode", "opencode plugin install failed: ")
  const ShellAliases: Install := Install("aliases", "Shell alias install failed: ")

  /** The installers that run, in order: hooks for Claude and Cursor, the
      opencode plugin, then the shell aliases. */
  function Attempts(d: Detected, o: AutoOptions): (r: seq<Install>)
    ensures |r| <= 4
    ensures forall x :: x in r ==> x in [ClaudeHook, CursorHook, OpencodePlugin, ShellAliases]
    ensures ClaudeHook in r <==> o.installHooks.GetOr(true) && d.claude
    ensures CursorHook in r <==> o.installHooks.GetOr(true) && d.cursor
    ensures OpencodePlugin in r <==> o.installPlugins.GetOr(true) && d.opencode
    ensures ShellAliases in r <==> o.installAliases.GetOr(true)
  {
    var hooks := o.installHooks.GetOr(true);
    (if hooks && d.claude then [ClaudeHook] else [])
      + (if hooks && d.cursor then [CursorHook] else [])
      + (if o.installPlugins.GetOr(true) && d.opencode then [OpencodePlugin] else [])
      + (if o.installAliases.GetOr(true) then [ShellAliases] else [])
  }

  /** What `installAutoIntegration` reports. */
  datatype AutoResult = AutoResult(detected: Detected, installed: map<string, bool>, warnings: seq<string>)

  /** The bookkeeping over the installers that ran, from the back; `fails`
      gives each installer's error message, `None` when it succeeds. */
  function Record(attempts: seq<Install>, fails: string -> Option<string>): (r: (map<string, bool>, seq<string>))
    ensures forall a :: a in attempts ==> a.key in r.0
    ensures forall key :: key in r.0 ==> exists a :: a in attempts && a.key == key
    decreases |attempts|
  {
    if attempts == [] then (map[], [])
    else
      var init := attempts[..|attempts| - 1];
      var (installed, warnings) := Record(init, fails);
      var a := attempts[|attempts| - 1];
      assert forall x :: x in attempts ==> x in init || x == a;
      match fails(a.key)
      case None => (installed[a.key := true], warnings)
      case Some(msg) => (installed[a.key := false], warnings + [a.prefix + msg])
  }

  /** The warnings are one line per failed installer, in order. */
  function FailureLines(attempts: seq<Install>, fails: string -> Option<string>): (r: seq<string>)
    ensures |r| <= |attempts|
    decreases |attempts|
  {
    if attempts == [] then []
    else
      var a := attempts[|attempts| - 1];
      FailureLines(attempts[..|attempts| - 1], fails) + (if fails(a.key).Some? then [a.prefix + fails(a.key).value] else [])
  }

  /** Each installer that ran is marked installed exactly when it did not
      fail, and each failure leaves exactly one warning, in the order the
      installers ran. */
  lemma {:induction false} RecordFaithful(attempts: seq<Install>, fails: string -> Option<string>)
    ensures forall a :: a in attempts ==> (Record(attempts, fails).0[a.key] <==> fails(a.key).None?)
    ensures Record(attempts, fails).1 == FailureLines(attempts, fails)
    decreases |attempts|
  {
    if attempts != [] {
      var init, last := attempts[..|attempts| - 1], attempts[|attempts| - 1];
      assert attempts == init + [last];
      RecordFaithful(init, fails);
      var installed := Record(attempts, fails).0;
      assert installed == Record(init, fails).0[last.key := fails(last.key).None?];
      forall a | a in attempts
        ensures installed[a.key] <==> fails(a.key).None?
      {
        if a.key != last.key {
          assert a in init;
        }
      }
    }
  }

  /** `installAutoIntegration(options)`. */
  function InstallAutoIntegration(d: Detected, o: AutoOptions, fails: string -> Option<string>): (r: AutoResult)
    ensures r.detected == d
    ensures "claude" in r.installed <==> o.installHooks.GetOr(true) && d.claude
    ensures "cursor" in r.installed <==> o.installHooks.GetOr(true) && d.cursor
    ensures "opencode" in r.installed <==> o.installPlugins.GetOr(true) && d.opencode
    ensures "aliases" in r.installed <==> o.installAliases.GetOr(true)
    ensures "codex" !in r.installed
  {
    var attempts := Attempts(d, o);
    var (installed, warnings) := Record(attempts, fails);
    StepKeys(attempts);
    AutoResult(d, installed, warnings)
  }

  /** Among the four installers a key names one installer. */
  lemma StepKeys(attempts: seq<Install>)
    requires forall x :: x in attempts ==> x in [ClaudeHook, CursorHook, OpencodePlugin, ShellAliases]
    ensures forall a :: a in attempts && a.key == "claude" ==> a == ClaudeHook
    ensures forall a :: a in attempts && a.key == "cursor" ==> a == CursorHook
    ensures forall a :: a in attempts && a.key == "opencode" ==> a == OpencodePlugin
    ensures forall a :: a in attempts && a.key == "aliases" ==> a == ShellAliases
    ensures forall a :: a in attempts ==> a.key != "codex"
  {
    assert ClaudeHook.key[1] == 'l' && CursorHook.key[1] == 'u' && OpencodePlugin.key[1] == 'p'
      && ShellAliases.key[1] == 'l' && ClaudeHook.key[0] != ShellAliases.key[0];
    assert "codex"[1] == 'o' && "codex"[0] == 'c' && OpencodePlugin.key[0] == 'o';
  }

  /** Each installer is marked installed exactly when it succeeded, and
      the warnings are its failures, in order. */
  lemma InstallOutcome(d: Detected, o: AutoOptions, fails: string -> Option<string>, key: string)
    requires key in InstallAutoIntegration(d, o, fails).installed
    ensures InstallAutoIntegration(d, o, fails).installed[key] <==> fails(key).None?
    ensures InstallAutoIntegration(d, o, fails).warnings == FailureLines(Attempts(d, o), fails)
  {
    var attempts := Attempts(d, o);
    RecordFaithful(attempts, fails);
    var a :| a in attempts && a.key == key;
  }

  /** The tools with an alias: the detected ones, in `detectAiTools`
      order. */
  function AliasTools(d: Detected): (r: seq<string>)
    ensures forall t :: t in r <==> ((t == "claude" && d.claude) || (t == "cursor" && d.cursor)
      || (t == "opencode" && d.opencode) || (t == "codex" && d.codex))
  {
    (if d.claude then ["claude"] else []) + (if d.cursor then ["cursor"] else [])
      + (if d.opencode then ["opencode"] else []) + (if d.codex then ["codex"] else [])
  }

  /** `buildAliasBlock(tools)`: one shell function per tool, in order,
      separated by a blank line; `template` gives a tool's function. */
  function BuildAliasBlock(tools: seq<string>, template: string -> string): string {
    Join(seq(|tools|, i requires 0 <= i < |tools| => template(tools[i])), "\n\n")
  }

  /** Adding a tool adds its function after a blank line. */
  lemma AliasBlockSnoc(tools: seq<string>, t: string, template: string -> string)
    requires tools != []
    ensures BuildAliasBlock(tools + [t], template) == BuildAliasBlock(tools, template) + "\n\n" + template(t)
  {
    var a := seq(|tools|, i requires 0 <= i < |tools| => template(tools[i]));
    var all := tools + [t];
    assert seq(|all|, i requires 0 <= i < |all| => template(all[i])) == a + [template(t)];
    JoinConcat(a, [template(t)], "\n\n");
  }

  /** The block starts with the first tool's function. */
  lemma AliasBlockStart(tools: seq<string>, template: string -> string)
    requires tools != []
    ensures StartsWith(BuildAliasBlock(tools, template), template(tools[0]))
  {
    var fs := seq(|tools|, i requires 0 <= i < |tools| => template(tools[i]));
    if |fs| > 1 {
      assert Join(fs, "\n\n") == fs[0] + "\n\n" + Join(fs[1..], "\n\n");
      assert Join(fs, "\n\n")[..|fs[0]|] == fs[0];
    }
  }

  /** The start-up files `installShellAliases` edits: `.zshrc` for a zsh
      shell, `.bashrc` for a bash shell, and either one that does not exist
      yet. */
  function AliasFiles(shell: string, home: Path, fs: Fs): (r: seq<Path>)
    ensures NoDups(r)
    ensures home + [".zshrc"] in r <==> Contains(shell, "zsh") || !Exists(fs, home + [".zshrc"])
    ensures home + [".bashrc"] in r <==> Contains(shell, "bash") || !Exists(fs, home + [".bashrc"])
    ensures forall p :: p in r ==> p == home + [".zshrc"] || p == home + [".bashrc"]
  {
    var zsh := home + [".zshrc"];
    var bash := home + [".bashrc"];
    assert zsh != bash by {
      assert zsh[|home|] != bash[|home|];
    }
    var c := (if Contains(shell, "zsh") then [zsh] else []) + (if Contains(shell, "bash") then [bash] else []);
    var c1 := if !Exists(fs, zsh) && zsh !in c then c + [zsh] else c;
    var c2 := if !Exists(fs, bash) && bash !in c1 then c1 + [bash] else c1;
    c2
  }

  /** `installShellAliases(detected)`: each start-up file and its new text,
      nothing when no tool was detected. */
  function AliasWrites(d: Detected, shell: string, home: Path, fs: Fs, template: string -> string)
    : (r: seq<(Path, string)>)
    ensures AliasTools(d) == [] ==> r == []
    ensures AliasTools(d) != [] ==> |r| == |AliasFiles(shell, home, fs)|
    ensures AliasTools(d) != [] ==> forall i :: 0 <= i < |r| ==> (r[i].0 == AliasFiles(shell, home, fs)[i]
      && r[i].1 == UpsertBlock(if r[i].0 in fs.text then fs.text[r[i].0] else "", BuildAliasBlock(AliasTools(d), template)))
  {
    var tools := AliasTools(d);
    if tools == [] then []
    else
      var block := BuildAliasBlock(tools, template);
      var files := AliasFiles(shell, home, fs);
      seq(|files|, i requires 0 <= i < |files| =>
        (files[i], UpsertBlock(if files[i] in fs.text then fs.text[files[i]] else "", block)))
  }

  /** The guard of `writeHookScript` and `installOpencodePlugin`: an
      existing file is only replaced when it carries the marker of an
      earlier install. */
  function OverwriteGuard(existing: Option<string>, marker: string, what: string, path: string): (r: Option<string>)
    ensures r.None? <==> existing.None? || Contains(existing.value, marker)
  {
    if existing.Some? && !Contains(existing.value, marker) then Some(what + " already exists at " + path) else None
  }

  /** Installing twice is allowed: a file an earlier install wrote, whose
      generated text carries the marker somewhere after a preamble (the
      hook script's shebang line, say), never blocks a reinstall. */
  lemma ReinstallAllowed(pre: string, marker: string, rest: string, what: string, path: string)
    ensures OverwriteGuard(Some(pre + marker + rest), marker, what, path).None?
  {
    var text := pre + marker + rest;
    assert text[|pre|..|pre| + |marker|] == marker;
    ContainsWitness(text, marker, |pre|);
  }
}
