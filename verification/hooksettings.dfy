/** The merge of the bebop prompt hook into `.claude/settings.json`
    (packages/core/src/init.ts, `installClaudeHooks`): settings are JSON
    values, the filter over existing hooks may throw, and the merge is
    idempotent. */
module HookSettings {
  import opened Wrappers
  import opened Text
  import opened Seqs
  import opened Js

  /** A `hook?.command?.includes('bebop')` that would throw. */
  function MentionsBebop(hook: Value): (r: Option<bool>)
    ensures Get(hook, "command") == Some(JStr("")) ==> r == Some(false)
  {
    match Get(hook, "command")
    case None => Some(false)
    case Some(JNull) => Some(false)
    case Some(JStr(s)) => Some(Contains(s, "bebop"))
    case Some(JArr(items)) => Some(JStr("bebop") in items)
    case Some(_) => None
  }

  /** `hooksList.some(hook => hook?.command?.includes('bebop'))`: stops at
      the first hit; `None` when a test before it throws. */
  function AnyMentions(hooks: seq<Value>): (r: Option<bool>)
    ensures r == Some(true) ==> hooks != []
    decreases |hooks|
  {
    if hooks == [] then Some(false)
    else match MentionsBebop(hooks[0])
      case None => None
      case Some(true) => Some(true)
      case Some(false) => AnyMentions(hooks[1..])
  }

  /** `Array.isArray(entry?.hooks) ? entry.hooks : []`. */
  function HooksOf(entry: Value): seq<Value> {
    match Get(entry, "hooks")
    case Some(JArr(items)) => items
    case _ => []
  }

  /** The result of `entries.find(...)` when the test can throw. */
  datatype Found = NotFound | At(index: nat) | Throws

  /** The first entry with a hook that mentions bebop, from `k` on. */
  function FindBebop(entries: seq<Value>, k: nat): (r: Found)
    requires k <= |entries|
    ensures r.At? ==> k <= r.index < |entries| && AnyMentions(HooksOf(entries[r.index])) == Some(true)
    ensures r.At? ==> forall m :: k <= m < r.index ==> AnyMentions(HooksOf(entries[m])) == Some(false)
    ensures r.NotFound? ==> forall m :: k <= m < |entries| ==> AnyMentions(HooksOf(entries[m])) == Some(false)
    decreases |entries| - k
  {
    if k == |entries| then NotFound
    else match AnyMentions(HooksOf(entries[k]))
      case None => Throws
      case Some(true) => At(k)
      case Some(false) => FindBebop(entries, k + 1)
  }

  /** `hooksList.filter(hook => !hook?.command?.includes('bebop'))`. */
  function DropBebop(hooks: seq<Value>): (r: Option<seq<Value>>)
    ensures r.Some? <==> AllTestable(hooks)
    ensures r.Some? ==> r.value == Keep(hooks, KeepsHook)
    ensures r.Some? ==> forall h :: h in r.value <==> h in hooks && MentionsBebop(h) == Some(false)
    decreases |hooks|
  {
    if hooks == [] then Some([])
    else
      var rest := DropBebop(hooks[1..]);
      TestableCons(hooks);
      KeepMembers(hooks, KeepsHook);
      match MentionsBebop(hooks[0])
      case None => None
      case Some(true) =>
        assert !KeepsHook(hooks[0]);
        rest
      case Some(false) =>
        assert KeepsHook(hooks[0]);
        match rest
        case None => None
        case Some(tail) => Some([hooks[0]] + tail)
  }

  /** No hook's test throws. */
  predicate AllTestable(hooks: seq<Value>) {
    forall i :: 0 <= i < |hooks| ==> MentionsBebop(hooks[i]).Some?
  }

  lemma TestableCons(hooks: seq<Value>)
    requires hooks != []
    ensures AllTestable(hooks) <==> MentionsBebop(hooks[0]).Some? && AllTestable(hooks[1..])
  {
    if MentionsBebop(hooks[0]).Some? && AllTestable(hooks[1..]) {
      forall i | 0 <= i < |hooks| ensures MentionsBebop(hooks[i]).Some? {
        if i > 0 {
          assert hooks[i] == hooks[1..][i - 1];
        }
      }
    }
  }

  /** The test of that filter: the hook's command does not mention bebop. */
  const KeepsHook: Value -> bool := (h: Value) => MentionsBebop(h) == Some(false)

  /** `{ type: 'command', command: hookScriptPath }`. */
  function CommandEntry(path: string): Value {
    JObj(map["type" := JStr("command"), "command" := JStr(path)])
  }

  /** `hooksList.some(hook => hook?.command === hookScriptPath)`. */
  predicate HasCommand(hooks: seq<Value>, path: string) {
    exists h :: h in hooks && Get(h, "command") == Some(JStr(path))
  }

  /** `entry.hooks = hooks` on an entry object. */
  function WithHooks(entry: Value, hooks: seq<Value>): Value {
    match entry
    case JObj(fields) => JObj(fields["hooks" := JArr(hooks)])
    case _ => entry
  }

  /** `settings.hooks` when it is a truthy object (arrays included), else
      a fresh `{}`. */
  function HooksObject(fields: map<string, Value>): Value {
    if "hooks" in fields && Truthy(fields["hooks"]) && (fields["hooks"].JObj? || fields["hooks"].JArr?)
    then fields["hooks"] else JObj(map[])
  }

  /** `hooks.UserPromptSubmit` when it is an array. */
  function PromptEntries(hooks: Value): seq<Value> {
    match Get(hooks, "UserPromptSubmit")
    case Some(JArr(items)) => items
    case _ => []
  }

  /** The new `UserPromptSubmit` list of the merge, `None` when a test
      throws. */
  function MergedEntries(entries: seq<Value>, path: string): (r: Option<seq<Value>>)
    ensures FindBebop(entries, 0).NotFound? ==> r == Some(entries + [JObj(map["hooks" := JArr([CommandEntry(path)])])])
    ensures FindBebop(entries, 0).At? && HasCommand(HooksOf(entries[FindBebop(entries, 0).index]), path) ==>
      r == Some(entries)
    ensures r.Some? ==> |r.value| >= |entries|
    ensures r.Some? && FindBebop(entries, 0).At? ==>
      |r.value| == |entries| && forall m :: 0 <= m < |entries| && m != FindBebop(entries, 0).index ==> r.value[m] == entries[m]
    ensures FindBebop(entries, 0).At? && !HasCommand(HooksOf(entries[FindBebop(entries, 0).index]), path) ==>
      var i := FindBebop(entries, 0).index;
      var kept := DropBebop(HooksOf(entries[i]));
      (r.Some? <==> kept.Some?)
      && (r.Some? ==> r.value[i] == WithHooks(entries[i], kept.value + [CommandEntry(path)]))
    ensures r.None? <==> (FindBebop(entries, 0).Throws?
      || (FindBebop(entries, 0).At? && !HasCommand(HooksOf(entries[FindBebop(entries, 0).index]), path)
        && DropBebop(HooksOf(entries[FindBebop(entries, 0).index])).None?))
  {
    match FindBebop(entries, 0)
    case Throws => None
    case NotFound => Some(entries + [JObj(map["hooks" := JArr([CommandEntry(path)])])])
    case At(i) =>
      var list := HooksOf(entries[i]);
      if HasCommand(list, path) then Some(entries)
      else match DropBebop(list)
        case None => None
        case Some(kept) => Some(entries[i := WithHooks(entries[i], kept + [CommandEntry(path)])])
  }

  /** `mergeHookSettings(settingsPath, hookScriptPath)` on the parsed
      settings: the value written back, `None` when it throws. */
  function MergeHookSettings(settings: Value, path: string): (r: Option<Value>)
    ensures settings.JNull? || settings.JBool? || settings.JNum? || settings.JStr? ==> r.None?
    ensures settings.JArr? ==> r == Some(settings)
    ensures settings.JObj? && r.Some? ==> (r.value.JObj? && r.value.fields.Keys == settings.fields.Keys + {"hooks"}
      && forall k :: k in settings.fields && k != "hooks" ==> r.value.fields[k] == settings.fields[k])
    ensures settings.JObj? && HooksObject(settings.fields).JArr? ==> r == Some(settings)
    ensures settings.JObj? && !HooksObject(settings.fields).JArr? ==>
      var hooks := HooksObject(settings.fields);
      var merged := MergedEntries(PromptEntries(hooks), path);
      && (r.Some? <==> merged.Some?)
      && (r.Some? ==> r.value.fields["hooks"] == JObj(hooks.fields["UserPromptSubmit" := JArr(merged.value)]))
  {
    match settings
    case JObj(fields) =>
      var hooks := HooksObject(fields);
      if hooks.JArr? then Some(settings)
      else (match MergedEntries(PromptEntries(hooks), path)
        case None => None
        case Some(entries) => Some(JObj(fields["hooks" := JObj(hooks.fields["UserPromptSubmit" := JArr(entries)])])))
    case JArr(_) => Some(settings)
    case _ => None
  }

  /** `readJson` and the missing-file default: the settings `{}` unless an
      existing file parses. */
  function ReadSettings(text: Option<string>, parse: string -> Option<Value>): Value {
    match text
    case None => JObj(map[])
    case Some(t) => parse(t).GetOr(JObj(map[]))
  }

  /** A hook that now names the script mentions bebop when the script
      path does. */
  lemma CommandMentions(path: string)
    requires Contains(path, "bebop")
    ensures MentionsBebop(CommandEntry(path)) == Some(true)
  {
    assert Get(CommandEntry(path), "command") == Some(JStr(path));
  }

  /** The filtered list followed by the command still tests cleanly, and
      stops at the command. */
  lemma {:induction false} KeptThenCommand(kept: seq<Value>, path: string)
    requires forall h :: h in kept ==> MentionsBebop(h) == Some(false)
    requires Contains(path, "bebop")
    ensures AnyMentions(kept + [CommandEntry(path)]) == Some(true)
    decreases |kept|
  {
    if kept == [] {
      CommandMentions(path);
      assert [CommandEntry(path)][1..] == [];
    } else {
      assert (kept + [CommandEntry(path)])[1..] == kept[1..] + [CommandEntry(path)];
      assert kept[0] in kept;
      KeptThenCommand(kept[1..], path);
    }
  }

  /** Merging the same hook twice gives what merging once gave, for a
      script path that mentions bebop (as `bebop-hook.sh` does). */
  lemma MergeIdempotent(settings: Value, path: string)
    requires Contains(path, "bebop")
    requires MergeHookSettings(settings, path).Some?
    ensures MergeHookSettings(MergeHookSettings(settings, path).value, path) == MergeHookSettings(settings, path)
  {
    match settings
    case JObj(fields) =>
      var hooks := HooksObject(fields);
      if !hooks.JArr? {
        var entries := PromptEntries(hooks);
        var merged := MergedEntries(entries, path).value;
        MergedEntriesIdempotent(entries, path);
        MergeStable(fields, hooks, merged, path);
      }
    case JArr(_) =>
    case _ =>
  }

  /** Settings whose `UserPromptSubmit` list is already merged come back
      unchanged. */
  lemma MergeStable(fields: map<string, Value>, hooks: Value, merged: seq<Value>, path: string)
    requires hooks.JObj? && MergedEntries(merged, path) == Some(merged)
    ensures var fields2 := fields["hooks" := JObj(hooks.fields["UserPromptSubmit" := JArr(merged)])];
      MergeHookSettings(JObj(fields2), path) == Some(JObj(fields2))
  {
    var hooks2 := JObj(hooks.fields["UserPromptSubmit" := JArr(merged)]);
    var fields2 := fields["hooks" := hooks2];
    assert HooksObject(fields2) == hooks2;
    assert PromptEntries(hooks2) == merged;
    assert hooks2.fields["UserPromptSubmit" := JArr(merged)] == hooks2.fields;
    assert fields2["hooks" := hooks2] == fields2;
  }

  /** After the merge the first entry with a bebop hook runs the script,
      for a script path that mentions bebop. */
  lemma MergeInstallsHook(entries: seq<Value>, path: string)
    requires Contains(path, "bebop")
    requires MergedEntries(entries, path).Some?
    ensures var r := MergedEntries(entries, path).value;
      FindBebop(r, 0).At? && HasCommand(HooksOf(r[FindBebop(r, 0).index]), path)
  {
    var merged := MergedEntries(entries, path).value;
    var cmd := CommandEntry(path);
    match FindBebop(entries, 0)
    case NotFound =>
      var entry := JObj(map["hooks" := JArr([cmd])]);
      assert merged == entries + [entry];
      KeptThenCommand([], path);
      assert [] + [cmd] == [cmd];
      FoundAt(merged, |entries|);
      assert cmd in HooksOf(entry) && Get(cmd, "command") == Some(JStr(path));
    case At(i) =>
      var list := HooksOf(entries[i]);
      if !HasCommand(list, path) {
        var kept := DropBebop(list).value;
        var updated := WithHooks(entries[i], kept + [cmd]);
        assert entries[i].JObj?;
        assert HooksOf(updated) == kept + [cmd];
        KeptThenCommand(kept, path);
        FoundAt(merged, i);
        assert cmd in HooksOf(updated) && Get(cmd, "command") == Some(JStr(path));
      }
  }

  /** Merging the entry list a second time leaves it as it is. */
  lemma MergedEntriesIdempotent(entries: seq<Value>, path: string)
    requires Contains(path, "bebop")
    requires MergedEntries(entries, path).Some?
    ensures MergedEntries(MergedEntries(entries, path).value, path) == MergedEntries(entries, path)
  {
    MergeInstallsHook(entries, path);
  }

  /** An entry at `i` that mentions bebop, with none before it, is the one
      `find` returns. */
  lemma FoundAt(entries: seq<Value>, i: nat)
    requires i < |entries| && AnyMentions(HooksOf(entries[i])) == Some(true)
    requires forall m :: 0 <= m < i ==> AnyMentions(HooksOf(entries[m])) == Some(false)
    ensures FindBebop(entries, 0) == At(i)
  {
    FoundFrom(entries, i, 0);
  }

  lemma {:induction false} FoundFrom(entries: seq<Value>, i: nat, k: nat)
    requires k <= i < |entries| && AnyMentions(HooksOf(entries[i])) == Some(true)
    requires forall m :: k <= m < i ==> AnyMentions(HooksOf(entries[m])) == Some(false)
    ensures FindBebop(entries, k) == At(i)
    decreases i - k
  {
    if k < i {
      FoundFrom(entries, i, k + 1);
    }
  }
}
