/** The command-line package's own `init` (src/init.ts). Its marker block,
    template copying, alias block and install bookkeeping are those of the
    core package and are modelled once, in `MarkerBlock`, `Init` and
    `Integration`; what differs is the hook-settings merge, which keys the
    bebop hook on a `.*` matcher entry instead of on a hook command that
    mentions bebop. */
module CliInit {
  import opened Wrappers
  import opened Js
  import opened HookSettings

  /** `entry && entry.matcher === '.*'`. */
  predicate IsMatcher(entry: Value) {
    Truthy(entry) && Get(entry, "matcher") == Some(JStr(".*"))
  }

  /** `entries.find(...)` for the matcher entry, from `k` on. */
  function FindMatcher(entries: seq<Value>, k: nat): (r: Option<nat>)
    requires k <= |entries|
    ensures r.Some? ==> k <= r.value < |entries| && IsMatcher(entries[r.value])
    ensures r.Some? ==> forall m :: k <= m < r.value ==> !IsMatcher(entries[m])
    ensures r.None? ==> forall m :: k <= m < |entries| ==> !IsMatcher(entries[m])
    decreases |entries| - k
  {
    if k == |entries| then None
    else if IsMatcher(entries[k]) then Some(k)
    else FindMatcher(entries, k + 1)
  }

  /** The entry added when there is no matcher entry yet. */
  function MatcherEntry(path: string): Value {
    JObj(map["matcher" := JStr(".*"), "hooks" := JArr([CommandEntry(path)])])
  }

  /** The matcher entry's hook list after the merge: the old list (an
      empty one when it was not an array) with the command added unless it
      is already there. */
  function WithCommand(hooks: seq<Value>, path: string): (r: seq<Value>)
    ensures HasCommand(r, path)
    ensures forall h :: h in hooks ==> h in r
    ensures HasCommand(hooks, path) ==> r == hooks
    ensures !HasCommand(hooks, path) ==> r == hooks + [CommandEntry(path)]
  {
    if HasCommand(hooks, path) then hooks
    else
      var r := hooks + [CommandEntry(path)];
      assert CommandEntry(path) in r && Get(CommandEntry(path), "command") == Some(JStr(path));
      r
  }

  /** The new `UserPromptSubmit` list. */
  function MergedMatcherEntries(entries: seq<Value>, path: string): (r: seq<Value>)
    ensures FindMatcher(entries, 0).None? ==> r == entries + [MatcherEntry(path)]
    ensures FindMatcher(entries, 0).Some? ==> (|r| == |entries|
      && forall m :: 0 <= m < |entries| && m != FindMatcher(entries, 0).value ==> r[m] == entries[m])
  {
    match FindMatcher(entries, 0)
    case None => entries + [MatcherEntry(path)]
    case Some(i) => entries[i := WithHooks(entries[i], WithCommand(HooksOf(entries[i]), path))]
  }

  /** `mergeHookSettings(settingsPath, hookScriptPath)` of src/init.ts on
      the parsed settings: the value written back, `None` when it
      throws. */
  function MergeMatcherSettings(settings: Value, path: string): (r: Option<Value>)
    ensures settings.JObj? || settings.JArr? <==> r.Some?
    ensures settings.JArr? ==> r == Some(settings)
    ensures settings.JObj? && r.Some? ==> (r.value.JObj? && r.value.fields.Keys == settings.fields.Keys + {"hooks"}
      && forall k :: k in settings.fields && k != "hooks" ==> r.value.fields[k] == settings.fields[k])
    ensures settings.JObj? && HooksObject(settings.fields).JArr? ==> r == Some(settings)
    ensures settings.JObj? && !HooksObject(settings.fields).JArr? ==>
      var hooks := HooksObject(settings.fields);
      r.value.fields["hooks"] == JObj(hooks.fields["UserPromptSubmit" := JArr(MergedMatcherEntries(PromptEntries(hooks), path))])
  {
    match settings
    case JObj(fields) =>
      var hooks := HooksObject(fields);
      if hooks.JArr? then Some(settings)
      else Some(JObj(fields["hooks" := JObj(hooks.fields["UserPromptSubmit" := JArr(MergedMatcherEntries(PromptEntries(hooks), path))])]))
    case JArr(_) => Some(settings)
    case _ => None
  }

  /** The merged entry is a matcher entry whose hooks run the script. */
  lemma MatcherHolds(entries: seq<Value>, path: string)
    ensures var r := MergedMatcherEntries(entries, path);
      FindMatcher(r, 0).Some? && HasCommand(HooksOf(r[FindMatcher(r, 0).value]), path)
  {
    var r := MergedMatcherEntries(entries, path);
    match FindMatcher(entries, 0)
    case None =>
      var e := MatcherEntry(path);
      assert r[|entries|] == e;
      assert HooksOf(e) == [CommandEntry(path)];
      assert Get(CommandEntry(path), "command") == Some(JStr(path));
      MatcherFirst(r, |entries|);
    case Some(i) =>
      var e := WithHooks(entries[i], WithCommand(HooksOf(entries[i]), path));
      assert HooksOf(e) == WithCommand(HooksOf(entries[i]), path);
      assert IsMatcher(e);
      MatcherFirst(r, i);
  }

  /** A matcher entry with none before it is the one `find` returns. */
  lemma MatcherFirst(entries: seq<Value>, i: nat)
    requires i < |entries| && IsMatcher(entries[i])
    requires forall m :: 0 <= m < i ==> !IsMatcher(entries[m])
    ensures FindMatcher(entries, 0) == Some(i)
  {
    MatcherFrom(entries, i, 0);
  }

  lemma {:induction false} MatcherFrom(entries: seq<Value>, i: nat, k: nat)
    requires k <= i < |entries| && IsMatcher(entries[i])
    requires forall m :: k <= m < i ==> !IsMatcher(entries[m])
    ensures FindMatcher(entries, k) == Some(i)
    decreases i - k
  {
    if k < i {
      MatcherFrom(entries, i, k + 1);
    }
  }

  /** Merging the entry list a second time leaves it as it is. */
  lemma MatcherEntriesIdempotent(entries: seq<Value>, path: string)
    ensures MergedMatcherEntries(MergedMatcherEntries(entries, path), path) == MergedMatcherEntries(entries, path)
  {
    var r := MergedMatcherEntries(entries, path);
    MatcherHolds(entries, path);
    var i := FindMatcher(r, 0).value;
    var list := HooksOf(r[i]);
    assert WithCommand(list, path) == list;
    assert r[i].JObj?;
    assert Get(r[i], "hooks") == Some(JArr(list));
    assert r[i].fields["hooks" := JArr(list)] == r[i].fields;
    assert WithHooks(r[i], list) == r[i];
  }

  /** Running `init` twice leaves the settings as one run left them. */
  lemma MatcherIdempotent(settings: Value, path: string)
    requires MergeMatcherSettings(settings, path).Some?
    ensures MergeMatcherSettings(MergeMatcherSettings(settings, path).value, path) == MergeMatcherSettings(settings, path)
  {
    match settings
    case JObj(fields) =>
      var hooks := HooksObject(fields);
      if !hooks.JArr? {
        var merged := MergedMatcherEntries(PromptEntries(hooks), path);
        var hooks2 := JObj(hooks.fields["UserPromptSubmit" := JArr(merged)]);
        var fields2 := fields["hooks" := hooks2];
        assert HooksObject(fields2) == hooks2;
        assert PromptEntries(hooks2) == merged;
        MatcherEntriesIdempotent(PromptEntries(hooks), path);
        assert hooks2.fields["UserPromptSubmit" := JArr(merged)] == hooks2.fields;
        assert fields2["hooks" := hooks2] == fields2;
      }
    case JArr(_) =>
    case _ =>
  }

  /** The merge only adds: every hook the matcher entry already listed
      stays listed. */
  lemma MatcherKeepsHooks(entries: seq<Value>, path: string, h: Value)
    requires FindMatcher(entries, 0).Some?
    requires h in HooksOf(entries[FindMatcher(entries, 0).value])
    ensures h in HooksOf(MergedMatcherEntries(entries, path)[FindMatcher(entries, 0).value])
  {
    var i := FindMatcher(entries, 0).value;
    var e := WithHooks(entries[i], WithCommand(HooksOf(entries[i]), path));
    assert HooksOf(e) == WithCommand(HooksOf(entries[i]), path);
  }
}
