/** `PackSelector.select` (packages/core/src/pack-selector.ts): which packs a
    detected context calls for, in insertion order, with the reasons each was
    picked. The selected set is an insertion-ordered `Set<string>`, modelled as
    a duplicate-free sequence; `reasons` is a map from pack to its reason list. */
module PackSelector {
  import opened Wrappers
  import opened Seqs
  import opened ContextTypes
  import opened Config

  /** `PackSelectionRules`. Every `Record<string, string[]>` is a map; the
      `minConfidence` field is never read and is not modelled. */
  datatype Rules = Rules(
    alwaysInclude: seq<string>,
    projectType: map<string, seq<string>>,
    language: map<string, seq<string>>,
    framework: map<string, seq<string>>,
    service: map<string, seq<string>>,
    keywords: map<string, seq<string>>,
    maxConstraints: int)

  /** `DEFAULT_RULES`. */
  const DefaultRules: Rules := Rules(
    ["core/security", "core/code-quality"],
    map["frontend" := ["framework/react"], "backend" := ["framework/nestjs"],
        "mobile" := ["framework/react-native"], "library" := []],
    map["typescript" := ["core/typescript"], "javascript" := ["core/javascript"],
        "python" := ["core/python"], "go" := ["core/go"], "rust" := ["core/rust"]],
    map["nestjs" := ["framework/nestjs"], "express" := ["framework/express"],
        "react" := ["framework/react"], "nextjs" := ["framework/nextjs"],
        "vue" := ["framework/vue"], "nuxt" := ["framework/nuxt"],
        "angular" := ["framework/angular"], "svelte" := ["framework/svelte"],
        "django" := ["framework/django"], "flask" := ["framework/flask"],
        "fastapi" := ["framework/fastapi"], "rails" := ["framework/rails"],
        "spring" := ["framework/spring"], "react-native" := ["framework/react-native"]],
    map[],
    map["test" := ["tasks/testing"], "security" := ["tasks/security"],
        "performance" := ["tasks/performance"]],
    15)

  /** `table[key] || []`. */
  function Lookup(table: map<string, seq<string>>, key: string): (r: seq<string>)
    ensures key !in table ==> r == []
  {
    if key in table then table[key] else []
  }

  datatype Selection = Selection(packs: seq<string>, reasons: map<string, seq<string>>)

  const NoSelection: Selection := Selection([], map[])

  /** The reason list recorded for `pack`, empty when there is none. */
  function ReasonsOf(sel: Selection, pack: string): seq<string> {
    Lookup(sel.reasons, pack)
  }

  /** The invariant `select` keeps: no pack twice, no empty pack name, and a
      reason recorded for every selected pack. */
  predicate Wellformed(sel: Selection) {
    && NoDups(sel.packs)
    && "" !in sel.packs
    && forall p :: p in sel.packs ==> |ReasonsOf(sel, p)| > 0
  }

  /** Occurrences of `x` in `xs`. */
  function Count(xs: seq<string>, x: string): (n: nat)
    ensures n == 0 <==> x !in xs
    ensures n <= |xs|
  {
    if xs == [] then 0 else (if xs[0] == x then 1 else 0) + Count(xs[1..], x)
  }

  /** `n` copies of `x`. */
  function Copies(x: string, n: nat): (r: seq<string>)
    ensures |r| == n
    ensures forall y :: y in r ==> y == x
  {
    if n == 0 then [] else [x] + Copies(x, n - 1)
  }

  /** `packs.filter(Boolean)`. */
  function NonEmpty(packs: seq<string>): (r: seq<string>)
    ensures forall p :: p in r <==> p in packs && p != ""
    ensures |r| <= |packs|
  {
    if packs == [] then []
    else if packs[0] == "" then NonEmpty(packs[1..])
    else [packs[0]] + NonEmpty(packs[1..])
  }

  lemma {:induction false} NonEmptyAppend(a: seq<string>, b: seq<string>)
    ensures NonEmpty(a + b) == NonEmpty(a) + NonEmpty(b)
    decreases |a|
  {
    if a == [] {
      assert a + b == b;
    } else {
      assert (a + b)[0] == a[0];
      assert (a + b)[1..] == a[1..] + b;
      NonEmptyAppend(a[1..], b);
    }
  }

  /** `addAll(selected, packs, reason, reasons)`: every non-empty pack is added
      to the ordered set and `reason` is appended to its list once per
      occurrence. */
  function AddPacks(sel: Selection, packs: seq<string>, reason: string): (r: Selection)
    ensures r.packs == AddAll(sel.packs, NonEmpty(packs))
    decreases |packs|
  {
    if packs == [] then sel
    else if packs[0] == "" then
      AddPacks(sel, packs[1..], reason)
    else
      var r := AddPacks(AddOne(sel, packs[0], reason), packs[1..], reason);
      assert NonEmpty(packs) == [packs[0]] + NonEmpty(packs[1..]);
      assert NonEmpty(packs)[1..] == NonEmpty(packs[1..]);
      r
  }

  /** `addAll` appends `reason` to a pack's list once per occurrence and leaves
      every other list alone. */
  lemma {:induction false} AddPacksReasons(sel: Selection, packs: seq<string>, reason: string, q: string)
    ensures q != "" ==> ReasonsOf(AddPacks(sel, packs, reason), q) == ReasonsOf(sel, q) + Copies(reason, Count(packs, q))
    ensures q == "" ==> ReasonsOf(AddPacks(sel, packs, reason), q) == ReasonsOf(sel, q)
    decreases |packs|
  {
    if packs != [] {
      AddPacksFirst(sel, packs, reason, q);
      if packs[0] == "" {
        AddPacksReasons(sel, packs[1..], reason, q);
      } else {
        var next := AddOne(sel, packs[0], reason);
        AddPacksReasons(next, packs[1..], reason, q);
        if q == packs[0] {
          AppendAssoc(ReasonsOf(sel, q), [reason], Copies(reason, Count(packs[1..], q)));
        }
      }
    }
  }

  /** One pack of `addAll`, unfolded. */
  lemma AddPacksFirst(sel: Selection, packs: seq<string>, reason: string, q: string)
    requires packs != []
    ensures packs[0] == "" ==> AddPacks(sel, packs, reason) == AddPacks(sel, packs[1..], reason)
    ensures packs[0] != "" ==> AddPacks(sel, packs, reason) == AddPacks(AddOne(sel, packs[0], reason), packs[1..], reason)
    ensures packs[0] == q ==> Copies(reason, Count(packs, q)) == [reason] + Copies(reason, Count(packs[1..], q))
    ensures packs[0] != q ==> Count(packs, q) == Count(packs[1..], q)
  {
  }

  /** One `selected.add(pack)` with its reason. */
  function AddOne(sel: Selection, p: string, reason: string): (r: Selection)
    ensures r.packs == Add(sel.packs, p)
    ensures ReasonsOf(r, p) == ReasonsOf(sel, p) + [reason]
    ensures forall q :: q != p ==> ReasonsOf(r, q) == ReasonsOf(sel, q)
  {
    Selection(Add(sel.packs, p), sel.reasons[p := ReasonsOf(sel, p) + [reason]])
  }

  /** `addAll` keeps the selection well formed. */
  lemma {:induction false} AddPacksWellformed(sel: Selection, packs: seq<string>, reason: string)
    ensures Wellformed(sel) ==> Wellformed(AddPacks(sel, packs, reason))
  {
    if Wellformed(sel) {
      var r := AddPacks(sel, packs, reason);
      forall q | q in r.packs ensures |ReasonsOf(r, q)| > 0 {
        AddPacksReasons(sel, packs, reason, q);
        if q !in sel.packs {
          assert q in NonEmpty(packs);
        }
      }
    }
  }

  /** One `addAll` call of a selection stage: the packs and the reason. */
  datatype Contribution = Contribution(packs: seq<string>, reason: string)

  /** Every pack named by the contributions, in order. */
  function Flatten(cs: seq<Contribution>): seq<string> {
    if cs == [] then [] else cs[0].packs + Flatten(cs[1..])
  }

  /** The reasons the contributions give `pack`, in order. */
  function ReasonsIn(cs: seq<Contribution>, pack: string): seq<string> {
    if cs == [] then [] else Copies(cs[0].reason, Count(cs[0].packs, pack)) + ReasonsIn(cs[1..], pack)
  }

  /** The stages' `addAll` calls applied in turn. */
  function Apply(sel: Selection, cs: seq<Contribution>): (r: Selection)
    ensures r.packs == AddAll(sel.packs, NonEmpty(Flatten(cs)))
    decreases |cs|
  {
    if cs == [] then sel
    else
      var r := Apply(AddPacks(sel, cs[0].packs, cs[0].reason), cs[1..]);
      NonEmptyAppend(cs[0].packs, Flatten(cs[1..]));
      AddAllAppend(sel.packs, NonEmpty(cs[0].packs), NonEmpty(Flatten(cs[1..])));
      r
  }

  /** After the stages, a pack's reasons are the ones it had followed by one
      per contribution naming it, in stage order. */
  lemma {:induction false} ApplyReasons(sel: Selection, cs: seq<Contribution>, q: string)
    requires q != ""
    ensures ReasonsOf(Apply(sel, cs), q) == ReasonsOf(sel, q) + ReasonsIn(cs, q)
    decreases |cs|
  {
    if cs != [] {
      var next := AddPacks(sel, cs[0].packs, cs[0].reason);
      AddPacksReasons(sel, cs[0].packs, cs[0].reason, q);
      ApplyReasons(next, cs[1..], q);
      ApplyFirst(sel, cs, q);
      AppendAssoc(ReasonsOf(sel, q), Copies(cs[0].reason, Count(cs[0].packs, q)), ReasonsIn(cs[1..], q));
    }
  }

  /** One stage of `Apply`, with its reasons unfolded. */
  lemma ApplyFirst(sel: Selection, cs: seq<Contribution>, q: string)
    requires cs != []
    ensures Apply(sel, cs) == Apply(AddPacks(sel, cs[0].packs, cs[0].reason), cs[1..])
    ensures ReasonsIn(cs, q) == Copies(cs[0].reason, Count(cs[0].packs, q)) + ReasonsIn(cs[1..], q)
  {
  }

  lemma {:induction false} ApplyWellformed(sel: Selection, cs: seq<Contribution>)
    ensures Wellformed(sel) ==> Wellformed(Apply(sel, cs))
    decreases |cs|
  {
    if cs != [] {
      AddPacksWellformed(sel, cs[0].packs, cs[0].reason);
      ApplyWellformed(AddPacks(sel, cs[0].packs, cs[0].reason), cs[1..]);
    }
  }

  /** `autoSelect.<flag> ?? true`. */
  function Enabled(flag: Option<bool>): (b: bool)
    ensures b <==> flag != Some(false)
  {
    flag.GetOr(true)
  }

  /** The five `auto_select` switches, each defaulting to on. */
  datatype Switches = Switches(ptype: bool, framework: bool, service: bool, language: bool, keywords: bool)

  function SwitchesOf(config: Option<AutoConfig>): (s: Switches)
    ensures AutoSelectOf(config).None? ==> s == Switches(true, true, true, true, true)
  {
    match AutoSelectOf(config)
    case None => Switches(true, true, true, true, true)
    case Some(a) => Switches(Enabled(a.typeSpecific), Enabled(a.frameworkSpecific),
      Enabled(a.serviceSpecific), Enabled(a.languageSpecific), Enabled(a.keywordSpecific))
  }

  /** `config?.packs?.always_include || rules.alwaysInclude`; an empty array is
      truthy and replaces the defaults. */
  function AlwaysInclude(config: Option<AutoConfig>, rules: Rules): seq<string> {
    if config.Some? && config.value.packs.Some? && config.value.packs.value.alwaysInclude.Some?
    then config.value.packs.value.alwaysInclude.value
    else rules.alwaysInclude
  }

  function TypeStage(rules: Rules, on: bool, ctx: DetectedContext): seq<Contribution> {
    if on then [Contribution(Lookup(rules.projectType, ctx.project.ptype.Name()), "project:" + ctx.project.ptype.Name())]
    else []
  }

  function LanguageStage(rules: Rules, langs: seq<string>): (r: seq<Contribution>)
    ensures |r| == |langs|
  {
    seq(|langs|, i requires 0 <= i < |langs| => Contribution(Lookup(rules.language, langs[i]), "language:" + langs[i]))
  }

  function FrameworkStage(rules: Rules, on: bool, ctx: DetectedContext): seq<Contribution> {
    var fw := ctx.project.framework;
    if on && Set(fw) then [Contribution(Lookup(rules.framework, fw.value), "framework:" + fw.value)] else []
  }

  /** The service stage: the conventional `services/<name>` pack, then the
      configured ones. */
  function ServiceStage(rules: Rules, on: bool, ctx: DetectedContext): seq<Contribution> {
    var name := ctx.service.name;
    if on && Set(name) then
      [Contribution(["services/" + name.value], "service:" + name.value),
       Contribution(Lookup(rules.service, name.value), "service:" + name.value)]
    else []
  }

  function KeywordStage(rules: Rules, keywords: seq<string>): (r: seq<Contribution>)
    ensures |r| == |keywords|
  {
    seq(|keywords|, i requires 0 <= i < |keywords| => Contribution(Lookup(rules.keywords, keywords[i]), "keyword:" + keywords[i]))
  }

  /** `Object.entries(config.keywords)` restricted to the detected keywords. */
  function CustomKeywordStage(table: KeywordTable, keywords: seq<string>): (r: seq<Contribution>)
    ensures |r| <= |table|
  {
    if table == [] then []
    else
      var rest := CustomKeywordStage(table[1..], keywords);
      if table[0].0 in keywords then [Contribution(table[0].1, "keyword:" + table[0].0)] + rest else rest
  }

  function AdditionalStage(config: Option<AutoConfig>): seq<Contribution> {
    if config.Some? && config.value.packs.Some? && config.value.packs.value.additional.Some?
    then [Contribution(config.value.packs.value.additional.value, "config:additional")]
    else []
  }

  /** Every `addAll` call `select` makes before the keyword overrides, in order:
      always, project type, languages, framework, service, rule keywords,
      custom keywords, `additional`. */
  function Contributions(config: Option<AutoConfig>, rules: Rules, ctx: DetectedContext): (r: seq<Contribution>)
    ensures |r| > 0 && r[0] == Contribution(AlwaysInclude(config, rules), "always")
  {
    var sw := SwitchesOf(config);
    var keywords := ctx.task.keywords;
    var custom := if config.Some? && config.value.keywords.Some? then config.value.keywords.value else [];
    [Contribution(AlwaysInclude(config, rules), "always")]
      + TypeStage(rules, sw.ptype, ctx)
      + (if sw.language then LanguageStage(rules, ctx.project.language) else [])
      + FrameworkStage(rules, sw.framework, ctx)
      + ServiceStage(rules, sw.service, ctx)
      + (if sw.keywords then KeywordStage(rules, keywords) + CustomKeywordStage(custom, keywords) else [])
      + AdditionalStage(config)
  }

  /** `xs` without the members of `drop`, in order. */
  function Without(xs: seq<string>, drop: seq<string>): (r: seq<string>)
    ensures forall p :: p in r <==> p in xs && p !in drop
    decreases |xs|
  {
    if xs == [] then [] else (if xs[0] in drop then [] else [xs[0]]) + Without(xs[1..], drop)
  }

  lemma {:induction false} WithoutAppend(a: seq<string>, b: seq<string>, drop: seq<string>)
    ensures Without(a + b, drop) == Without(a, drop) + Without(b, drop)
    decreases |a|
  {
    if a == [] {
      assert a + b == b;
    } else {
      assert (a + b)[0] == a[0];
      assert (a + b)[1..] == a[1..] + b;
      WithoutAppend(a[1..], b, drop);
    }
  }

  lemma {:induction false} WithoutNothing(xs: seq<string>)
    ensures Without(xs, []) == xs
    decreases |xs|
  {
    if xs != [] {
      WithoutNothing(xs[1..]);
      assert xs == [xs[0]] + xs[1..];
    }
  }

  /** Deleting `x` and then the members of `drop` deletes `[x] + drop`. */
  lemma {:induction false} RemoveThenWithout(xs: seq<string>, x: string, drop: seq<string>)
    ensures Without(Remove(xs, x), drop) == Without(xs, [x] + drop)
    decreases |xs|
  {
    if xs != [] {
      RemoveThenWithout(xs[1..], x, drop);
      if xs[0] != x {
        var rest := Remove(xs[1..], x);
        assert Remove(xs, x) == [xs[0]] + rest;
        assert ([xs[0]] + rest)[0] == xs[0] && ([xs[0]] + rest)[1..] == rest;
      }
    }
  }

  /** Removes each pack and records `reason` against it, selected or not. */
  function RemovePacks(sel: Selection, packs: seq<string>, reason: string): (r: Selection)
    ensures forall p :: p in r.packs <==> p in sel.packs && p !in packs
    ensures forall p :: p in packs ==> reason in ReasonsOf(r, p)
    ensures forall p :: IsPrefixOf(ReasonsOf(sel, p), ReasonsOf(r, p))
    ensures Wellformed(sel) ==> Wellformed(r)
    decreases |packs|
  {
    if packs == [] then sel
    else
      var p := packs[0];
      var next := Selection(Remove(sel.packs, p), sel.reasons[p := ReasonsOf(sel, p) + [reason]]);
      assert reason in ReasonsOf(next, p);
      var r := RemovePacks(next, packs[1..], reason);
      assert forall q :: IsPrefixOf(ReasonsOf(sel, q), ReasonsOf(r, q)) by {
        forall q ensures IsPrefixOf(ReasonsOf(sel, q), ReasonsOf(r, q)) {
          assert IsPrefixOf(ReasonsOf(sel, q), ReasonsOf(next, q));
          PrefixOfTrans(ReasonsOf(sel, q), ReasonsOf(next, q), ReasonsOf(r, q));
        }
      }
      assert Wellformed(sel) ==> Wellformed(next);
      assert reason in ReasonsOf(r, p) by {
        assert IsPrefixOf(ReasonsOf(next, p), ReasonsOf(r, p));
        var k :| 0 <= k < |ReasonsOf(next, p)| && ReasonsOf(next, p)[k] == reason;
        assert ReasonsOf(r, p)[k] == reason;
      }
      r
  }

  /** The packs that stay keep their order. */
  lemma {:induction false} RemovePacksOrder(sel: Selection, packs: seq<string>, reason: string)
    ensures RemovePacks(sel, packs, reason).packs == Without(sel.packs, packs)
    decreases |packs|
  {
    if packs == [] {
      WithoutNothing(sel.packs);
    } else {
      var p := packs[0];
      var next := Selection(Remove(sel.packs, p), sel.reasons[p := ReasonsOf(sel, p) + [reason]]);
      assert RemovePacks(sel, packs, reason) == RemovePacks(next, packs[1..], reason);
      RemovePacksOrder(next, packs[1..], reason);
      RemoveThenWithout(sel.packs, p, packs[1..]);
      assert [p] + packs[1..] == packs;
    }
  }

  /** `a` is a prefix of `b`. */
  predicate IsPrefixOf(a: seq<string>, b: seq<string>) {
    |a| <= |b| && b[..|a|] == a
  }

  lemma PrefixOfTrans(a: seq<string>, b: seq<string>, c: seq<string>)
    requires IsPrefixOf(a, b) && IsPrefixOf(b, c)
    ensures IsPrefixOf(a, c)
  {
    assert c[..|a|] == c[..|b|][..|a|];
  }

  /** The `add_packs` half of an override. */
  function OverrideAdds(sel: Selection, keyword: string, o: KeywordOverride): Selection {
    if o.addPacks.Some? then AddPacks(sel, o.addPacks.value, "override:" + keyword) else sel
  }

  /** An override that fires: `add_packs` first, then `remove_packs`. */
  function ApplyOverride(sel: Selection, keyword: string, o: KeywordOverride): (r: Selection)
    ensures forall p :: Removes(o, p) ==> p !in r.packs
    ensures forall p :: (p in sel.packs || (Adds(o, p) && p != "")) && !Removes(o, p) ==> p in r.packs
    ensures forall p :: p in r.packs ==> p in sel.packs || (Adds(o, p) && p != "")
    ensures forall p :: IsPrefixOf(ReasonsOf(sel, p), ReasonsOf(r, p))
    ensures Wellformed(sel) ==> Wellformed(r)
  {
    var added := OverrideAdds(sel, keyword, o);
    assert Wellformed(sel) ==> Wellformed(added) by {
      if o.addPacks.Some? {
        AddPacksWellformed(sel, o.addPacks.value, "override:" + keyword);
      }
    }
    assert forall p :: IsPrefixOf(ReasonsOf(sel, p), ReasonsOf(added, p)) by {
      forall p ensures IsPrefixOf(ReasonsOf(sel, p), ReasonsOf(added, p)) {
        if o.addPacks.Some? {
          AddPacksReasons(sel, o.addPacks.value, "override:" + keyword, p);
          if p != "" {
            assert ReasonsOf(added, p)[..|ReasonsOf(sel, p)|] == ReasonsOf(sel, p);
          }
        }
      }
    }
    var r := if o.removePacks.Some? then RemovePacks(added, o.removePacks.value, "removed:" + keyword) else added;
    assert forall p :: IsPrefixOf(ReasonsOf(sel, p), ReasonsOf(r, p)) by {
      forall p ensures IsPrefixOf(ReasonsOf(sel, p), ReasonsOf(r, p)) {
        PrefixOfTrans(ReasonsOf(sel, p), ReasonsOf(added, p), ReasonsOf(r, p));
      }
    }
    r
  }

  /** The override's `remove_packs`, empty when it has none. */
  function RemoveList(o: KeywordOverride): (r: seq<string>)
    ensures forall p :: p in r <==> Removes(o, p)
  {
    if o.removePacks.Some? then o.removePacks.value else []
  }

  /** An override keeps the packs it does not remove in their order, in front,
      and appends only packs it adds. */
  lemma ApplyOverrideOrder(sel: Selection, keyword: string, o: KeywordOverride)
    ensures var r := ApplyOverride(sel, keyword, o);
      var kept := Without(sel.packs, RemoveList(o));
      && IsPrefixOf(kept, r.packs)
      && forall k :: |kept| <= k < |r.packs| ==> Adds(o, r.packs[k]) && r.packs[k] != ""
  {
    var added := OverrideAdds(sel, keyword, o);
    var tail := added.packs[|sel.packs|..];
    OverrideAddsTail(sel, keyword, o);
    ApplyOverrideSplit(sel, keyword, o);
    PrefixThenFiltered(ApplyOverride(sel, keyword, o).packs, Without(sel.packs, RemoveList(o)), tail, RemoveList(o));
  }

  /** The packs an override's `add_packs` appends are packs it adds. */
  lemma OverrideAddsTail(sel: Selection, keyword: string, o: KeywordOverride)
    ensures var added := OverrideAdds(sel, keyword, o).packs;
      && |sel.packs| <= |added| && added == sel.packs + added[|sel.packs|..]
      && forall x :: x in added[|sel.packs|..] ==> Adds(o, x) && x != ""
  {
    var added := OverrideAdds(sel, keyword, o).packs;
    var tail := added[|sel.packs|..];
    if o.addPacks.Some? {
      AddAllTail(sel.packs, NonEmpty(o.addPacks.value));
      forall x | x in tail ensures Adds(o, x) && x != "" {
        var k :| 0 <= k < |tail| && tail[k] == x;
        assert added[|sel.packs| + k] == x;
      }
    }
  }

  /** After an override, the packs are the unremoved old ones followed by the
      unremoved appended ones. */
  lemma ApplyOverrideSplit(sel: Selection, keyword: string, o: KeywordOverride)
    requires |sel.packs| <= |OverrideAdds(sel, keyword, o).packs|
    requires OverrideAdds(sel, keyword, o).packs == sel.packs + OverrideAdds(sel, keyword, o).packs[|sel.packs|..]
    ensures var tail := OverrideAdds(sel, keyword, o).packs[|sel.packs|..];
      ApplyOverride(sel, keyword, o).packs == Without(sel.packs, RemoveList(o)) + Without(tail, RemoveList(o))
  {
    var added := OverrideAdds(sel, keyword, o);
    var tail := added.packs[|sel.packs|..];
    if o.removePacks.Some? {
      RemovePacksOrder(added, o.removePacks.value, "removed:" + keyword);
    } else {
      WithoutNothing(added.packs);
    }
    WithoutAppend(sel.packs, tail, RemoveList(o));
  }

  lemma PrefixThenFiltered(r: seq<string>, kept: seq<string>, tail: seq<string>, drop: seq<string>)
    requires r == kept + Without(tail, drop)
    ensures IsPrefixOf(kept, r)
    ensures forall k :: |kept| <= k < |r| ==> r[k] in tail
  {
    assert r[..|kept|] == kept;
    forall k | |kept| <= k < |r| ensures r[k] in tail {
      assert r[k] == Without(tail, drop)[k - |kept|];
    }
  }

  /** The `[keyword, override]` pairs `applyKeywordOverrides` walks. */
  function OverrideTable(c: CompilationConfig): seq<(string, Option<KeywordOverride>)> {
    [("test", c.onKeywordTest), ("security", c.onKeywordSecurity), ("performance", c.onKeywordPerformance)]
  }

  /** The override at `(keyword, o)` fires: it is set and the task mentions
      the keyword. */
  predicate Fires(entry: (string, Option<KeywordOverride>), keywords: seq<string>) {
    entry.1.Some? && entry.0 in keywords
  }

  /** One entry of the table: its override when it fires, nothing otherwise. */
  function StepOverride(sel: Selection, entry: (string, Option<KeywordOverride>), keywords: seq<string>): Selection {
    if Fires(entry, keywords) then ApplyOverride(sel, entry.0, entry.1.value) else sel
  }

  /** The overrides from `table` on, each applied when it fires. */
  function ApplyOverridesFrom(sel: Selection, table: seq<(string, Option<KeywordOverride>)>, keywords: seq<string>): (r: Selection)
    ensures forall p :: p in sel.packs && NeverRemoved(table, keywords, p) ==> p in r.packs
    ensures forall p :: p in r.packs ==> p in sel.packs || SomeAdds(table, keywords, p)
    ensures forall p :: LastRemoves(table, keywords, p) ==> p !in r.packs
    ensures forall p :: IsPrefixOf(ReasonsOf(sel, p), ReasonsOf(r, p))
    ensures Wellformed(sel) ==> Wellformed(r)
    decreases |table|
  {
    if table == [] then sel
    else
      var next := if Fires(table[0], keywords) then ApplyOverride(sel, table[0].0, table[0].1.value) else sel;
      var r := ApplyOverridesFrom(next, table[1..], keywords);
      assert forall p :: IsPrefixOf(ReasonsOf(sel, p), ReasonsOf(r, p)) by {
        forall p ensures IsPrefixOf(ReasonsOf(sel, p), ReasonsOf(r, p)) {
          PrefixOfTrans(ReasonsOf(sel, p), ReasonsOf(next, p), ReasonsOf(r, p));
        }
      }
      assert forall p :: p in sel.packs && NeverRemoved(table, keywords, p) ==> p in r.packs by {
        forall p | p in sel.packs && NeverRemoved(table, keywords, p) ensures p in r.packs {
          NeverRemovedStep(table, keywords, p);
        }
      }
      assert forall p :: LastRemoves(table, keywords, p) ==> p !in r.packs by {
        if |table| > 1 {
          assert table[1..][|table[1..]| - 1] == table[|table| - 1];
        }
      }
      assert forall p :: p in r.packs ==> p in sel.packs || SomeAdds(table, keywords, p) by {
        forall p | p in r.packs ensures p in sel.packs || SomeAdds(table, keywords, p) {
          SomeAddsShift(table, keywords, p);
          if p !in sel.packs && p in next.packs {
            assert AddsAt(table, keywords, 0, p);
          }
        }
      }
      r
  }

  /** The last override of `table` fires and removes `p`. */
  predicate LastRemoves(table: seq<(string, Option<KeywordOverride>)>, keywords: seq<string>, p: string) {
    |table| > 0 && Fires(table[|table| - 1], keywords) && Removes(table[|table| - 1].1.value, p)
  }

  /** No override of `table` that fires removes `p`. */
  ghost predicate NeverRemoved(table: seq<(string, Option<KeywordOverride>)>, keywords: seq<string>, p: string) {
    forall i :: 0 <= i < |table| && Fires(table[i], keywords) ==> !Removes(table[i].1.value, p)
  }

  /** Some override of `table` that fires adds `p`, a non-empty pack. */
  ghost predicate SomeAdds(table: seq<(string, Option<KeywordOverride>)>, keywords: seq<string>, p: string) {
    exists i :: AddsAt(table, keywords, i, p)
  }

  /** Entry `i` of `table` fires and removes `p`. */
  predicate RemovesAt(table: seq<(string, Option<KeywordOverride>)>, keywords: seq<string>, i: int, p: string) {
    0 <= i < |table| && Fires(table[i], keywords) && Removes(table[i].1.value, p)
  }

  /** Entry `i` of `table` fires and adds `p`, a non-empty pack. */
  predicate AddsAt(table: seq<(string, Option<KeywordOverride>)>, keywords: seq<string>, i: int, p: string) {
    0 <= i < |table| && Fires(table[i], keywords) && Adds(table[i].1.value, p) && p != ""
  }

  /** A firing entry after `i` adds `p`. */
  ghost predicate AddedAfter(table: seq<(string, Option<KeywordOverride>)>, keywords: seq<string>, i: int, p: string) {
    exists j :: i < j && AddsAt(table, keywords, j, p)
  }

  /** Entry `i` or a later one fires and removes `p`. */
  ghost predicate RemovedFrom(table: seq<(string, Option<KeywordOverride>)>, keywords: seq<string>, i: int, p: string) {
    exists j :: i <= j && RemovesAt(table, keywords, j, p)
  }

  /** The packs of `packs` that no firing override of `table` removes, in
      their order. */
  ghost function Survivors(packs: seq<string>, table: seq<(string, Option<KeywordOverride>)>, keywords: seq<string>): (r: seq<string>)
    ensures forall x :: x in r ==> x in packs
    decreases |packs|
  {
    if packs == [] then []
    else (if NeverRemoved(table, keywords, packs[0]) then [packs[0]] else []) + Survivors(packs[1..], table, keywords)
  }

  lemma {:induction false} SurvivorsAppend(a: seq<string>, b: seq<string>, table: seq<(string, Option<KeywordOverride>)>, keywords: seq<string>)
    ensures Survivors(a + b, table, keywords) == Survivors(a, table, keywords) + Survivors(b, table, keywords)
    decreases |a|
  {
    if a == [] {
      assert a + b == b;
    } else {
      assert (a + b)[0] == a[0];
      assert (a + b)[1..] == a[1..] + b;
      SurvivorsAppend(a[1..], b, table, keywords);
    }
  }

  /** With no overrides left every pack survives. */
  lemma {:induction false} SurvivorsOfNothing(xs: seq<string>, keywords: seq<string>)
    ensures Survivors(xs, [], keywords) == xs
    decreases |xs|
  {
    if xs != [] {
      SurvivorsOfNothing(xs[1..], keywords);
      assert xs == [xs[0]] + xs[1..];
    }
  }

  /** A pack escapes every override of `table` iff it escapes the first one
      and every later one. */
  lemma NeverRemovedStep(table: seq<(string, Option<KeywordOverride>)>, keywords: seq<string>, p: string)
    requires |table| > 0
    ensures NeverRemoved(table, keywords, p)
      <==> (Fires(table[0], keywords) ==> !Removes(table[0].1.value, p)) && NeverRemoved(table[1..], keywords, p)
  {
    assert forall i :: 0 <= i < |table[1..]| ==> table[1..][i] == table[i + 1];
    if !NeverRemoved(table, keywords, p) {
      var i :| 0 <= i < |table| && Fires(table[i], keywords) && Removes(table[i].1.value, p);
      if i > 0 {
        assert table[1..][i - 1] == table[i];
      }
    }
  }

  /** The survivors of `table` are the survivors, among what its first entry
      leaves, of the later entries. */
  lemma SurvivorsStep(xs: seq<string>, table: seq<(string, Option<KeywordOverride>)>, keywords: seq<string>)
    requires |table| > 0
    ensures Fires(table[0], keywords) ==>
      Survivors(Without(xs, RemoveList(table[0].1.value)), table[1..], keywords) == Survivors(xs, table, keywords)
    ensures !Fires(table[0], keywords) ==> Survivors(xs, table[1..], keywords) == Survivors(xs, table, keywords)
  {
    if Fires(table[0], keywords) {
      SurvivorsStepFires(xs, table, keywords);
    } else {
      SurvivorsStepIdle(xs, table, keywords);
    }
  }

  lemma {:induction false} SurvivorsStepFires(xs: seq<string>, table: seq<(string, Option<KeywordOverride>)>, keywords: seq<string>)
    requires |table| > 0 && Fires(table[0], keywords)
    ensures Survivors(Without(xs, RemoveList(table[0].1.value)), table[1..], keywords) == Survivors(xs, table, keywords)
    decreases |xs|
  {
    if xs != [] {
      var drop := RemoveList(table[0].1.value);
      var x := xs[0];
      SurvivorsStepFires(xs[1..], table, keywords);
      NeverRemovedStep(table, keywords, x);
      var w := Without(xs[1..], drop);
      assert Survivors(xs, table, keywords)
        == (if NeverRemoved(table, keywords, x) then [x] else []) + Survivors(xs[1..], table, keywords);
      if x in drop {
        assert Without(xs, drop) == w;
      } else {
        assert Without(xs, drop) == [x] + w;
        assert ([x] + w)[0] == x && ([x] + w)[1..] == w;
      }
    }
  }

  lemma {:induction false} SurvivorsStepIdle(xs: seq<string>, table: seq<(string, Option<KeywordOverride>)>, keywords: seq<string>)
    requires |table| > 0 && !Fires(table[0], keywords)
    ensures Survivors(xs, table[1..], keywords) == Survivors(xs, table, keywords)
    decreases |xs|
  {
    if xs != [] {
      SurvivorsStepIdle(xs[1..], table, keywords);
      NeverRemovedStep(table, keywords, xs[0]);
    }
  }

  /** A pack some entry of `table[1..]` adds is one some entry of `table` adds. */
  lemma SomeAddsShift(table: seq<(string, Option<KeywordOverride>)>, keywords: seq<string>, p: string)
    requires |table| > 0
    ensures SomeAdds(table[1..], keywords, p) ==> SomeAdds(table, keywords, p)
  {
    if SomeAdds(table[1..], keywords, p) {
      var j :| AddsAt(table[1..], keywords, j, p);
      assert table[1..][j] == table[j + 1];
      assert AddsAt(table, keywords, j + 1, p);
    }
  }

  /** The overrides keep the packs no firing override removes in front, in
      their order, and append only packs a firing override adds. */
  lemma {:induction false} OverridesKeepOrder(sel: Selection, table: seq<(string, Option<KeywordOverride>)>, keywords: seq<string>)
    ensures var r := ApplyOverridesFrom(sel, table, keywords);
      var kept := Survivors(sel.packs, table, keywords);
      && IsPrefixOf(kept, r.packs)
      && forall k :: |kept| <= k < |r.packs| ==> SomeAdds(table, keywords, r.packs[k])
    decreases |table|
  {
    var r := ApplyOverridesFrom(sel, table, keywords);
    var kept := Survivors(sel.packs, table, keywords);
    if table == [] {
      SurvivorsOfNothing(sel.packs, keywords);
    } else {
      var next := StepOverride(sel, table[0], keywords);
      OverridesUnfold(sel, table, keywords);
      OverridesKeepOrder(next, table[1..], keywords);
      FirstEntryOrder(sel, table, keywords);
      var mid := Survivors(next.packs, table[1..], keywords);
      PrefixOfTrans(kept, mid, r.packs);
      forall k | |kept| <= k < |r.packs| ensures SomeAdds(table, keywords, r.packs[k]) {
        SomeAddsShift(table, keywords, r.packs[k]);
        if k < |mid| {
          assert r.packs[k] == mid[k];
          assert AddsAt(table, keywords, 0, r.packs[k]);
        }
      }
    }
  }

  /** After the first entry, the survivors of the later entries are the
      survivors of the whole table followed by packs the first entry adds. */
  lemma FirstEntryOrder(sel: Selection, table: seq<(string, Option<KeywordOverride>)>, keywords: seq<string>)
    requires |table| > 0
    ensures var mid := Survivors(StepOverride(sel, table[0], keywords).packs, table[1..], keywords);
      var kept := Survivors(sel.packs, table, keywords);
      && IsPrefixOf(kept, mid)
      && forall k :: |kept| <= k < |mid| ==> AddsAt(table, keywords, 0, mid[k])
  {
    if Fires(table[0], keywords) {
      FiringEntryOrder(sel, table, keywords);
    } else {
      SurvivorsStep(sel.packs, table, keywords);
    }
  }

  lemma FiringEntryOrder(sel: Selection, table: seq<(string, Option<KeywordOverride>)>, keywords: seq<string>)
    requires |table| > 0 && Fires(table[0], keywords)
    ensures var mid := Survivors(ApplyOverride(sel, table[0].0, table[0].1.value).packs, table[1..], keywords);
      var kept := Survivors(sel.packs, table, keywords);
      && IsPrefixOf(kept, mid)
      && forall k :: |kept| <= k < |mid| ==> AddsAt(table, keywords, 0, mid[k])
  {
    var o := table[0].1.value;
    var next := ApplyOverride(sel, table[0].0, o).packs;
    var w := Without(sel.packs, RemoveList(o));
    OverrideAppends(sel, table[0].0, o);
    var tail := next[|w|..];
    var extra := Survivors(tail, table[1..], keywords);
    var kept := Survivors(sel.packs, table, keywords);
    var mid := Survivors(next, table[1..], keywords);
    assert mid == kept + extra by {
      SurvivorsAppend(w, tail, table[1..], keywords);
      SurvivorsStep(sel.packs, table, keywords);
    }
    PrefixThenTail(mid, kept, extra);
    forall k | |kept| <= k < |mid| ensures AddsAt(table, keywords, 0, mid[k]) {
      assert mid[k] in tail;
    }
  }

  /** `ApplyOverrideOrder`, with the appended packs as a slice. */
  lemma OverrideAppends(sel: Selection, keyword: string, o: KeywordOverride)
    ensures var r := ApplyOverride(sel, keyword, o).packs;
      var kept := Without(sel.packs, RemoveList(o));
      && |kept| <= |r| && r == kept + r[|kept|..]
      && forall x :: x in r[|kept|..] ==> Adds(o, x) && x != ""
  {
    var r := ApplyOverride(sel, keyword, o).packs;
    var kept := Without(sel.packs, RemoveList(o));
    ApplyOverrideOrder(sel, keyword, o);
    assert r == kept + r[|kept|..];
    forall x | x in r[|kept|..] ensures Adds(o, x) && x != "" {
      var t :| 0 <= t < |r[|kept|..]| && r[|kept|..][t] == x;
      assert r[|kept| + t] == x;
    }
  }

  lemma PrefixThenTail(r: seq<string>, kept: seq<string>, extra: seq<string>)
    requires r == kept + extra
    ensures IsPrefixOf(kept, r)
    ensures forall k :: |kept| <= k < |r| ==> r[k] in extra
  {
    assert r[..|kept|] == kept;
    forall k | |kept| <= k < |r| ensures r[k] in extra {
      assert r[k] == extra[k - |kept|];
    }
  }

  /** Per entry: a removal lasts unless a later firing override adds the pack
      back, and an addition lasts unless that entry or a later one removes it. */
  lemma {:induction false} OverridesTakeEffect(sel: Selection, table: seq<(string, Option<KeywordOverride>)>, keywords: seq<string>, i: int, p: string)
    ensures RemovesAt(table, keywords, i, p) && !AddedAfter(table, keywords, i, p) ==> p !in ApplyOverridesFrom(sel, table, keywords).packs
    ensures AddsAt(table, keywords, i, p) && !RemovedFrom(table, keywords, i, p) ==> p in ApplyOverridesFrom(sel, table, keywords).packs
    decreases |table|
  {
    if 0 <= i < |table| {
      var rest := table[1..];
      var next := StepOverride(sel, table[0], keywords);
      OverridesUnfold(sel, table, keywords);
      LaterEntries(table, keywords, i, p);
      if i > 0 {
        OverridesTakeEffect(next, rest, keywords, i - 1, p);
      } else if Fires(table[0], keywords) {
        var o := table[0].1.value;
        assert next == ApplyOverride(sel, table[0].0, o);
        if AddsAt(table, keywords, 0, p) && !RemovedFrom(table, keywords, 0, p) {
          assert !RemovesAt(table, keywords, 0, p);
          assert p in next.packs;
        }
        if RemovesAt(table, keywords, 0, p) {
          assert p !in next.packs;
        }
      }
    }
  }

  /** `ApplyOverridesFrom` takes one step. */
  lemma OverridesUnfold(sel: Selection, table: seq<(string, Option<KeywordOverride>)>, keywords: seq<string>)
    requires |table| > 0
    ensures ApplyOverridesFrom(sel, table, keywords) == ApplyOverridesFrom(StepOverride(sel, table[0], keywords), table[1..], keywords)
  {
  }

  /** How the per-entry predicates of `table` read on `table[1..]`. */
  lemma LaterEntries(table: seq<(string, Option<KeywordOverride>)>, keywords: seq<string>, i: int, p: string)
    requires 0 <= i < |table|
    ensures i == 0 && !AddedAfter(table, keywords, 0, p) ==> !SomeAdds(table[1..], keywords, p)
    ensures i == 0 && !RemovedFrom(table, keywords, 0, p) ==> NeverRemoved(table[1..], keywords, p)
    ensures i > 0 ==> (RemovesAt(table, keywords, i, p) <==> RemovesAt(table[1..], keywords, i - 1, p))
    ensures i > 0 ==> (AddsAt(table, keywords, i, p) <==> AddsAt(table[1..], keywords, i - 1, p))
    ensures i > 0 && AddedAfter(table[1..], keywords, i - 1, p) ==> AddedAfter(table, keywords, i, p)
    ensures i > 0 && RemovedFrom(table[1..], keywords, i - 1, p) ==> RemovedFrom(table, keywords, i, p)
  {
    var rest := table[1..];
    if SomeAdds(rest, keywords, p) {
      var j :| AddsAt(rest, keywords, j, p);
      assert AddsAt(table, keywords, j + 1, p);
    }
    if !NeverRemoved(rest, keywords, p) {
      var j :| 0 <= j < |rest| && Fires(rest[j], keywords) && Removes(rest[j].1.value, p);
      assert RemovesAt(table, keywords, j + 1, p);
    }
    if i > 0 {
      assert rest[i - 1] == table[i];
    }
    if AddedAfter(rest, keywords, i - 1, p) {
      var j :| i - 1 < j && AddsAt(rest, keywords, j, p);
      assert AddsAt(table, keywords, j + 1, p);
    }
    if RemovedFrom(rest, keywords, i - 1, p) {
      var j :| i - 1 <= j && RemovesAt(rest, keywords, j, p);
      assert RemovesAt(table, keywords, j + 1, p);
    }
  }

  /** `p` is among the override's `remove_packs`. */
  predicate Removes(o: KeywordOverride, p: string) {
    o.removePacks.Some? && p in o.removePacks.value
  }

  /** `p` is among the override's `add_packs`. */
  predicate Adds(o: KeywordOverride, p: string) {
    o.addPacks.Some? && p in o.addPacks.value
  }

  /** `applyKeywordOverrides`: nothing happens without a `compilation` block.
      With one, the test, security and performance overrides apply in that
      order: the packs none of them removes stay in front, in their order,
      followed only by packs a firing override adds; a removal lasts unless a
      later firing override adds the pack back, and an addition lasts unless
      that override or a later one removes it. */
  function ApplyKeywordOverrides(sel: Selection, keywords: seq<string>, config: Option<AutoConfig>): (r: Selection)
    ensures (config.None? || config.value.compilation.None?) ==> r == sel
    ensures config.Some? && config.value.compilation.Some? ==>
      var table := OverrideTable(config.value.compilation.value);
      var kept := Survivors(sel.packs, table, keywords);
      && IsPrefixOf(kept, r.packs)
      && (forall k :: |kept| <= k < |r.packs| ==> SomeAdds(table, keywords, r.packs[k]))
      && (forall i, p :: RemovesAt(table, keywords, i, p) && !AddedAfter(table, keywords, i, p) ==> p !in r.packs)
      && (forall i, p :: AddsAt(table, keywords, i, p) && !RemovedFrom(table, keywords, i, p) ==> p in r.packs)
    ensures Wellformed(sel) ==> Wellformed(r)
  {
    if config.Some? && config.value.compilation.Some? then
      var table := OverrideTable(config.value.compilation.value);
      OverridesKeepOrder(sel, table, keywords);
      EveryOverrideTakesEffect(sel, table, keywords);
      ApplyOverridesFrom(sel, table, keywords)
    else sel
  }

  /** `OverridesTakeEffect` for every entry and pack at once. */
  lemma EveryOverrideTakesEffect(sel: Selection, table: seq<(string, Option<KeywordOverride>)>, keywords: seq<string>)
    ensures var r := ApplyOverridesFrom(sel, table, keywords);
      && (forall i, p :: RemovesAt(table, keywords, i, p) && !AddedAfter(table, keywords, i, p) ==> p !in r.packs)
      && (forall i, p :: AddsAt(table, keywords, i, p) && !RemovedFrom(table, keywords, i, p) ==> p in r.packs)
  {
    forall i, p {
      OverridesTakeEffect(sel, table, keywords, i, p);
    }
  }

  /** `new PackSelector(config, rules).select(context)`: the stage packs,
      first occurrences in order, then the keyword overrides; the packs no
      firing override removes keep their place in front. */
  function Select(config: Option<AutoConfig>, rules: Rules, ctx: DetectedContext): (r: Selection)
    ensures Wellformed(r)
    ensures config.Some? && config.value.compilation.Some? ==>
      var table := OverrideTable(config.value.compilation.value);
      var kept := Survivors(Dedup(NonEmpty(Flatten(Contributions(config, rules, ctx)))), table, ctx.task.keywords);
      && IsPrefixOf(kept, r.packs)
      && forall k :: |kept| <= k < |r.packs| ==> SomeAdds(table, ctx.task.keywords, r.packs[k])
  {
    var cs := Contributions(config, rules, ctx);
    var base := Apply(NoSelection, cs);
    assert base.packs == Dedup(NonEmpty(Flatten(cs)));
    ApplyWellformed(NoSelection, cs);
    ApplyKeywordOverrides(base, ctx.task.keywords, config)
  }

  /** A pack named by some contribution is in the flattened list. */
  lemma {:induction false} InFlatten(cs: seq<Contribution>, i: nat, p: string)
    requires i < |cs| && p in cs[i].packs
    ensures p in Flatten(cs)
    decreases i
  {
    if i > 0 {
      InFlatten(cs[1..], i - 1, p);
    }
  }

  /** A contribution naming a pack leaves its reason in the pack's list. */
  lemma {:induction false} InReasons(cs: seq<Contribution>, i: nat, p: string)
    requires i < |cs| && p in cs[i].packs
    ensures cs[i].reason in ReasonsIn(cs, p)
    decreases i
  {
    if i > 0 {
      InReasons(cs[1..], i - 1, p);
    } else {
      assert Copies(cs[0].reason, Count(cs[0].packs, p))[0] == cs[0].reason;
    }
  }

  /** Without a `compilation` block the selection is exactly the stages'
      packs, first occurrences in order, empty names dropped, and each pack's
      reasons are the ones the stages gave it. */
  lemma SelectWithoutOverrides(config: Option<AutoConfig>, rules: Rules, ctx: DetectedContext, q: string)
    requires config.None? || config.value.compilation.None?
    ensures Select(config, rules, ctx).packs == Dedup(NonEmpty(Flatten(Contributions(config, rules, ctx))))
    ensures q != "" ==> ReasonsOf(Select(config, rules, ctx), q) == ReasonsIn(Contributions(config, rules, ctx), q)
  {
    if q != "" {
      ApplyReasons(NoSelection, Contributions(config, rules, ctx), q);
    }
  }

  /** The `always` packs lead the selection when no override intervenes. */
  lemma AlwaysFirst(config: Option<AutoConfig>, rules: Rules, ctx: DetectedContext)
    requires config.None? || config.value.compilation.None?
    ensures var lead := Dedup(NonEmpty(AlwaysInclude(config, rules)));
      var r := Select(config, rules, ctx).packs;
      |lead| <= |r| && r[..|lead|] == lead
  {
    var cs := Contributions(config, rules, ctx);
    assert Flatten(cs) == cs[0].packs + Flatten(cs[1..]);
    NonEmptyAppend(cs[0].packs, Flatten(cs[1..]));
    AddAllAppend([], NonEmpty(cs[0].packs), NonEmpty(Flatten(cs[1..])));
  }

  /** With the default rules and no configuration the selection starts with
      `core/security` and `core/code-quality`. */
  lemma DefaultsLead(ctx: DetectedContext)
    ensures var r := Select(None, DefaultRules, ctx).packs;
      |r| >= 2 && r[0] == "core/security" && r[1] == "core/code-quality"
  {
    assert "core/security"[5] != "core/code-quality"[5];
    TwoLead(None, DefaultRules, ctx, "core/security", "core/code-quality");
  }

  lemma TwoLead(config: Option<AutoConfig>, rules: Rules, ctx: DetectedContext, a: string, b: string)
    requires config.None? || config.value.compilation.None?
    requires AlwaysInclude(config, rules) == [a, b] && a != b && a != "" && b != ""
    ensures var r := Select(config, rules, ctx).packs;
      |r| >= 2 && r[0] == a && r[1] == b
  {
    AlwaysFirst(config, rules, ctx);
    DedupTwo(a, b);
  }

  lemma DedupTwo(a: string, b: string)
    requires a != b && a != "" && b != ""
    ensures Dedup(NonEmpty([a, b])) == [a, b]
  {
    assert [a, b][1..] == [b];
    assert NonEmpty([b]) == [b];
    assert NonEmpty([a, b]) == [a, b];
    assert Add([], a) == [a];
    assert AddAll([], [a, b]) == AddAll([a], [b]);
    assert Add([a], b) == [a, b];
    assert AddAll([a], [b]) == AddAll([a, b], []);
  }

  /** With the service switch on and a service name detected, the conventional
      `services/<name>` pack is selected for the reason `service:<name>`, whether
      or not the rules configure anything for the service. */
  lemma ServicePackSelected(config: Option<AutoConfig>, rules: Rules, ctx: DetectedContext)
    requires config.None? || config.value.compilation.None?
    requires SwitchesOf(config).service && Set(ctx.service.name)
    ensures var pack := "services/" + ctx.service.name.value;
      var r := Select(config, rules, ctx);
      pack in r.packs && "service:" + ctx.service.name.value in ReasonsOf(r, pack)
  {
    var name := ctx.service.name.value;
    var pack := "services/" + name;
    var sw := SwitchesOf(config);
    var keywords := ctx.task.keywords;
    var custom := if config.Some? && config.value.keywords.Some? then config.value.keywords.value else [];
    var pre := [Contribution(AlwaysInclude(config, rules), "always")]
      + TypeStage(rules, sw.ptype, ctx)
      + (if sw.language then LanguageStage(rules, ctx.project.language) else [])
      + FrameworkStage(rules, sw.framework, ctx);
    var cs := Contributions(config, rules, ctx);
    assert cs[|pre|] == Contribution([pack], "service:" + name);
    assert pack in cs[|pre|].packs;
    InFlatten(cs, |pre|, pack);
    InReasons(cs, |pre|, pack);
    SelectWithoutOverrides(config, rules, ctx, pack);
  }

  /** With the type switch on, every pack the rules give the detected
      project type is selected for the reason `project:<type>`. */
  lemma TypePackSelected(config: Option<AutoConfig>, rules: Rules, ctx: DetectedContext, pack: string)
    requires config.None? || config.value.compilation.None?
    requires SwitchesOf(config).ptype
    requires pack in Lookup(rules.projectType, ctx.project.ptype.Name()) && pack != ""
    ensures var r := Select(config, rules, ctx);
      pack in r.packs && "project:" + ctx.project.ptype.Name() in ReasonsOf(r, pack)
  {
    var cs := Contributions(config, rules, ctx);
    assert cs[1] == Contribution(Lookup(rules.projectType, ctx.project.ptype.Name()), "project:" + ctx.project.ptype.Name());
    InFlatten(cs, 1, pack);
    InReasons(cs, 1, pack);
    SelectWithoutOverrides(config, rules, ctx, pack);
  }

  /** With no configuration a backend project selects `framework/nestjs`,
      for the reason `project:backend`. */
  lemma BackendSelectsNestjs(rules: Rules, ctx: DetectedContext, pack: string, reason: string)
    requires rules == DefaultRules && ctx.project.ptype == Backend
    requires pack == "framework/nestjs" && reason == "project:backend"
    ensures var r := Select(None, rules, ctx);
      pack in r.packs && reason in ReasonsOf(r, pack)
  {
    var name := ctx.project.ptype.Name();
    DefaultBackendPacks(rules, name, pack);
    BackendReason(name, reason);
    TypePackSelected(None, rules, ctx, pack);
  }

  lemma DefaultBackendPacks(rules: Rules, name: string, pack: string)
    requires rules == DefaultRules && name == "backend" && pack == "framework/nestjs"
    ensures pack in Lookup(rules.projectType, name) && pack != ""
  {
  }

  lemma BackendReason(name: string, reason: string)
    requires name == "backend" && reason == "project:backend"
    ensures "project:" + name == reason
  {
  }

  /** With every `auto_select` switch off and nothing `additional`, only the
      `always` packs are selected. */
  lemma AllSwitchesOff(config: Option<AutoConfig>, rules: Rules, ctx: DetectedContext)
    requires config.Some? && config.value.compilation.None?
    requires config.value.packs.Some? && config.value.packs.value.additional.None?
    requires config.value.packs.value.autoSelect == Some(AutoSelect(Some(false), Some(false), Some(false), Some(false), Some(false)))
    ensures Select(config, rules, ctx).packs == Dedup(NonEmpty(AlwaysInclude(config, rules)))
  {
    var cs := Contributions(config, rules, ctx);
    assert cs == [Contribution(AlwaysInclude(config, rules), "always")];
    assert Flatten(cs) == AlwaysInclude(config, rules) + Flatten([]);
    SelectWithoutOverrides(config, rules, ctx, "");
  }

  /** A stage pack survives unless a firing override removes it, and every
      selected pack comes from a stage or a firing override's `add_packs`. */
  lemma SelectSoundAndComplete(config: Option<AutoConfig>, rules: Rules, ctx: DetectedContext, p: string)
    requires config.Some? && config.value.compilation.Some?
    ensures var cs := Contributions(config, rules, ctx);
      var table := OverrideTable(config.value.compilation.value);
      var r := Select(config, rules, ctx);
      && (p in Flatten(cs) && p != "" && NeverRemoved(table, ctx.task.keywords, p) ==> p in r.packs)
      && (p in r.packs ==> p in Flatten(cs) || SomeAdds(table, ctx.task.keywords, p))
      && (forall i :: RemovesAt(table, ctx.task.keywords, i, p) && !AddedAfter(table, ctx.task.keywords, i, p) ==> p !in r.packs)
      && (forall i :: AddsAt(table, ctx.task.keywords, i, p) && !RemovedFrom(table, ctx.task.keywords, i, p) ==> p in r.packs)
  {
  }

  /** A pack the `performance` override removes is never selected when the task
      mentions performance, whatever earlier stages and overrides added. */
  lemma PerformanceRemovalWins(config: Option<AutoConfig>, rules: Rules, ctx: DetectedContext, p: string)
    requires config.Some? && config.value.compilation.Some?
    requires config.value.compilation.value.onKeywordPerformance.Some?
    requires Removes(config.value.compilation.value.onKeywordPerformance.value, p)
    requires "performance" in ctx.task.keywords
    ensures p !in Select(config, rules, ctx).packs
  {
    var table := OverrideTable(config.value.compilation.value);
    assert LastRemoves(table, ctx.task.keywords, p);
  }
}
