/** `runEnforcement` (packages/core/src/enforcement.ts): the rules' `enforce`
    blocks turned into patterns, each pattern tested against the user input,
    every hit reported as a blocking violation or a warning. The regular
    expression engine is a parameter: given a source and flags it either
    rejects them (the constructor throws) or yields the test predicate. */
module Enforcement {
  import opened Wrappers
  import opened Text
  import opened Js
  import opened Registry
  import Seqs

  type RegexEngine = (string, string) -> Option<string -> bool>

  /** A rule tagged with the id of the pack it came from (`_pack`). */
  datatype SourcedRule = SourcedRule(rule: PackRule, pack: Value)

  datatype Level = Block | Warn

  /** `EnforcementViolation`. */
  datatype Entry = Entry(ruleId: string, packId: Value, etype: string, pattern: string, level: Level)

  /** The `enforce` block when it is a non-null object (arrays included, as
      `typeof` reports them). */
  function EnforceBlock(rule: PackRule): (r: Option<Value>)
    ensures r.Some? ==> r == rule.enforce && (r.value.JObj? || r.value.JArr?)
    ensures rule.enforce.None? ==> r.None?
  {
    if TruthyOpt(rule.enforce) && (rule.enforce.value.JObj? || rule.enforce.value.JArr?) then rule.enforce else None
  }

  /** `String(enforce.type || '')`. */
  function TypeOf(enforce: Value): string {
    var t := Get(enforce, "type");
    if TruthyOpt(t) then ToJsString(t.value) else ""
  }

  /** `enforce.level === 'warn' ? 'warn' : 'block'`. */
  function LevelOf(enforce: Value): (l: Level)
    ensures l == Warn <==> Get(enforce, "level") == Some(JStr("warn"))
  {
    if Get(enforce, "level") == Some(JStr("warn")) then Warn else Block
  }

  /** The non-empty strings of `ss`, in order. */
  function NonEmptyStrings(ss: seq<string>): (r: seq<string>)
    ensures forall s :: s in r <==> s in ss && s != ""
    ensures |r| <= |ss|
  {
    if ss == [] then []
    else if ss[0] == "" then NonEmptyStrings(ss[1..])
    else [ss[0]] + NonEmptyStrings(ss[1..])
  }

  /** `NonEmptyStrings` is `filter(Boolean)` on strings. */
  lemma {:induction false} NonEmptyStringsIsKeep(ss: seq<string>)
    ensures NonEmptyStrings(ss) == Seqs.Keep(ss, (s: string) => s != "")
    decreases |ss|
  {
    if ss != [] {
      NonEmptyStringsIsKeep(ss[1..]);
    }
  }

  /** `normalizePatterns(patterns)`: nothing for a falsy value, the elements
      of an array stringified, or a scalar stringified; empty strings dropped. */
  function NormalizePatterns(patterns: Option<Value>): (r: seq<string>)
    ensures "" !in r
    ensures !TruthyOpt(patterns) ==> r == []
    ensures TruthyOpt(patterns) && patterns.value.JArr? ==>
      forall s :: s in r <==> (exists v :: v in patterns.value.items && ToJsString(v) == s) && s != ""
    ensures TruthyOpt(patterns) && patterns.value.JArr? ==>
      r == Seqs.Keep(Strings(patterns.value.items), (s: string) => s != "")
  {
    match patterns
    case None => []
    case Some(v) =>
      if !Truthy(v) then []
      else if v.JArr? then
        var items := v.items;
        var strs := Strings(items);
        NonEmptyStringsIsKeep(strs);
        assert forall s :: s in strs <==> exists w :: w in items && ToJsString(w) == s by {
          forall s ensures s in strs <==> exists w :: w in items && ToJsString(w) == s {
            if exists w :: w in items && ToJsString(w) == s {
              var w :| w in items && ToJsString(w) == s;
              var i :| 0 <= i < |items| && items[i] == w;
              assert strs[i] == s;
            }
          }
        }
        NonEmptyStrings(strs)
      else NonEmptyStrings([ToJsString(v)])
  }

  /** A truthy scalar becomes the one pattern it stringifies to. */
  lemma ScalarPatternWrapped(v: Value)
    requires Truthy(v) && !v.JArr?
    ensures NormalizePatterns(Some(v)) == [ToJsString(v)]
  {
    assert ToJsString(v) != "" by {
      match v
      case JBool(b) =>
      case JNum(n) =>
        if n < 0 { } else { assert |NatToString(n)| >= 1; }
      case JStr(s) =>
      case JObj(_) =>
    }
  }

  /** `extractPatterns(type, enforce)`: `diff-scan` reads `deny_patterns`
      first, every other type `patterns` first; the first truthy one wins,
      even an empty array. */
  function ExtractPatterns(etype: string, enforce: Value): (r: seq<string>)
    ensures "" !in r
  {
    var patterns := Get(enforce, "patterns");
    var deny := Get(enforce, "deny_patterns");
    if etype == "diff-scan" then NormalizePatterns(Or(deny, patterns))
    else NormalizePatterns(Or(patterns, deny))
  }

  /** Which key each type reads first, and that presence, not content,
      decides: a present empty `patterns` array shadows `deny_patterns`. */
  lemma PatternPrecedence(etype: string, enforce: Value)
    ensures etype != "diff-scan" && TruthyOpt(Get(enforce, "patterns")) ==>
      ExtractPatterns(etype, enforce) == NormalizePatterns(Get(enforce, "patterns"))
    ensures etype != "diff-scan" && !TruthyOpt(Get(enforce, "patterns")) ==>
      ExtractPatterns(etype, enforce) == NormalizePatterns(Get(enforce, "deny_patterns"))
    ensures etype == "diff-scan" && TruthyOpt(Get(enforce, "deny_patterns")) ==>
      ExtractPatterns(etype, enforce) == NormalizePatterns(Get(enforce, "deny_patterns"))
    ensures etype != "diff-scan" && Get(enforce, "patterns") == Some(JArr([])) ==>
      ExtractPatterns(etype, enforce) == []
  {
  }

  /** `compilePattern(pattern)` up to the `RegExp` constructor: the source and
      the flags it is called with, `None` for a blank pattern. A trimmed
      pattern `/body/flags` with its last `/` past the first character splits
      there, the flags defaulting to `i`; anything else is taken whole,
      case-insensitively. */
  function PatternSource(pattern: string): (r: Option<(string, string)>)
    ensures r.None? <==> Trim(pattern) == ""
    ensures r.Some? && !(Trim(pattern)[0] == '/') ==> r == Some((Trim(pattern), "i"))
    ensures r.Some? ==> r.value.1 != ""
  {
    var t := Trim(pattern);
    if t == "" then None
    else if t[0] == '/' && LastIndex(t, '/').Some? && LastIndex(t, '/').value > 0 then
      var last := LastIndex(t, '/').value;
      var flags := t[last + 1..];
      Some((t[1..last], if flags == "" then "i" else flags))
    else Some((t, "i"))
  }

  /** A trimmed `/body/flags` literal with slash-free flags gives back its body
      and flags (`i` when none are written). */
  lemma SlashLiteralRoundTrip(body: string, flags: string)
    requires '/' !in flags
    requires flags == "" || !IsSpace(flags[|flags| - 1])
    ensures PatternSource("/" + body + "/" + flags) == Some((body, if flags == "" then "i" else flags))
  {
    var t := "/" + body + "/" + flags;
    TrimOfUnpadded(t);
    var l := |body| + 1;
    assert t[l] == '/';
    assert t[l + 1..] == flags;
    LastIndexAt(t, l, '/');
    assert t[1..l] == body;
  }

  /** A pattern whose only `/` is its first character (a lone `/`, say) is
      not a literal: it is taken whole. */
  lemma LeadingSlashOnly(t: string)
    requires t != [] && t[0] == '/' && '/' !in t[1..] && !IsSpace(t[|t| - 1])
    ensures PatternSource(t) == Some((t, "i"))
  {
    TrimOfUnpadded(t);
    LastIndexAt(t, 0, '/');
  }

  /** Trimming leaves text alone that neither starts nor ends with
      whitespace. */
  lemma TrimOfUnpadded(t: string)
    requires t != [] && !IsSpace(t[0]) && !IsSpace(t[|t| - 1])
    ensures Trim(t) == t
  {
  }

  /** The last `c` is at `l` when none follows it. */
  lemma {:induction false} LastIndexAt(t: string, l: nat, c: char)
    requires l < |t| && t[l] == c && c !in t[l + 1..]
    ensures LastIndex(t, c) == Some(l)
    decreases |t|
  {
    if t[|t| - 1] != c {
      assert t[|t| - 1] in t[l + 1..];
      LastIndexAt(t[..|t| - 1], l, c);
    }
  }

  /** `compilePattern` followed by the engine: the test predicate, if any. */
  function Compile(engine: RegexEngine, pattern: string): Option<string -> bool> {
    match PatternSource(pattern)
    case None => None
    case Some(src) => engine(src.0, src.1)
  }

  /** The pattern compiles and matches the input. */
  predicate Hits(engine: RegexEngine, pattern: string, input: string) {
    Compile(engine, pattern).Some? && Compile(engine, pattern).value(input)
  }

  /** The entries one rule's patterns produce, in pattern order. */
  function PatternEntries(input: string, sr: SourcedRule, etype: string, level: Level,
                          patterns: seq<string>, engine: RegexEngine): (r: seq<Entry>)
    ensures |r| <= |patterns|
    decreases |patterns|
  {
    if patterns == [] then []
    else
      var last := patterns[|patterns| - 1];
      PatternEntries(input, sr, etype, level, patterns[..|patterns| - 1], engine)
        + if Hits(engine, last, input) then [Entry(sr.rule.id, sr.pack, etype, last, level)] else []
  }

  /** Each entry names the rule, its pack, the type and level it was given
      and a pattern of the list that compiled and matched the input. */
  lemma {:induction false} PatternEntriesShape(input: string, sr: SourcedRule, etype: string, level: Level,
                                               patterns: seq<string>, engine: RegexEngine)
    ensures forall e :: e in PatternEntries(input, sr, etype, level, patterns, engine) ==>
      e.level == level && e.etype == etype && e.ruleId == sr.rule.id && e.packId == sr.pack
    ensures forall e :: e in PatternEntries(input, sr, etype, level, patterns, engine) ==>
      e.pattern in patterns && Hits(engine, e.pattern, input)
    decreases |patterns|
  {
    if patterns != [] {
      PatternEntriesShape(input, sr, etype, level, patterns[..|patterns| - 1], engine);
    }
  }

  /** Every entry one rule contributes, in pattern order. */
  function RuleEntries(input: string, sr: SourcedRule, engine: RegexEngine): (r: seq<Entry>)
    ensures EnforceBlock(sr.rule).None? ==> r == []
    ensures forall e :: e in r ==> e.ruleId == sr.rule.id && e.packId == sr.pack && e.etype != ""
    ensures forall e :: e in r ==> e.level == LevelOf(sr.rule.enforce.value)
  {
    match EnforceBlock(sr.rule)
    case None => []
    case Some(enforce) =>
      var etype := TypeOf(enforce);
      if etype == "" then []
      else
        PatternEntriesShape(input, sr, etype, LevelOf(enforce), ExtractPatterns(etype, enforce), engine);
        PatternEntries(input, sr, etype, LevelOf(enforce), ExtractPatterns(etype, enforce), engine)
  }

  /** Every entry of the rules, in rule-then-pattern order. */
  function Entries(input: string, rules: seq<SourcedRule>, engine: RegexEngine): seq<Entry> {
    if rules == [] then [] else RuleEntries(input, rules[0], engine) + Entries(input, rules[1..], engine)
  }

  lemma {:induction false} EntriesAppend(input: string, a: seq<SourcedRule>, b: seq<SourcedRule>, engine: RegexEngine)
    ensures Entries(input, a + b, engine) == Entries(input, a, engine) + Entries(input, b, engine)
    decreases |a|
  {
    if a == [] {
      assert a + b == b;
    } else {
      assert (a + b)[0] == a[0];
      assert (a + b)[1..] == a[1..] + b;
      EntriesAppend(input, a[1..], b, engine);
    }
  }

  /** The entries at `level`, in order. */
  function AtLevel(entries: seq<Entry>, level: Level): (r: seq<Entry>)
    ensures forall e :: e in r <==> e in entries && e.level == level
  {
    if entries == [] then []
    else if entries[0].level == level then [entries[0]] + AtLevel(entries[1..], level)
    else AtLevel(entries[1..], level)
  }

  lemma {:induction false} AtLevelAppend(a: seq<Entry>, b: seq<Entry>, level: Level)
    ensures AtLevel(a + b, level) == AtLevel(a, level) + AtLevel(b, level)
    decreases |a|
  {
    if a == [] {
      assert a + b == b;
    } else {
      assert (a + b)[0] == a[0];
      assert (a + b)[1..] == a[1..] + b;
      AtLevelAppend(a[1..], b, level);
    }
  }

  /** The two levels split the entries: each hit is reported once, as a
      violation or as a warning. */
  lemma {:induction false} LevelsPartition(entries: seq<Entry>)
    ensures |AtLevel(entries, Block)| + |AtLevel(entries, Warn)| == |entries|
    decreases |entries|
  {
    if entries != [] {
      LevelsPartition(entries[1..]);
    }
  }

  /** `runEnforcement(input, rules)`: the hits at `block` level are the
      violations, those at `warn` level the warnings, each in rule-then-pattern
      order. */
  method RunEnforcement(input: string, rules: seq<SourcedRule>, engine: RegexEngine)
    returns (violations: seq<Entry>, warnings: seq<Entry>)
    ensures violations == AtLevel(Entries(input, rules, engine), Block)
    ensures warnings == AtLevel(Entries(input, rules, engine), Warn)
  {
    violations := [];
    warnings := [];
    var i := 0;
    while i < |rules|
      invariant 0 <= i <= |rules|
      invariant violations == AtLevel(Entries(input, rules[..i], engine), Block)
      invariant warnings == AtLevel(Entries(input, rules[..i], engine), Warn)
    {
      var blocks, warns := EnforceRule(input, rules[i], engine);
      LevelStep(input, rules, i, engine, Block);
      LevelStep(input, rules, i, engine, Warn);
      violations := violations + blocks;
      warnings := warnings + warns;
      i := i + 1;
    }
    assert rules[..i] == rules;
  }

  /** One more rule adds its own entries at each level. */
  lemma LevelStep(input: string, rules: seq<SourcedRule>, i: nat, engine: RegexEngine, level: Level)
    requires i < |rules|
    ensures AtLevel(Entries(input, rules[..i + 1], engine), level)
         == AtLevel(Entries(input, rules[..i], engine), level) + AtLevel(RuleEntries(input, rules[i], engine), level)
  {
    var done, r := rules[..i], rules[i];
    assert rules[..i + 1] == done + [r];
    EntriesSnoc(input, done, r, engine);
    var a, b := Entries(input, done, engine), RuleEntries(input, r, engine);
    AtLevelAppend(a, b, level);
  }

  lemma EntriesSnoc(input: string, rules: seq<SourcedRule>, r: SourcedRule, engine: RegexEngine)
    ensures Entries(input, rules + [r], engine) == Entries(input, rules, engine) + RuleEntries(input, r, engine)
  {
    EntriesAppend(input, rules, [r], engine);
    assert Entries(input, [r], engine) == RuleEntries(input, r, engine) + Entries(input, [], engine);
  }

  /** The body of the rule loop: one rule's hits, split by level. */
  method EnforceRule(input: string, sr: SourcedRule, engine: RegexEngine)
    returns (blocks: seq<Entry>, warns: seq<Entry>)
    ensures blocks == AtLevel(RuleEntries(input, sr, engine), Block)
    ensures warns == AtLevel(RuleEntries(input, sr, engine), Warn)
  {
    var enforce := EnforceBlock(sr.rule);
    if enforce.None? {
      return [], [];
    }
    var etype := TypeOf(enforce.value);
    if etype == "" {
      return [], [];
    }
    blocks, warns := TestPatterns(input, sr, etype, LevelOf(enforce.value), ExtractPatterns(etype, enforce.value), engine);
  }

  /** The pattern loop: each pattern compiled and tested in turn, its hit
      filed under the rule's level. */
  method TestPatterns(input: string, sr: SourcedRule, etype: string, level: Level,
                      patterns: seq<string>, engine: RegexEngine)
    returns (blocks: seq<Entry>, warns: seq<Entry>)
    ensures blocks == AtLevel(PatternEntries(input, sr, etype, level, patterns, engine), Block)
    ensures warns == AtLevel(PatternEntries(input, sr, etype, level, patterns, engine), Warn)
  {
    var hits := CollectHits(input, sr, etype, level, patterns, engine);
    PatternEntriesShape(input, sr, etype, level, patterns, engine);
    AtLevelUniform(hits, level);
    if level == Warn {
      blocks, warns := [], hits;
    } else {
      blocks, warns := hits, [];
    }
  }

  /** The hits of the patterns, in order. */
  method CollectHits(input: string, sr: SourcedRule, etype: string, level: Level,
                     patterns: seq<string>, engine: RegexEngine)
    returns (hits: seq<Entry>)
    ensures hits == PatternEntries(input, sr, etype, level, patterns, engine)
  {
    hits := [];
    var j := 0;
    while j < |patterns|
      invariant 0 <= j <= |patterns|
      invariant hits == PatternEntries(input, sr, etype, level, patterns[..j], engine)
    {
      var hit := Hits(engine, patterns[j], input);
      assert patterns[..j + 1][..j] == patterns[..j];
      if hit {
        hits := hits + [Entry(sr.rule.id, sr.pack, etype, patterns[j], level)];
      }
      j := j + 1;
    }
    assert patterns[..j] == patterns;
  }

  /** Entries all at one level are all kept by that level and none by the
      other. */
  lemma {:induction false} AtLevelUniform(entries: seq<Entry>, level: Level)
    requires forall e :: e in entries ==> e.level == level
    ensures AtLevel(entries, level) == entries
    ensures AtLevel(entries, if level == Warn then Block else Warn) == []
    decreases |entries|
  {
    if entries != [] {
      assert forall e :: e in entries[1..] ==> e in entries;
      AtLevelUniform(entries[1..], level);
    }
  }

  /** Rules without an `enforce` block produce neither violations nor
      warnings. */
  lemma {:induction false} NoEnforceNoEntries(input: string, rules: seq<SourcedRule>, engine: RegexEngine)
    requires forall k :: 0 <= k < |rules| ==> rules[k].rule.enforce.None?
    ensures Entries(input, rules, engine) == []
    decreases |rules|
  {
    if rules != [] {
      assert forall k :: 0 <= k < |rules[1..]| ==> rules[1..][k] == rules[k + 1];
      NoEnforceNoEntries(input, rules[1..], engine);
    }
  }
}
