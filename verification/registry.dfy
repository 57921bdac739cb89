/** `PackRegistry` (src/pack-registry.ts): pack identifiers, version matching,
    the YAML fence of a Markdown pack, and the first-match search over the
    registry directories. The YAML parser is a parameter: it returns the keys
    the registry reads, or `None` when it throws or yields a falsy document. */
module Registry {
  import opened Wrappers
  import opened Text
  import opened Seqs
  import opened Js
  import opened FsUtils
  import opened Errors
  import Workspace

  /** `applies_when` of a rule. */
  datatype AppliesWhen = AppliesWhen(
    any: Option<bool>,
    paths: Option<seq<string>>,
    languages: Option<seq<string>>)

  /** `PackRule`: `enforce` stays an untyped record. */
  datatype PackRule = PackRule(
    id: string,
    text: string,
    appliesWhen: Option<AppliesWhen>,
    enforce: Option<Value>)

  /** What the YAML parser hands back: the `id`, `version` and `rules` keys. */
  datatype PackDoc = PackDoc(id: Option<Value>, version: Option<Value>, rules: Option<seq<PackRule>>)

  type YamlParser = string -> Option<PackDoc>

  datatype Pack = Pack(id: Value, version: Value, rules: seq<PackRule>, sourcePath: Path)

  /** `{ id, version? }` from `parsePackIdentifier`. */
  datatype PackRef = PackRef(id: string, version: Option<string>)

  /** `s.startsWith('v') ? s.slice(1) : s`, also `s.replace(/^v/, '')`. */
  function StripV(s: string): (r: string)
    ensures |s| > 0 && s[0] == 'v' ==> r == s[1..]
    ensures (|s| == 0 || s[0] != 'v') ==> r == s
  {
    if |s| > 0 && s[0] == 'v' then s[1..] else s
  }

  /** `parsePackIdentifier(input)`: the text before the first `@` is the id;
      the segment after it, without one leading `v`, is the version unless it
      is empty. Later `@` segments are ignored. */
  function ParsePackIdentifier(input: string): (r: PackRef)
    ensures '@' !in input ==> r == PackRef(input, None)
    ensures '@' !in r.id && StartsWith(input, r.id)
    ensures r.version.Some? ==> '@' in input && '@' !in r.version.value
  {
    var parts := Split(input, '@');
    JoinSplit(input, '@');
    var versionPart := if |parts| > 1 then parts[1] else "";
    assert StartsWith(input, parts[0]) by {
      if |parts| > 1 {
        assert input == parts[0] + "@" + Join(parts[1..], "@");
      }
    }
    assert versionPart != "" ==> '@' in input by {
      if |parts| > 1 {
        assert input == parts[0] + "@" + Join(parts[1..], "@");
        assert input[|parts[0]|] == '@';
      }
    }
    if versionPart == "" then PackRef(parts[0], None)
    else PackRef(parts[0], Some(StripV(versionPart)))
  }

  /** Parsing `<id>@<version>` recovers the id and the version without its
      leading `v`. */
  lemma ParseIdentifierRoundTrip(id: string, version: string)
    requires '@' !in id && '@' !in version && version != ""
    ensures ParsePackIdentifier(id + "@" + version) == PackRef(id, Some(StripV(version)))
  {
    SplitJoin([id, version], '@');
    assert Join([id, version], "@") == id + "@" + version;
  }

  /** Anything after a second `@` is ignored. */
  lemma ParseIgnoresLaterSegments(id: string, version: string, rest: string)
    requires '@' !in id && '@' !in version
    ensures ParsePackIdentifier(id + "@" + version + "@" + rest) == ParsePackIdentifier(id + "@" + version)
  {
    assert id + "@" + version + "@" + rest == id + "@" + (version + "@" + rest);
    SplitAtFirst(id, version + "@" + rest, '@');
    SplitAtFirst(version, rest, '@');
    SplitAtFirst(id, version, '@');
    SplitFree(version, '@');
  }

  /** Splitting at the first separator. */
  lemma SplitAtFirst(head: string, tail: string, c: char)
    requires c !in head
    ensures Split(head + [c] + tail, c) == [head] + Split(tail, c)
  {
    var s := head + [c] + tail;
    assert s == head + ([c] + tail);
    FirstIndexAfterFree(head, [c] + tail, c);
    assert s[..|head|] == head;
    assert s[|head| + 1..] == tail;
  }

  /** A text without the separator splits into itself. */
  lemma SplitFree(s: string, c: char)
    requires c !in s
    ensures Split(s, c) == [s]
  {
  }

  /** `versionsMatch(requested, actual)`; `None` when `actual` is neither a
      string nor a number and the `replace` call throws. Numbers are integers
      here. */
  function VersionsMatch(requested: string, actual: Value): (r: Option<bool>)
    ensures r.None? <==> !(actual.JStr? || actual.JNum?)
    ensures actual.JStr? ==> r == Some(StripV(requested) == StripV(actual.s))
    ensures actual.JNum? ==> r == Some(StripV(requested) == IntToString(actual.n))
  {
    match actual
    case JNum(n) => Some(StripV(requested) == IntToString(n))
    case JStr(s) => Some(StripV(requested) == StripV(s))
    case _ => None
  }

  /** A version matches itself, as a string and as a number's decimal form. */
  lemma VersionsMatchReflexive(s: string, n: int)
    ensures VersionsMatch(s, JStr(s)) == Some(true)
    ensures VersionsMatch(IntToString(n), JNum(n)) == Some(true)
  {
    var d := IntToString(n);
    if n < 0 {
      assert d[0] == '-';
    } else {
      assert IsDigit(NatToString(n)[0]);
    }
  }

  /** Where a ```` ```yaml ```` fence (`yaml` in any case) opens at `i`. */
  predicate OpensYaml(raw: string, i: nat) {
    i + 7 <= |raw| && raw[i..i + 3] == "```" && Lower(raw[i + 3..i + 7]) == "yaml"
  }

  /** The first fence opening at or after `from`. */
  function FirstOpener(raw: string, from: nat): (r: Option<nat>)
    ensures r.Some? ==> from <= r.value && OpensYaml(raw, r.value)
    ensures r.Some? ==> forall j :: from <= j < r.value ==> !OpensYaml(raw, j)
    ensures r.None? ==> forall j :: from <= j ==> !OpensYaml(raw, j)
    decreases |raw| - from
  {
    if from + 7 > |raw| then None
    else if OpensYaml(raw, from) then Some(from)
    else FirstOpener(raw, from + 1)
  }

  /** `extractYaml(raw)`: the regex ```` /```yaml\s*([\s\S]*?)```/i ````. Its
      leftmost match starts at the first opening fence; the lazy group ends
      at the first ```` ``` ```` after the fence word, and the group trimmed is
      the text between them trimmed, since the skipped `\s*` holds no backtick. */
  function ExtractYaml(raw: string): (r: Option<string>)
    ensures FirstOpener(raw, 0).None? ==> r.None?
    ensures FirstOpener(raw, 0).Some? ==> var i := FirstOpener(raw, 0).value;
      && (r.Some? <==> IndexOfFrom(raw, "```", i + 7).Some?)
      && (r.Some? ==> r.value == Trim(raw[i + 7..IndexOfFrom(raw, "```", i + 7).value]))
  {
    match FirstOpener(raw, 0)
    case None => None
    case Some(i) =>
      match IndexOfFrom(raw, "```", i + 7)
      case None => None
      case Some(j) => Some(Trim(raw[i + 7..j]))
  }

  /** The extracted text is what the pattern captures: there is a result
      exactly when the pattern matches somewhere, and then it is the text,
      trimmed, between the leftmost opening fence and the first closing
      fence after it. */
  lemma ExtractYamlLeftmost(raw: string)
    ensures ExtractYaml(raw).Some? <==> exists i: nat, j: nat :: YamlMatch(raw, i, j)
    ensures ExtractYaml(raw).Some? ==> exists i: nat, j: nat ::
      LeftmostMatch(raw, i, j) && ExtractYaml(raw).value == Trim(raw[i + 7..j])
  {
    match FirstOpener(raw, 0)
    case None =>
      forall i: nat, j: nat ensures !YamlMatch(raw, i, j) {
        assert !OpensYaml(raw, i);
      }
    case Some(i) =>
      match IndexOfFrom(raw, "```", i + 7)
      case None => UnclosedFirstFence(raw, i);
      case Some(j) =>
        ClosedFirstFence(raw, i, j);
        assert LeftmostMatch(raw, i, j) && ExtractYaml(raw).value == Trim(raw[i + 7..j]);
  }

  /** Where the pattern ```` ```yaml\s*([\s\S]*?)``` ```` can match: an
      opening fence at `i` and a closing ```` ``` ```` at `j` after it. */
  predicate YamlMatch(raw: string, i: nat, j: nat) {
    OpensYaml(raw, i) && i + 7 <= j && OccursAt(raw, "```", j)
  }

  /** The leftmost, laziest match: no fence opens before `i` and no
      ```` ``` ```` closes between the fence word and `j`. */
  predicate LeftmostMatch(raw: string, i: nat, j: nat) {
    && YamlMatch(raw, i, j)
    && (forall k :: 0 <= k < i ==> !OpensYaml(raw, k))
    && (forall k :: i + 7 <= k < j ==> !OccursAt(raw, "```", k))
  }

  /** When the first fence is closed, the leftmost match spans the first
      fence and the first ```` ``` ```` after it. */
  lemma ClosedFirstFence(raw: string, i: nat, j: nat)
    requires FirstOpener(raw, 0) == Some(i) && IndexOfFrom(raw, "```", i + 7) == Some(j)
    ensures LeftmostMatch(raw, i, j)
  {
  }

  /** When the first fence is never closed no later one is: the pattern
      does not match anywhere. */
  lemma UnclosedFirstFence(raw: string, i: nat)
    requires FirstOpener(raw, 0) == Some(i) && IndexOfFrom(raw, "```", i + 7).None?
    ensures forall i': nat, j: nat :: !YamlMatch(raw, i', j)
  {
    forall i': nat, j: nat | OpensYaml(raw, i') && i' + 7 <= j ensures !YamlMatch(raw, i', j) {
      assert !OccursAt(raw, "```", j);
    }
  }

  /** A Markdown pack `` ```yaml\n<body>\n``` `` whose body holds no backtick
      yields its body trimmed. */
  lemma ExtractFencedBody(before: string, body: string, after: string)
    requires '`' !in before && '`' !in body
    ensures ExtractYaml(before + "```yaml\n" + body + "\n```" + after) == Some(Trim("\n" + body + "\n"))
  {
    var raw := before + "```yaml\n" + body + "\n```" + after;
    var mid, closer := "\n" + body + "\n", "```" + after;
    FencedLayout(before, body, after);
    FencedAt(before, mid, closer);
  }

  lemma FencedLayout(before: string, body: string, after: string)
    ensures before + "```yaml\n" + body + "\n```" + after == before + ("```yaml" + ("\n" + body + "\n") + ("```" + after))
  {
    assert "```yaml\n" == "```yaml" + "\n";
    assert "\n```" == "\n" + "```";
  }

  /** The fenced text between a backtick-free prefix and a closing fence. */
  lemma FencedAt(before: string, mid: string, closer: string)
    requires '`' !in before && '`' !in mid
    requires |closer| >= 3 && closer[..3] == "```"
    ensures ExtractYaml(before + ("```yaml" + mid + closer)) == Some(Trim(mid))
  {
    var raw := before + ("```yaml" + mid + closer);
    var i := |before|;
    var j := i + 7 + |mid|;
    OpenerAfterFree(before, "```yaml" + mid + closer);
    assert raw[i + 7..j] == mid;
    assert raw[j..j + 3] == closer[..3];
    CloserAfterFree(raw, i + 7, j);
  }

  /** The first fence opens right after a backtick-free prefix. */
  lemma OpenerAfterFree(before: string, rest: string)
    requires '`' !in before
    requires |rest| >= 7 && rest[..7] == "```yaml"
    ensures FirstOpener(before + rest, 0) == Some(|before|)
  {
    var raw := before + rest;
    var i := |before|;
    assert raw[i..i + 7] == rest[..7];
    OpensAt(raw, i);
    forall k | 0 <= k < i ensures !OpensYaml(raw, k) {
      assert raw[k] == before[k];
      NoFenceAt(raw, k);
    }
    FirstOpenerIs(raw, i, 0);
  }

  /** A literal `` ```yaml `` opens a fence. */
  lemma OpensAt(raw: string, i: nat)
    requires i + 7 <= |raw| && raw[i..i + 7] == "```yaml"
    ensures OpensYaml(raw, i)
  {
    assert raw[i..i + 3] == raw[i..i + 7][..3];
    assert raw[i + 3..i + 7] == raw[i..i + 7][3..];
    LowerYaml();
  }

  lemma {:induction false} FirstOpenerIs(raw: string, i: nat, from: nat)
    requires from <= i && OpensYaml(raw, i)
    requires forall k :: from <= k < i ==> !OpensYaml(raw, k)
    ensures FirstOpener(raw, from) == Some(i)
    decreases i - from
  {
    if from < i {
      FirstOpenerIs(raw, i, from + 1);
    }
  }

  /** A fence needs a backtick where it starts. */
  lemma NoFenceAt(raw: string, k: nat)
    requires k < |raw| && raw[k] != '`'
    ensures !OpensYaml(raw, k)
  {
    if k + 3 <= |raw| {
      assert raw[k..k + 3][0] == raw[k];
    }
  }

  lemma LowerYaml()
    ensures Lower("yaml") == "yaml"
  {
    var l := Lower("yaml");
    assert l[0] == 'y' && l[1] == 'a' && l[2] == 'm' && l[3] == 'l';
  }

  /** The first ```` ``` ```` at or after `from` is at `j` when no backtick comes
      between them. */
  lemma CloserAfterFree(raw: string, from: nat, j: nat)
    requires from <= j && OccursAt(raw, "```", j)
    requires forall k :: from <= k < j ==> raw[k] != '`'
    ensures IndexOfFrom(raw, "```", from) == Some(j)
  {
    forall k | from <= k < j ensures !OccursAt(raw, "```", k) {
      NoCloserAt(raw, k);
    }
  }

  lemma NoCloserAt(raw: string, k: nat)
    requires k < |raw| && raw[k] != '`'
    ensures !OccursAt(raw, "```", k)
  {
    if k + 3 <= |raw| {
      assert raw[k..k + 3][0] == raw[k];
    }
  }

  /** `parsePackFile(path)`: the file read, its YAML fence (or the whole text)
      parsed, and a pack only when `id` is truthy and `rules` present; the
      version defaults to `'1'`. Read and parse failures give no pack. */
  function ParsePackFile(fs: Fs, path: Path, parse: YamlParser): (r: Option<Pack>)
    ensures r.Some? <==> (
      && path in fs.text
      && var doc := parse(ExtractYaml(fs.text[path]).GetOr(fs.text[path]));
         doc.Some? && TruthyOpt(doc.value.id) && doc.value.rules.Some?)
    ensures r.Some? ==> path in fs.text && r.value.sourcePath == path
    ensures r.Some? ==> var doc := parse(ExtractYaml(fs.text[path]).GetOr(fs.text[path])).value;
      && r.value.id == doc.id.value && r.value.rules == doc.rules.value
      && r.value.version == (if doc.version.None? || doc.version.value.JNull? then JStr("1") else doc.version.value)
    ensures r.Some? ==> r.value.version != JNull
  {
    if path !in fs.text then None
    else
      var raw := fs.text[path];
      match parse(ExtractYaml(raw).GetOr(raw))
      case None => None
      case Some(doc) =>
        if !TruthyOpt(doc.id) || doc.rules.None? then None
        else
          var version := if doc.version.None? || doc.version.value.JNull? then JStr("1") else doc.version.value;
          Some(Pack(doc.id.value, version, doc.rules.value, path))
  }

  /** `['.md', '.yaml', '.yml'].includes(path.extname(file).toLowerCase())`. */
  predicate IsPackFile(name: string) {
    Lower(Workspace.Extname(name)) in [".md", ".yaml", ".yml"]
  }

  /** `this.dirs`: the user registry, the workspace's `packs` and
      `templates/packs`, then any extra directories. */
  function RegistryDirs(home: Path, workspaceRoot: Option<Path>, processCwd: Path, extraDirs: Option<seq<Path>>): (r: seq<Path>)
    ensures |r| >= 3 && r[0] == home + [".bebop", "packs"]
    ensures var ws := workspaceRoot.GetOr(processCwd); r[1] == ws + ["packs"] && r[2] == ws + ["templates", "packs"]
    ensures r[3..] == extraDirs.GetOr([])
  {
    var ws := workspaceRoot.GetOr(processCwd);
    [home + [".bebop", "packs"], ws + ["packs"], ws + ["templates", "packs"]] + extraDirs.GetOr([])
  }

  /** One step of the search in `loadPack`: a directory that exists but cannot
      be listed (the `readdir` rejects), or a candidate pack file. */
  datatype Step = ListFails(dir: Path) | Candidate(path: Path)

  /** The candidate files of one listing, in listing order. */
  function FileSteps(dir: Path, names: seq<DirEntryInfo>): (r: seq<Step>)
    ensures forall k :: 0 <= k < |r| ==> InDir(dir, r[k])
  {
    if names == [] then []
    else
      var here := Candidate(dir + [names[0].name]);
      assert here.path[..|dir|] == dir;
      if IsPackFile(names[0].name) then [here] + FileSteps(dir, names[1..]) else FileSteps(dir, names[1..])
  }

  /** The steps of a listing are exactly its pack files, as candidates. */
  lemma {:induction false} FileStepsMembers(dir: Path, names: seq<DirEntryInfo>, s: Step)
    ensures s in FileSteps(dir, names) <==> exists k :: 0 <= k < |names| && IsPackFile(names[k].name) && s == Candidate(dir + [names[k].name])
    decreases |names|
  {
    if names != [] {
      var rest := names[1..];
      var here := Candidate(dir + [names[0].name]);
      FileStepsMembers(dir, rest, s);
      if s in FileSteps(dir, names) {
        if !(IsPackFile(names[0].name) && s == here) {
          var k :| 0 <= k < |rest| && IsPackFile(rest[k].name) && s == Candidate(dir + [rest[k].name]);
          assert names[k + 1] == rest[k];
        }
      }
    }
  }

  /** A candidate file directly inside `dir`. */
  predicate InDir(dir: Path, step: Step) {
    step.Candidate? && |step.path| == |dir| + 1 && step.path[..|dir|] == dir
  }

  /** The steps `loadPack` takes, in order: directories in order, a missing one
      skipped, each listing in order. */
  function Steps(fs: Fs, dirs: seq<Path>): seq<Step> {
    if dirs == [] then [] else DirSteps(fs, dirs[0]) + Steps(fs, dirs[1..])
  }

  /** The steps of one directory: none when it is missing. */
  function DirSteps(fs: Fs, dir: Path): seq<Step> {
    if !Exists(fs, dir) then []
    else if dir !in fs.listing then [ListFails(dir)]
    else FileSteps(dir, fs.listing[dir])
  }

  /** The outcome of one step for the requested pack: `Ok(None)` to keep
      looking, `Ok(Some(p))` to return `p`, `Err` when the loop throws. */
  function Verdict(fs: Fs, parse: YamlParser, req: PackRef, step: Step): (r: Result<Option<Pack>, string>)
    ensures r.Ok? && r.value.Some? ==> r.value.value.id == JStr(req.id)
    ensures step.ListFails? ==> r.Err?
  {
    match step
    case ListFails(_) => Err("readdir failed")
    case Candidate(path) =>
      match ParsePackFile(fs, path, parse)
      case None => Ok(None)
      case Some(pack) =>
        if pack.id != JStr(req.id) then Ok(None)
        else if req.version.Some? && req.version.value != "" then
          match VersionsMatch(req.version.value, pack.version)
          case None => Err("version is neither a string nor a number")
          case Some(false) => Ok(None)
          case Some(true) => Ok(Some(pack))
        else Ok(Some(pack))
  }

  /** The step ends the search. */
  predicate Decisive(fs: Fs, parse: YamlParser, req: PackRef, step: Step) {
    Verdict(fs, parse, req, step) != Ok(None)
  }

  /** Index of the first decisive step from `i` on. */
  function FirstDecisive(fs: Fs, parse: YamlParser, req: PackRef, steps: seq<Step>, i: nat): (r: Option<nat>)
    requires i <= |steps|
    ensures r.Some? ==> i <= r.value < |steps| && Decisive(fs, parse, req, steps[r.value])
    ensures r.Some? ==> forall k :: i <= k < r.value ==> !Decisive(fs, parse, req, steps[k])
    ensures r.None? ==> forall k :: i <= k < |steps| ==> !Decisive(fs, parse, req, steps[k])
    decreases |steps| - i
  {
    if i == |steps| then None
    else if Decisive(fs, parse, req, steps[i]) then Some(i)
    else FirstDecisive(fs, parse, req, steps, i + 1)
  }

  /** `loadPack(packId)`: the verdict of the first decisive step, `null` when
      there is none. */
  function LoadPack(fs: Fs, dirs: seq<Path>, parse: YamlParser, packId: string): (r: Result<Option<Pack>, string>)
    ensures r == Ok(None) <==> AllPass(fs, parse, ParsePackIdentifier(packId), Steps(fs, dirs))
    ensures forall k :: FirstDecisiveAt(fs, parse, ParsePackIdentifier(packId), Steps(fs, dirs), k) ==>
      r == Verdict(fs, parse, ParsePackIdentifier(packId), Steps(fs, dirs)[k])
    ensures r.Ok? && r.value.Some? ==> r.value.value.id == JStr(ParsePackIdentifier(packId).id)
  {
    FirstVerdict(fs, parse, ParsePackIdentifier(packId), Steps(fs, dirs))
  }

  /** Every step passes the request over. */
  predicate AllPass(fs: Fs, parse: YamlParser, req: PackRef, steps: seq<Step>) {
    forall k :: 0 <= k < |steps| ==> Verdict(fs, parse, req, steps[k]) == Ok(None)
  }

  /** Step `k` is the first step of `steps` that ends the search. */
  predicate FirstDecisiveAt(fs: Fs, parse: YamlParser, req: PackRef, steps: seq<Step>, k: int) {
    && 0 <= k < |steps|
    && Decisive(fs, parse, req, steps[k])
    && forall j :: 0 <= j < k ==> !Decisive(fs, parse, req, steps[j])
  }

  /** The verdict of the first decisive step of `steps`. */
  function FirstVerdict(fs: Fs, parse: YamlParser, req: PackRef, steps: seq<Step>): (r: Result<Option<Pack>, string>)
    ensures r.Ok? && r.value.Some? ==> exists k :: (0 <= k < |steps| && Verdict(fs, parse, req, steps[k]) == r
        && forall j :: 0 <= j < k ==> Verdict(fs, parse, req, steps[j]) == Ok(None))
    ensures r == Ok(None) <==> forall k :: 0 <= k < |steps| ==> Verdict(fs, parse, req, steps[k]) == Ok(None)
    ensures forall k :: FirstDecisiveAt(fs, parse, req, steps, k) ==> r == Verdict(fs, parse, req, steps[k])
    ensures r.Ok? && r.value.Some? ==> r.value.value.id == JStr(req.id)
  {
    match FirstDecisive(fs, parse, req, steps, 0)
    case None => Ok(None)
    case Some(m) =>
      assert forall k :: FirstDecisiveAt(fs, parse, req, steps, k) ==> k == m;
      Verdict(fs, parse, req, steps[m])
  }

  /** The steps of a directory list are those of its first directory followed
      by the rest's. */
  lemma StepsAppend(fs: Fs, a: seq<Path>, b: seq<Path>)
    ensures Steps(fs, a + b) == Steps(fs, a) + Steps(fs, b)
    decreases |a|
  {
    if a == [] {
      assert a + b == b;
    } else {
      assert (a + b)[0] == a[0];
      assert (a + b)[1..] == a[1..] + b;
      StepsAppend(fs, a[1..], b);
      AppendAssoc(DirSteps(fs, a[0]), Steps(fs, a[1..]), Steps(fs, b));
    }
  }

  /** Directory order decides: a pack accepted in the first directory is
      returned even when later directories also hold one, as long as nothing
      listed before it in that directory ends the search. */
  lemma EarlierDirectoryWins(fs: Fs, dir: Path, later: seq<Path>, parse: YamlParser, packId: string)
    requires LoadPack(fs, [dir], parse, packId).Ok? && LoadPack(fs, [dir], parse, packId).value.Some?
    ensures LoadPack(fs, [dir] + later, parse, packId) == LoadPack(fs, [dir], parse, packId)
  {
    var req := ParsePackIdentifier(packId);
    StepsAppend(fs, [dir], later);
    var s1 := Steps(fs, [dir]);
    var s2 := Steps(fs, later);
    match FirstDecisive(fs, parse, req, s1, 0)
    case None =>
    case Some(k) =>
      FirstDecisiveExtends(fs, parse, req, s1, s2, 0, k);
      assert (s1 + s2)[k] == s1[k];
  }

  /** A decisive step found in a prefix is still the first one once more
      steps follow. */
  lemma {:induction false} FirstDecisiveExtends(fs: Fs, parse: YamlParser, req: PackRef, a: seq<Step>, b: seq<Step>,
                                                i: nat, k: nat)
    requires i <= |a| && FirstDecisive(fs, parse, req, a, i) == Some(k)
    ensures FirstDecisive(fs, parse, req, a + b, i) == Some(k)
    decreases |a| - i
  {
    assert (a + b)[i] == a[i];
    if !Decisive(fs, parse, req, a[i]) {
      FirstDecisiveExtends(fs, parse, req, a, b, i + 1, k);
    }
  }

  datatype LoadResult = LoadResult(packs: seq<Pack>, missing: seq<string>)

  /** What `loadPack` makes of each id, in order. */
  function Loads(fs: Fs, dirs: seq<Path>, parse: YamlParser, ids: seq<string>): (r: seq<Result<Option<Pack>, string>>)
    ensures |r| == |ids|
    ensures forall i :: 0 <= i < |ids| ==> r[i] == LoadPack(fs, dirs, parse, ids[i])
    decreases |ids|
  {
    if ids == [] then [] else [LoadPack(fs, dirs, parse, ids[0])] + Loads(fs, dirs, parse, ids[1..])
  }

  /** The packs found, in the order of the loads. */
  function LoadedIn(loads: seq<Result<Option<Pack>, string>>): seq<Pack>
    decreases |loads|
  {
    if loads == [] then []
    else (match loads[0] case Ok(Some(p)) => [p] case _ => []) + LoadedIn(loads[1..])
  }

  /** The ids whose load found nothing, in their order. */
  function MissingIn(ids: seq<string>, loads: seq<Result<Option<Pack>, string>>): seq<string>
    requires |ids| == |loads|
    decreases |ids|
  {
    if ids == [] then []
    else (if loads[0] == Ok(None) then [ids[0]] else []) + MissingIn(ids[1..], loads[1..])
  }

  /** No load threw. */
  predicate NoneThrows(loads: seq<Result<Option<Pack>, string>>) {
    forall i :: 0 <= i < |loads| ==> loads[i].Ok?
  }

  /** The `for` loop of `loadPacks` over the loads of the ids: the first
      throw rejects the call, otherwise each id goes to `packs` or `missing`. */
  function Gather(ids: seq<string>, loads: seq<Result<Option<Pack>, string>>): (r: Result<LoadResult, string>)
    requires |ids| == |loads|
    ensures r.Ok? <==> NoneThrows(loads)
    ensures r.Ok? ==> r.value.packs == LoadedIn(loads) && r.value.missing == MissingIn(ids, loads)
    ensures r.Ok? ==> |r.value.packs| + |r.value.missing| == |ids|
    decreases |ids|
  {
    if ids == [] then Ok(LoadResult([], []))
    else
      var tail := Gather(ids[1..], loads[1..]);
      assert NoneThrows(loads) <==> loads[0].Ok? && NoneThrows(loads[1..]) by {
        if loads[0].Ok? && NoneThrows(loads[1..]) {
          forall i | 0 <= i < |loads| ensures loads[i].Ok? {
            if i > 0 {
              assert loads[i] == loads[1..][i - 1];
            }
          }
        }
      }
      match loads[0]
      case Err(e) => Err(e)
      case Ok(found) =>
        match tail
        case Err(e) => Err(e)
        case Ok(rest) =>
          if found.Some? then Ok(LoadResult([found.value] + rest.packs, rest.missing))
          else Ok(LoadResult(rest.packs, [ids[0]] + rest.missing))
  }

  /** `loadPacks(ids)`: each id loaded in turn into `packs` or `missing`; a
      throwing `loadPack` rejects the whole call. */
  function LoadPacks(fs: Fs, dirs: seq<Path>, parse: YamlParser, ids: seq<string>): (r: Result<LoadResult, string>)
    ensures r.Ok? ==> r.value.packs == LoadedIn(Loads(fs, dirs, parse, ids))
    ensures r.Ok? ==> r.value.missing == MissingIn(ids, Loads(fs, dirs, parse, ids))
    ensures r.Ok? ==> |r.value.packs| + |r.value.missing| == |ids|
    ensures r.Ok? <==> forall i :: 0 <= i < |ids| ==> LoadPack(fs, dirs, parse, ids[i]).Ok?
  {
    Gather(ids, Loads(fs, dirs, parse, ids))
  }

  /** An id is missing iff it was requested and no directory provides it;
      a pack is loaded iff it is what `loadPack` returns for a requested id. */
  lemma LoadPacksPartition(fs: Fs, dirs: seq<Path>, parse: YamlParser, ids: seq<string>)
    requires LoadPacks(fs, dirs, parse, ids).Ok?
    ensures forall m :: m in LoadPacks(fs, dirs, parse, ids).value.missing <==>
      m in ids && LoadPack(fs, dirs, parse, m) == Ok(None)
    ensures forall p :: p in LoadPacks(fs, dirs, parse, ids).value.packs <==>
      (exists i :: 0 <= i < |ids| && LoadPack(fs, dirs, parse, ids[i]) == Ok(Some(p)))
  {
    var loads := Loads(fs, dirs, parse, ids);
    forall m ensures m in MissingIn(ids, loads) <==> m in ids && LoadPack(fs, dirs, parse, m) == Ok(None) {
      MissingMember(ids, loads, m);
      if m in ids {
        var i :| 0 <= i < |ids| && ids[i] == m;
        assert loads[i] == LoadPack(fs, dirs, parse, m);
      }
    }
    forall p ensures p in LoadedIn(loads) <==> exists i :: 0 <= i < |ids| && LoadPack(fs, dirs, parse, ids[i]) == Ok(Some(p)) {
      LoadedMember(loads, p);
      if exists i :: 0 <= i < |ids| && LoadPack(fs, dirs, parse, ids[i]) == Ok(Some(p)) {
        var i :| 0 <= i < |ids| && LoadPack(fs, dirs, parse, ids[i]) == Ok(Some(p));
        assert loads[i] == Ok(Some(p));
      }
    }
  }

  /** An id is listed as missing iff some position holds it with a load
      that found nothing. */
  lemma {:induction false} MissingMember(ids: seq<string>, loads: seq<Result<Option<Pack>, string>>, m: string)
    requires |ids| == |loads|
    ensures m in MissingIn(ids, loads) <==> exists i :: 0 <= i < |ids| && ids[i] == m && loads[i] == Ok(None)
    decreases |ids|
  {
    if ids != [] {
      MissingMember(ids[1..], loads[1..], m);
      if exists i :: 0 <= i < |ids| && ids[i] == m && loads[i] == Ok(None) {
        var i :| 0 <= i < |ids| && ids[i] == m && loads[i] == Ok(None);
        if i > 0 {
          assert ids[1..][i - 1] == m && loads[1..][i - 1] == Ok(None);
        }
      }
      if exists i :: 0 <= i < |ids[1..]| && ids[1..][i] == m && loads[1..][i] == Ok(None) {
        var i :| 0 <= i < |ids[1..]| && ids[1..][i] == m && loads[1..][i] == Ok(None);
        assert ids[i + 1] == m && loads[i + 1] == Ok(None);
      }
    }
  }

  /** A pack is loaded iff some load found it. */
  lemma {:induction false} LoadedMember(loads: seq<Result<Option<Pack>, string>>, p: Pack)
    ensures p in LoadedIn(loads) <==> exists i :: 0 <= i < |loads| && loads[i] == Ok(Some(p))
    decreases |loads|
  {
    if loads != [] {
      LoadedMember(loads[1..], p);
      if exists i :: 0 <= i < |loads| && loads[i] == Ok(Some(p)) {
        var i :| 0 <= i < |loads| && loads[i] == Ok(Some(p));
        if i > 0 {
          assert loads[1..][i - 1] == Ok(Some(p));
        }
      }
      if exists i :: 0 <= i < |loads[1..]| && loads[1..][i] == Ok(Some(p)) {
        var i :| 0 <= i < |loads[1..]| && loads[1..][i] == Ok(Some(p));
        assert loads[i + 1] == Ok(Some(p));
      }
    }
  }

  /** `throwIfAllMissing(result)`. */
  function ThrowIfAllMissing(result: LoadResult): (r: Outcome<BebopError>)
    ensures r.Fail? <==> result.packs == [] && result.missing != []
    ensures r.Fail? ==> r.error == PackNotFound(result.missing[0])
  {
    if |result.packs| == 0 && |result.missing| > 0 then Fail(PackNotFound(result.missing[0])) else Pass
  }
}
