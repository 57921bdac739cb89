/** The filesystem helpers of packages/core/src/fs-utils.ts over an abstract
    filesystem: `findUp`, `normalizePath` and glob matching. */
module FsUtils {
  import opened Wrappers
  import opened Text

  /** An absolute, resolved path as its segments; `/` is `[]`. */
  type Path = seq<string>

  /** A directory entry as `readdir(..., { withFileTypes: true })` reports it. */
  datatype EntryKind = FileEntry | DirEntry | OtherEntry
  datatype DirEntryInfo = DirEntryInfo(name: string, kind: EntryKind)

  /** The part of the filesystem the model reads: which paths are files and
      directories, the listing of each readable directory, and the text of each
      readable file. A directory missing from `listing` cannot be read. */
  datatype Fs = Fs(
    files: set<Path>,
    dirs: set<Path>,
    listing: map<Path, seq<DirEntryInfo>>,
    text: map<Path, string>)

  /** `fs.access(p)` succeeds. */
  predicate Exists(fs: Fs, p: Path) {
    p in fs.files || p in fs.dirs
  }

  /** `path.dirname`: the parent, with the root its own parent. */
  function Parent(p: Path): (r: Path)
    ensures p == [] ==> r == []
    ensures p != [] ==> |r| == |p| - 1 && r == p[..|r|]
  {
    if p == [] then [] else p[..|p| - 1]
  }

  /** `path.basename`: the last segment, empty for the root. */
  function Basename(p: Path): (r: string)
    ensures p != [] ==> r == p[|p| - 1]
  {
    if p == [] then "" else p[|p| - 1]
  }

  predicate IsPrefix<T(==)>(a: seq<T>, b: seq<T>) {
    |a| <= |b| && b[..|a|] == a
  }

  /** Index of the first name in `names` that exists inside `dir`. */
  function FirstExisting(fs: Fs, dir: Path, names: seq<string>): (r: Option<nat>)
    ensures r.Some? ==> r.value < |names| && Exists(fs, dir + [names[r.value]])
    ensures r.Some? ==> forall j :: 0 <= j < r.value ==> !Exists(fs, dir + [names[j]])
    ensures r.None? ==> NoneAt(fs, dir, names)
    decreases |names|
  {
    if names == [] then None
    else if Exists(fs, dir + [names[0]]) then Some(0)
    else match FirstExisting(fs, dir, names[1..])
      case None => None
      case Some(j) => Some(j + 1)
  }

  /** None of `names` exists inside `dir`. */
  predicate NoneAt(fs: Fs, dir: Path, names: seq<string>) {
    forall j :: 0 <= j < |names| ==> !Exists(fs, dir + [names[j]])
  }

  /** `dir[..k] + [names[j]]` is the candidate `findUp` returns when it reaches
      depth `k`: it exists, no earlier name exists at that depth, and no deeper
      directory on the way holds any of the names. */
  predicate HitAt(fs: Fs, dir: Path, names: seq<string>, k: nat, j: nat)
    requires k <= |dir| && j < |names|
  {
    && Exists(fs, dir[..k] + [names[j]])
    && (forall j' :: 0 <= j' < j ==> !Exists(fs, dir[..k] + [names[j']]))
    && (forall k' :: k < k' <= |dir| ==> NoneAt(fs, dir[..k'], names))
  }

  /** The outcome `findUp` promises for a walk from `dir` up to depth `lo`. */
  predicate FindUpSpec(fs: Fs, dir: Path, names: seq<string>, lo: nat, r: Option<Path>) {
    && (r.Some? ==> (exists k, j :: lo <= k <= |dir| && 0 <= j < |names|
                      && r.value == dir[..k] + [names[j]] && HitAt(fs, dir, names, k, j)))
    && (r.None? ==> (forall k :: lo <= k <= |dir| ==> NoneAt(fs, dir[..k], names)))
  }

  /** The depth of the highest directory `findUp` inspects: the stop directory
      when it lies on the way up, otherwise the root. */
  function StopLevel(dir: Path, stop: Option<Path>): (n: nat)
    ensures n <= |dir|
  {
    if stop.Some? && IsPrefix(stop.value, dir) then |stop.value| else 0
  }

  /** `findUp(startDir, fileNames, stopAt)`: the first existing candidate in the
      nearest directory, walking up to `stopAt` (when it is on the way) or the
      root. `stop` is the already-resolved `stopAt`, `None` when it was falsy. */
  function FindUp(fs: Fs, dir: Path, names: seq<string>, stop: Option<Path>): (r: Option<Path>)
    ensures FindUpSpec(fs, dir, names, StopLevel(dir, stop), r)
    decreases |dir|
  {
    match FirstExisting(fs, dir, names)
    case Some(j) =>
      assert dir[..|dir|] == dir;
      Some(dir + [names[j]])
    case None =>
      if stop == Some(dir) || dir == [] then
        assert dir[..|dir|] == dir;
        None
      else
        var up := Parent(dir);
        var r := FindUp(fs, up, names, stop);
        FindUpStep(fs, dir, names, stop, r);
        r
  }

  lemma FindUpStep(fs: Fs, dir: Path, names: seq<string>, stop: Option<Path>, r: Option<Path>)
    requires dir != [] && stop != Some(dir)
    requires NoneAt(fs, dir, names)
    requires FindUpSpec(fs, dir[..|dir| - 1], names, StopLevel(dir[..|dir| - 1], stop), r)
    ensures FindUpSpec(fs, dir, names, StopLevel(dir, stop), r)
  {
    var up := dir[..|dir| - 1];
    assert StopLevel(up, stop) == StopLevel(dir, stop) by {
      if stop.Some? && IsPrefix(stop.value, dir) {
        assert dir[..|dir|] == dir;
        assert |stop.value| < |dir|;
        assert up[..|stop.value|] == dir[..|stop.value|];
      }
    }
    assert forall k :: 0 <= k <= |up| ==> up[..k] == dir[..k];
    assert dir[..|dir|] == dir;
    if r.Some? {
      var k, j :| StopLevel(up, stop) <= k <= |up| && 0 <= j < |names|
        && r.value == up[..k] + [names[j]] && HitAt(fs, up, names, k, j);
      assert HitAt(fs, dir, names, k, j) by {
        forall k' | k < k' <= |dir| ensures NoneAt(fs, dir[..k'], names) {
          if k' < |dir| {
            assert up[..k'] == dir[..k'];
          }
        }
      }
    }
  }

  /** `findUp` never reports a candidate above `stopAt` when `stopAt` lies on
      the way up. */
  lemma FindUpStaysBelowStop(fs: Fs, dir: Path, names: seq<string>, stop: Path)
    requires IsPrefix(stop, dir)
    ensures var r := FindUp(fs, dir, names, Some(stop));
            r.Some? ==> IsPrefix(stop, r.value) && |r.value| > |stop|
  {
    var r := FindUp(fs, dir, names, Some(stop));
    if r.Some? {
      var k, j :| StopLevel(dir, Some(stop)) <= k <= |dir| && 0 <= j < |names|
        && r.value == dir[..k] + [names[j]] && HitAt(fs, dir, names, k, j);
      assert r.value[..|stop|] == dir[..|stop|];
    }
  }

  /** `normalizePath(p)`: split on the platform separator and join with `/`. */
  function NormalizePath(p: string, sep: char): (r: string)
    ensures sep != '/' ==> sep !in r
    ensures |r| == |p|
  {
    JoinSplitLength(p, sep);
    Join(Split(p, sep), "/")
  }

  lemma {:induction false} JoinSplitLength(p: string, sep: char)
    ensures |Join(Split(p, sep), "/")| == |p|
    ensures sep != '/' ==> sep !in Join(Split(p, sep), "/")
    decreases |p|
  {
    match FirstIndex(p, sep)
    case None =>
      assert Split(p, sep) == [p];
    case Some(i) =>
      var parts := Split(p, sep);
      var rest := Split(p[i + 1..], sep);
      JoinSplitLength(p[i + 1..], sep);
      assert parts == [p[..i]] + rest;
      assert parts[1..] == rest;
      JoinCons(parts, "/");
      var tail := Join(rest, "/");
      assert Join(parts, "/") == p[..i] + ("/" + tail);
      assert |p| == i + 1 + |p[i + 1..]|;
  }

  /** On a `/`-separated platform `normalizePath` is the identity. */
  lemma NormalizeOnPosix(p: string)
    ensures NormalizePath(p, '/') == p
  {
    JoinSplit(p, '/');
  }

  /** `normalizePath` only rewrites separators: every other character stays. */
  lemma {:induction false} NormalizeKeepsOthers(p: string, sep: char, i: nat)
    requires i < |p|
    ensures NormalizePath(p, sep)[i] == (if p[i] == sep then '/' else p[i])
    decreases |p|
  {
    match FirstIndex(p, sep)
    case None =>
      assert Split(p, sep) == [p];
    case Some(k) =>
      var tail := p[k + 1..];
      NormalizeStep(p, sep, k);
      if i > k {
        NormalizeKeepsOthers(tail, sep, i - k - 1);
        assert NormalizePath(p, sep)[i] == NormalizePath(tail, sep)[i - k - 1];
        assert p[i] == tail[i - k - 1];
      }
  }

  /** Up to the first separator `normalizePath` copies the text, puts `/` in
      its place, and normalizes the rest. */
  lemma NormalizeStep(p: string, sep: char, k: nat)
    requires FirstIndex(p, sep) == Some(k)
    ensures NormalizePath(p, sep) == p[..k] + "/" + NormalizePath(p[k + 1..], sep)
  {
    var rest := Split(p[k + 1..], sep);
    assert Split(p, sep) == [p[..k]] + rest;
    assert ([p[..k]] + rest)[1..] == rest;
  }

  /** A glob token: `**`, `*`, or any other character taken literally. */
  datatype GlobTok = Lit(c: char) | Star | DoubleStar

  /** The text `globToRegExp` puts in place of each `**` before it rewrites
      the single stars. */
  const Placeholder: string := "__DOUBLE_STAR__"

  /** The second rewrite of `globToRegExp`: each `**`, left to right, becomes the placeholder. */
  function MarkDoubleStars(p: string): (r: string)
    ensures '*' !in p ==> r == p
    decreases |p|
  {
    if p == [] then []
    else if |p| >= 2 && p[0] == '*' && p[1] == '*' then Placeholder + MarkDoubleStars(p[2..])
    else [p[0]] + MarkDoubleStars(p[1..])
  }

  /** The last two rewrites of `globToRegExp` as tokens: each remaining `*`
      becomes `[^/]*`, and each placeholder, left to right, becomes `.*`,
      including one the pattern spelled out itself. Every other character
      (regex metacharacters are escaped, and the escapes never touch the
      placeholder's letters) stands for itself. */
  function Tokens(q: string): seq<GlobTok>
    decreases |q|
  {
    if q == [] then []
    else if OccursAt(q, Placeholder, 0) then [DoubleStar] + Tokens(q[|Placeholder|..])
    else if q[0] == '*' then [Star] + Tokens(q[1..])
    else [Lit(q[0])] + Tokens(q[1..])
  }

  /** `globToRegExp(pattern)` as a token list. A pattern with neither a
      star nor the placeholder text is taken literally. */
  function Tokenize(p: string): (r: seq<GlobTok>)
    ensures '*' !in p && !Contains(p, Placeholder) ==> r == seq(|p|, i requires 0 <= i < |p| => Lit(p[i]))
  {
    var r := Tokens(MarkDoubleStars(p));
    if '*' !in p && !Contains(p, Placeholder) then LiteralTokens(p); r else r
  }

  /** Without a star or a placeholder every character is a literal token. */
  lemma {:induction false} LiteralTokens(q: string)
    requires '*' !in q && forall j :: 0 <= j ==> !OccursAt(q, Placeholder, j)
    ensures Tokens(q) == seq(|q|, i requires 0 <= i < |q| => Lit(q[i]))
    decreases |q|
  {
    if q != [] {
      assert !OccursAt(q, Placeholder, 0);
      assert '*' !in q[1..];
      forall j | 0 <= j ensures !OccursAt(q[1..], Placeholder, j) {
        assert !OccursAt(q, Placeholder, j + 1);
        if j + |Placeholder| <= |q[1..]| {
          assert q[1..][j..j + |Placeholder|] == q[j + 1..j + 1 + |Placeholder|];
        }
      }
      LiteralTokens(q[1..]);
    }
  }

  /** The placeholder written out in a pattern acts as `**`: with `a` and
      `b` for `c` and `d`, `a__DOUBLE_STAR__b` is the glob `a**b`. */
  lemma SpelledPlaceholder(c: char, d: char)
    requires c != '*' && c != '_' && d != '*'
    ensures Tokenize([c] + Placeholder + [d]) == Tokenize([c, '*', '*', d]) == [Lit(c), DoubleStar, Lit(d)]
  {
    var q := [c] + Placeholder + [d];
    assert '*' !in q by {
      assert forall i :: 0 <= i < |Placeholder| ==> Placeholder[i] != '*';
    }
    assert !OccursAt(q, Placeholder, 0) by {
      assert q[0] == c && Placeholder[0] == '_';
    }
    var t := q[1..];
    assert t == Placeholder + [d];
    assert OccursAt(t, Placeholder, 0);
    assert t[|Placeholder|..] == [d];
    assert Tokens([d]) == [Lit(d)];
    assert Tokens(q) == [Lit(c)] + Tokens(t);
    var w := [c, '*', '*', d];
    assert w[1..][2..] == [d];
    assert MarkDoubleStars(w) == [c] + (Placeholder + [d]);
    assert [c] + (Placeholder + [d]) == q;
  }

  /** The characters JavaScript's `.` does not match without the `s` flag. */
  predicate IsLineTerminator(c: char) {
    c == '\n' || c == '\r' || c == '\U{2028}' || c == '\U{2029}'
  }

  /** What one star token may consume: `[^/]` for `*`, `.` for `**`. */
  predicate StarAccepts(t: GlobTok, c: char) {
    if t.Star? then c != '/' else !IsLineTerminator(c)
  }

  /** Anchored match of a token list against the whole target. */
  predicate GlobMatch(ts: seq<GlobTok>, s: string)
    decreases |ts|, |s|
  {
    if ts == [] then s == []
    else match ts[0]
      case Lit(c) => s != [] && s[0] == c && GlobMatch(ts[1..], s[1..])
      case _ => GlobMatch(ts[1..], s) || (s != [] && StarAccepts(ts[0], s[0]) && GlobMatch(ts, s[1..]))
  }

  /** Some prefix of `s` is accepted by the star token `t` and `rest` matches
      the remaining suffix. */
  predicate StarThen(t: GlobTok, rest: seq<GlobTok>, s: string) {
    exists k :: 0 <= k <= |s| && (forall i :: 0 <= i < k ==> StarAccepts(t, s[i])) && GlobMatch(rest, s[k..])
  }

  /** A star token matches exactly: some prefix of acceptable characters,
      followed by a match of the rest. */
  lemma {:induction false} StarMatchMeaning(ts: seq<GlobTok>, s: string)
    requires ts != [] && !ts[0].Lit?
    ensures GlobMatch(ts, s) <==> StarThen(ts[0], ts[1..], s)
    decreases |s|
  {
    if GlobMatch(ts, s) {
      if GlobMatch(ts[1..], s) {
        assert s[0..] == s;
      } else {
        StarMatchMeaning(ts, s[1..]);
        var k :| 0 <= k <= |s[1..]| && (forall i :: 0 <= i < k ==> StarAccepts(ts[0], s[1..][i])) && GlobMatch(ts[1..], s[1..][k..]);
        assert s[1..][k..] == s[k + 1..];
        assert forall i :: 0 <= i < k + 1 ==> StarAccepts(ts[0], s[i]) by {
          forall i | 0 <= i < k + 1 ensures StarAccepts(ts[0], s[i]) {
            if i > 0 { assert s[i] == s[1..][i - 1]; }
          }
        }
      }
    }
    if exists k :: 0 <= k <= |s| && (forall i :: 0 <= i < k ==> StarAccepts(ts[0], s[i])) && GlobMatch(ts[1..], s[k..]) {
      var k :| 0 <= k <= |s| && (forall i :: 0 <= i < k ==> StarAccepts(ts[0], s[i])) && GlobMatch(ts[1..], s[k..]);
      if k == 0 {
        assert s[0..] == s;
      } else {
        assert s[1..][k - 1..] == s[k..];
        assert forall i :: 0 <= i < k - 1 ==> StarAccepts(ts[0], s[1..][i]) by {
          forall i | 0 <= i < k - 1 ensures StarAccepts(ts[0], s[1..][i]) {
            assert s[1..][i] == s[i + 1];
          }
        }
        StarMatchMeaning(ts, s[1..]);
      }
    }
  }

  /** A pattern without `*` or the placeholder text matches exactly the
      target equal to itself: regex metacharacters are escaped. */
  lemma LiteralGlobMatchesItself(p: string, s: string)
    requires '*' !in p && !Contains(p, Placeholder)
    ensures GlobMatch(Tokenize(p), s) <==> s == p
  {
    LiteralMatch(p, s);
  }

  /** A run of literal tokens matches exactly the text it spells. */
  lemma {:induction false} LiteralMatch(p: string, s: string)
    ensures GlobMatch(seq(|p|, i requires 0 <= i < |p| => Lit(p[i])), s) <==> s == p
    decreases |p|
  {
    var ts := seq(|p|, i requires 0 <= i < |p| => Lit(p[i]));
    if p != [] {
      assert ts[1..] == seq(|p[1..]|, i requires 0 <= i < |p[1..]| => Lit(p[1..][i]));
      if s != [] {
        LiteralMatch(p[1..], s[1..]);
        if s[0] == p[0] && s[1..] == p[1..] {
          assert s == [s[0]] + s[1..] && p == [p[0]] + p[1..];
        }
      }
    }
  }

  /** `*` alone matches exactly the targets without `/`. */
  lemma SingleStar(s: string)
    ensures GlobMatch(Tokenize("*"), s) <==> '/' !in s
  {
    assert Tokenize("*") == [Star];
    StarMatchMeaning([Star], s);
    if '/' !in s {
      assert s[|s|..] == [];
    }
    if GlobMatch([Star], s) {
      var k :| 0 <= k <= |s| && (forall i :: 0 <= i < k ==> StarAccepts(Star, s[i])) && GlobMatch([], s[k..]);
      assert k == |s|;
    }
  }

  /** `**` alone matches exactly the targets without line terminators. */
  lemma DoubleStarAlone(s: string)
    ensures GlobMatch(Tokenize("**"), s) <==> forall i :: 0 <= i < |s| ==> !IsLineTerminator(s[i])
  {
    TokenizeDoubleStar();
    StarMatchMeaning([DoubleStar], s);
    if forall i :: 0 <= i < |s| ==> !IsLineTerminator(s[i]) {
      assert s[|s|..] == [];
    }
    if GlobMatch([DoubleStar], s) {
      var k :| 0 <= k <= |s| && (forall i :: 0 <= i < k ==> StarAccepts(DoubleStar, s[i])) && GlobMatch([], s[k..]);
      assert k == |s|;
    }
  }

  /** `**` becomes the placeholder and then one `.*`. */
  lemma TokenizeDoubleStar()
    ensures Tokenize("**") == [DoubleStar]
  {
    assert MarkDoubleStars("**") == Placeholder;
    assert OccursAt(Placeholder, Placeholder, 0);
    assert Placeholder[|Placeholder|..] == [];
  }

  /** `globToRegExp(pattern).test(target)`. */
  predicate GlobTest(pattern: string, target: string) {
    GlobMatch(Tokenize(pattern), target)
  }

  /** `matchesGlob(pattern, target)` with platform separator `sep`. */
  predicate MatchesGlob(pattern: string, target: string, sep: char) {
    GlobTest(NormalizePath(Trim(pattern), sep), NormalizePath(Trim(target), sep))
  }

  lemma {:induction false} TrimStartIdem(s: string)
    ensures TrimStart(TrimStart(s)) == TrimStart(s)
  {
  }

  lemma {:induction false} TrimEndIdem(s: string)
    ensures TrimEnd(TrimEnd(s)) == TrimEnd(s)
  {
  }

  lemma {:induction false} TrimEndKeepsStart(s: string)
    requires s == [] || !IsSpace(s[0])
    ensures TrimStart(TrimEnd(s)) == TrimEnd(s)
  {
    var t := TrimEnd(s);
    assert t == [] || t[0] == s[0];
  }

  /** `trim` is idempotent. */
  lemma TrimIdem(s: string)
    ensures Trim(Trim(s)) == Trim(s)
  {
    var a := TrimStart(s);
    var b := TrimEnd(a);
    TrimEndKeepsStart(a);
    TrimEndIdem(a);
  }

  /** Surrounding white space on either side never changes the outcome of
      `matchesGlob`. */
  lemma MatchesGlobIgnoresPadding(pattern: string, target: string, sep: char)
    ensures MatchesGlob(Trim(pattern), Trim(target), sep) == MatchesGlob(pattern, target, sep)
  {
    TrimIdem(pattern);
    TrimIdem(target);
  }
}
