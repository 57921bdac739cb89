/** String operations with the semantics of the JavaScript built-ins the source
    uses: `\s` whitespace, `split(/\s+/).filter(Boolean)`, `split(c)`, `join`,
    `trim`, `startsWith`, `includes`, `indexOf`, and decimal `toString`. */
module Text {
  import opened Wrappers

  /** The characters JavaScript's `\s` class and `String.prototype.trim` treat as
      white space. */
  predicate IsSpace(c: char) {
    || c == ' '
    || ('\t' <= c <= '\r')
    || c == '\U{A0}' || c == '\U{1680}'
    || ('\U{2000}' <= c <= '\U{200A}')
    || c == '\U{2028}' || c == '\U{2029}'
    || c == '\U{202F}' || c == '\U{205F}' || c == '\U{3000}' || c == '\U{FEFF}'
  }

  /** The separator classes of the two field splitters in the source:
      `/\s+/` and `/[,\s]+/`. */
  datatype Sep = Whitespace | CommaOrWhitespace

  predicate IsSep(k: Sep, c: char) {
    IsSpace(c) || (k == CommaOrWhitespace && c == ',')
  }

  predicate NoSep(w: string, k: Sep) {
    forall i :: 0 <= i < |w| ==> !IsSep(k, w[i])
  }

  /** Length of the leading run of non-separator characters. */
  function RunLength(s: string, k: Sep): (n: nat)
    ensures n <= |s|
    ensures forall i :: 0 <= i < n ==> !IsSep(k, s[i])
    ensures n < |s| ==> IsSep(k, s[n])
    decreases |s|
  {
    if s == [] || IsSep(k, s[0]) then 0 else 1 + RunLength(s[1..], k)
  }

  /** `s.split(/sep+/).filter(Boolean)`: the maximal non-empty runs of
      non-separator characters, left to right. */
  function Fields(s: string, k: Sep): (r: seq<string>)
    ensures forall i :: 0 <= i < |r| ==> |r[i]| > 0 && NoSep(r[i], k)
    decreases |s|
  {
    if s == [] then []
    else if IsSep(k, s[0]) then Fields(s[1..], k)
    else
      var n := RunLength(s, k);
      [s[..n]] + Fields(s[n..], k)
  }

  /** `s.split(/\s+/).filter(Boolean)`, the tokenizer used throughout the source. */
  function Words(s: string): seq<string> {
    Fields(s, Whitespace)
  }

  /** `parts.join(sep)`. */
  function Join(parts: seq<string>, sep: string): string
    decreases |parts|
  {
    if |parts| == 0 then ""
    else if |parts| == 1 then parts[0]
    else parts[0] + sep + Join(parts[1..], sep)
  }

  lemma {:induction false} RunLengthOfWord(w: string, t: string, k: Sep)
    requires NoSep(w, k)
    requires t == [] || IsSep(k, t[0])
    ensures RunLength(w + t, k) == |w|
    decreases |w|
  {
    if w != [] {
      assert (w + t)[1..] == w[1..] + t;
      RunLengthOfWord(w[1..], t, k);
    }
  }

  lemma FieldsOfLeadingWord(w: string, t: string, k: Sep)
    requires |w| > 0 && NoSep(w, k)
    requires t == [] || IsSep(k, t[0])
    ensures Fields(w + t, k) == [w] + Fields(t, k)
  {
    RunLengthOfWord(w, t, k);
    assert (w + t)[..|w|] == w;
    assert (w + t)[|w|..] == t;
  }

  /** Splitting a single-space join of separator-free words gives the words back. */
  lemma {:induction false} FieldsOfJoin(ws: seq<string>, k: Sep)
    requires forall i :: 0 <= i < |ws| ==> |ws[i]| > 0 && NoSep(ws[i], k)
    ensures Fields(Join(ws, " "), k) == ws
    decreases |ws|
  {
    if |ws| == 1 {
      FieldsOfLeadingWord(ws[0], "", k);
      assert ws[0] + "" == ws[0];
    } else if |ws| > 1 {
      var rest := Join(ws[1..], " ");
      assert forall i :: 0 <= i < |ws[1..]| ==> ws[1..][i] == ws[i + 1];
      FieldsOfJoin(ws[1..], k);
      JoinCons(ws, " ");
      FieldsAfterSpace(rest, k);
      FieldsOfLeadingWord(ws[0], " " + rest, k);
      assert ws == [ws[0]] + ws[1..];
    }
  }

  /** A join of two or more parts starts with the first part and the separator. */
  lemma JoinCons(parts: seq<string>, sep: string)
    requires |parts| > 1
    ensures Join(parts, sep) == parts[0] + (sep + Join(parts[1..], sep))
  {
  }

  /** Every part of a join occurs in it. */
  lemma {:induction false} JoinPartAt(parts: seq<string>, sep: string, k: nat) returns (j: nat)
    requires k < |parts|
    ensures OccursAt(Join(parts, sep), parts[k], j)
    decreases k
  {
    var s := Join(parts, sep);
    if |parts| == 1 {
      j := 0;
      assert s[..|parts[0]|] == parts[0];
    } else {
      JoinCons(parts, sep);
      if k == 0 {
        j := 0;
        assert s[..|parts[0]|] == parts[0];
      } else {
        var rest := Join(parts[1..], sep);
        var i := JoinPartAt(parts[1..], sep, k - 1);
        j := |parts[0]| + |sep| + i;
        assert s[j..j + |parts[k]|] == rest[i..i + |parts[k]|];
      }
    }
  }

  /** Printable ASCII other than the space is never white space. */
  lemma PrintableNoSpace(w: string)
    requires forall i :: 0 <= i < |w| ==> '!' <= w[i] <= '~'
    ensures NoSep(w, Whitespace)
  {
  }

  /** A leading space is dropped by the field splitter. */
  lemma FieldsAfterSpace(rest: string, k: Sep)
    ensures Fields(" " + rest, k) == Fields(rest, k)
  {
    var t := " " + rest;
    assert IsSep(k, t[0]) && t[1..] == rest;
  }

  /** Index of the first `c` in `s`. */
  function FirstIndex(s: string, c: char): (r: Option<nat>)
    ensures r.Some? ==> r.value < |s| && s[r.value] == c && c !in s[..r.value]
    ensures r.None? ==> c !in s
    decreases |s|
  {
    if s == [] then None
    else if s[0] == c then Some(0)
    else match FirstIndex(s[1..], c)
      case None => None
      case Some(i) => Some(i + 1)
  }

  /** Index of the last `c` in `s` (`lastIndexOf`, with `None` for -1). */
  function LastIndex(s: string, c: char): (r: Option<nat>)
    ensures r.Some? ==> r.value < |s| && s[r.value] == c && c !in s[r.value + 1..]
    ensures r.None? ==> c !in s
    decreases |s|
  {
    if s == [] then None
    else if s[|s| - 1] == c then Some(|s| - 1)
    else LastIndex(s[..|s| - 1], c)
  }

  /** `s.split(c)` for a one-character separator: always at least one part. */
  function Split(s: string, c: char): (r: seq<string>)
    ensures |r| >= 1
    ensures forall i :: 0 <= i < |r| ==> c !in r[i]
    decreases |s|
  {
    match FirstIndex(s, c)
    case None => [s]
    case Some(i) => [s[..i]] + Split(s[i + 1..], c)
  }

  /** Joining the parts of a split with the separator restores the text. */
  lemma {:induction false} JoinSplit(s: string, c: char)
    ensures Join(Split(s, c), [c]) == s
    decreases |s|
  {
    match FirstIndex(s, c)
    case None =>
    case Some(i) =>
      var rest := s[i + 1..];
      var p := Split(rest, c);
      JoinSplit(rest, c);
      var parts := [s[..i]] + p;
      assert Split(s, c) == parts;
      assert |parts| >= 2 && parts[0] == s[..i] && parts[1..] == p;
      assert Join(parts, [c]) == s[..i] + [c] + Join(p, [c]);
      assert s == s[..i] + [c] + rest;
  }

  /** Splitting a join of separator-free parts gives the parts back. */
  lemma {:induction false} SplitJoin(parts: seq<string>, c: char)
    requires |parts| >= 1
    requires forall i :: 0 <= i < |parts| ==> c !in parts[i]
    ensures Split(Join(parts, [c]), c) == parts
    decreases |parts|
  {
    if |parts| > 1 {
      var rest := Join(parts[1..], [c]);
      var s := parts[0] + [c] + rest;
      SplitJoin(parts[1..], c);
      FirstIndexAfterFree(parts[0], [c] + rest, c);
      assert s == parts[0] + ([c] + rest);
      assert s[..|parts[0]|] == parts[0];
      assert s[|parts[0]| + 1..] == rest;
    } else {
      FirstIndexAfterFree(parts[0], [], c);
      assert parts[0] + [] == parts[0];
    }
  }

  /** Joining two non-empty lists puts one separator between them. */
  lemma {:induction false} JoinConcat(a: seq<string>, b: seq<string>, sep: string)
    requires a != [] && b != []
    ensures Join(a + b, sep) == Join(a, sep) + sep + Join(b, sep)
    decreases |a|
  {
    assert (a + b)[0] == a[0];
    if |a| > 1 {
      assert (a + b)[1..] == a[1..] + b;
      JoinConcat(a[1..], b, sep);
    } else {
      assert (a + b)[1..] == b;
    }
  }

  lemma {:induction false} FirstIndexAfterFree(w: string, t: string, c: char)
    requires c !in w
    ensures FirstIndex(w + t, c) == (match FirstIndex(t, c) case None => None case Some(i) => Some(i + |w|))
    decreases |w|
  {
    if w != [] {
      assert (w + t)[1..] == w[1..] + t;
      FirstIndexAfterFree(w[1..], t, c);
    } else {
      assert w + t == t;
    }
  }

  predicate StartsWith(s: string, prefix: string) {
    |prefix| <= |s| && s[..|prefix|] == prefix
  }

  /** A prefix fixes the leading characters. */
  lemma StartsWithAt(s: string, prefix: string, i: nat)
    requires StartsWith(s, prefix) && i < |prefix|
    ensures s[i] == prefix[i]
  {
    assert s[..|prefix|][i] == s[i];
  }

  predicate EndsWith(s: string, suffix: string) {
    |suffix| <= |s| && s[|s| - |suffix|..] == suffix
  }

  predicate OccursAt(s: string, sub: string, j: int) {
    0 <= j && j + |sub| <= |s| && s[j..j + |sub|] == sub
  }

  /** `s.indexOf(sub, from)`: the first occurrence at or after `from`. */
  function IndexOfFrom(s: string, sub: string, from: nat): (r: Option<nat>)
    ensures r.Some? ==> from <= r.value && OccursAt(s, sub, r.value)
    ensures r.Some? ==> forall j :: from <= j < r.value ==> !OccursAt(s, sub, j)
    ensures r.None? ==> forall j :: from <= j ==> !OccursAt(s, sub, j)
    decreases |s| - from
  {
    if from + |sub| > |s| then None
    else if s[from..from + |sub|] == sub then Some(from)
    else IndexOfFrom(s, sub, from + 1)
  }

  /** `s.includes(sub)`. */
  predicate Contains(s: string, sub: string) {
    IndexOfFrom(s, sub, 0).Some?
  }

  lemma ContainsWitness(s: string, sub: string, j: int)
    requires OccursAt(s, sub, j)
    ensures Contains(s, sub)
  {
  }

  /** For a one-character needle, `includes` is membership. */
  lemma ContainsChar(s: string, c: char)
    ensures Contains(s, [c]) <==> c in s
  {
    if c in s {
      var j :| 0 <= j < |s| && s[j] == c;
      assert s[j..j + 1] == [c];
      ContainsWitness(s, [c], j);
    }
    if Contains(s, [c]) {
      var j := IndexOfFrom(s, [c], 0).value;
      assert s[j..j + 1][0] == s[j];
    }
  }

  /** ASCII lower-casing (`toLowerCase` restricted to A-Z). */
  function LowerChar(c: char): char {
    if 'A' <= c <= 'Z' then (c as int + 32) as char else c
  }

  function Lower(s: string): (r: string)
    ensures |r| == |s|
    ensures forall i :: 0 <= i < |s| ==> r[i] == LowerChar(s[i])
  {
    seq(|s|, i requires 0 <= i < |s| => LowerChar(s[i]))
  }

  function TrimStart(s: string): (r: string)
    ensures |r| <= |s| && r == s[|s| - |r|..]
    ensures r == [] || !IsSpace(r[0])
    decreases |s|
  {
    if |s| > 0 && IsSpace(s[0]) then TrimStart(s[1..]) else s
  }

  function TrimEnd(s: string): (r: string)
    ensures |r| <= |s| && r == s[..|r|]
    ensures r == [] || !IsSpace(r[|r| - 1])
    decreases |s|
  {
    if |s| > 0 && IsSpace(s[|s| - 1]) then TrimEnd(s[..|s| - 1]) else s
  }

  /** `s.trim()`. */
  function Trim(s: string): (r: string)
    ensures r == [] || (!IsSpace(r[0]) && !IsSpace(r[|r| - 1]))
  {
    var t := TrimStart(s);
    var r := TrimEnd(t);
    assert r == [] || r[0] == t[0];
    r
  }

  predicate IsDigit(c: char) {
    '0' <= c <= '9'
  }

  function DigitChar(d: nat): (c: char)
    requires d < 10
    ensures IsDigit(c)
  {
    ('0' as int + d) as char
  }

  /** Decimal rendering of a natural number (`String(n)`). */
  function NatToString(n: nat): (r: string)
    ensures |r| >= 1
    ensures forall i :: 0 <= i < |r| ==> IsDigit(r[i])
  {
    if n < 10 then [DigitChar(n)] else NatToString(n / 10) + [DigitChar(n % 10)]
  }

  /** Decimal rendering of an integer, with a leading `-` when negative. */
  function IntToString(i: int): string {
    if i < 0 then "-" + NatToString(-i) else NatToString(i)
  }

  /** A rendered number holds no newline. */
  lemma NoNewlineInNumber(n: int)
    ensures '\n' !in IntToString(n)
  {
    var digits := NatToString(if n < 0 then -n else n);
    assert forall k :: 0 <= k < |digits| ==> IsDigit(digits[k]);
  }
}
