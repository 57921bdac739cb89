/** The `&use` / `&pack` directive scanner (src/directive-parser.ts). */
module Directives {
  import opened Text
  import opened Seqs

  datatype ParsedDirectives = ParsedDirectives(packs: seq<string>, cleanedInput: string, hasDirectives: bool)

  /** The token-level result of one scan: packs, kept tokens, and whether a
      directive token was seen. */
  datatype Scan = Scan(packs: seq<string>, cleaned: seq<string>, hasDirectives: bool)

  /** `token.startsWith('&')`. */
  predicate IsDirective(t: string) {
    |t| > 0 && t[0] == '&'
  }

  /** A token `&use` accepts as a pack name: not a directive and containing `/`. */
  predicate IsUsePack(t: string) {
    !IsDirective(t) && Contains(t, "/")
  }

  /** Number of leading tokens the `&use` loop consumes. */
  function UseRun(ts: seq<string>): (n: nat)
    ensures n <= |ts|
    ensures forall i :: 0 <= i < n ==> IsUsePack(ts[i])
    ensures n < |ts| ==> !IsUsePack(ts[n])
    decreases |ts|
  {
    if ts == [] || !IsUsePack(ts[0]) then 0 else 1 + UseRun(ts[1..])
  }

  function CountDirectives(ts: seq<string>): (n: nat)
    ensures n <= |ts|
    decreases |ts|
  {
    if ts == [] then 0 else (if IsDirective(ts[0]) then 1 else 0) + CountDirectives(ts[1..])
  }

  /** Some token is a directive exactly when the count is positive. */
  lemma {:induction false} CountDirectivesPositive(ts: seq<string>)
    ensures CountDirectives(ts) > 0 <==> exists t :: t in ts && IsDirective(t)
    decreases |ts|
  {
    if ts != [] {
      CountDirectivesPositive(ts[1..]);
      assert forall t :: t in ts <==> t == ts[0] || t in ts[1..];
    }
  }

  lemma {:induction false} CountDirectivesAppend(u: seq<string>, v: seq<string>)
    ensures CountDirectives(u + v) == CountDirectives(u) + CountDirectives(v)
    decreases |u|
  {
    if u != [] {
      assert (u + v)[1..] == u[1..] + v;
      CountDirectivesAppend(u[1..], v);
    } else {
      assert u + v == v;
    }
  }

  lemma {:induction false} UseRunHasNoDirectives(ts: seq<string>, n: nat)
    requires n <= |ts|
    requires forall i :: 0 <= i < n ==> IsUsePack(ts[i])
    ensures CountDirectives(ts[..n]) == 0
    decreases n
  {
    if n > 0 {
      assert ts[..n][1..] == ts[1..][..n - 1];
      UseRunHasNoDirectives(ts[1..], n - 1);
    }
  }

  /** What one scan owes its tokens: the flag records whether a directive
      was seen, no kept token or pack is a directive, no pack is empty,
      every token is accounted for exactly once, and both outputs keep the
      tokens' order. */
  ghost predicate Accounts(ts: seq<string>, r: Scan) {
    && (r.hasDirectives <==> CountDirectives(ts) > 0)
    && (forall i :: 0 <= i < |r.cleaned| ==> !IsDirective(r.cleaned[i]))
    && (forall i :: 0 <= i < |r.packs| ==> r.packs[i] != "" && !IsDirective(r.packs[i]))
    && |r.packs| + |r.cleaned| + CountDirectives(ts) == |ts|
    && IsSubseq(r.packs, ts) && IsSubseq(r.cleaned, ts)
  }

  /** The scanning loop of `parseDirectives` over the token list. Each token is
      exactly one of: a directive (dropped), a pack, or a kept task token. */
  function ScanTokens(ts: seq<string>): (r: Scan)
    ensures Accounts(ts, r)
    decreases |ts|
  {
    if ts == [] then Scan([], [], false)
    else if IsDirective(ts[0]) then
      if ts[0] == "&use" then
        var n := UseRun(ts[1..]);
        var rest := ScanTokens(ts[1 + n..]);
        var r := Scan(ts[1..1 + n] + rest.packs, rest.cleaned, true);
        UseRunConsumes(ts, n, rest);
        r
      else if ts[0] == "&pack" && |ts| > 1 && ts[1] != "" && !IsDirective(ts[1]) then
        var rest := ScanTokens(ts[2..]);
        var r := Scan([ts[1]] + rest.packs, rest.cleaned, true);
        PackConsumes(ts, rest);
        r
      else
        var rest := ScanTokens(ts[1..]);
        var r := Scan(rest.packs, rest.cleaned, true);
        DirectiveDropped(ts, rest);
        r
    else
      var rest := ScanTokens(ts[1..]);
      var r := Scan(rest.packs, [ts[0]] + rest.cleaned, rest.hasDirectives);
      TokenKept(ts, rest);
      assert Accounts(ts, r);
      r
  }

  lemma UseRunConsumes(ts: seq<string>, n: nat, rest: Scan)
    requires ts != [] && ts[0] == "&use"
    requires n <= |ts| - 1
    requires forall i :: 0 <= i < n ==> IsUsePack(ts[1..][i])
    requires Accounts(ts[1 + n..], rest)
    ensures Accounts(ts, Scan(ts[1..1 + n] + rest.packs, rest.cleaned, true))
  {
    var run := ts[1..1 + n];
    var tail := ts[1 + n..];
    var packs := run + rest.packs;
    assert ts == [ts[0]] + (run + tail);
    assert run == ts[1..][..n];
    UseRunHasNoDirectives(ts[1..], n);
    CountDirectivesAppend([ts[0]], run + tail);
    CountDirectivesAppend(run, tail);
    assert CountDirectives([ts[0]]) == 1;
    SubseqPrefixBoth(run, rest.packs, tail);
    SubseqSkip(ts[0], packs, run + tail);
    SubseqPrefixRight(run, rest.cleaned, tail);
    SubseqSkip(ts[0], rest.cleaned, run + tail);
    forall i | 0 <= i < |packs| ensures packs[i] != "" && !IsDirective(packs[i]) {
      if i < n {
        assert packs[i] == ts[1..][i] && IsUsePack(ts[1..][i]);
      } else {
        assert packs[i] == rest.packs[i - n];
      }
    }
  }

  lemma PackConsumes(ts: seq<string>, rest: Scan)
    requires |ts| > 1 && IsDirective(ts[0])
    requires ts[1] != "" && !IsDirective(ts[1])
    requires Accounts(ts[2..], rest)
    ensures Accounts(ts, Scan([ts[1]] + rest.packs, rest.cleaned, true))
  {
    var packs := [ts[1]] + rest.packs;
    assert ts == [ts[0]] + ([ts[1]] + ts[2..]);
    CountDirectivesAppend([ts[0]], [ts[1]] + ts[2..]);
    CountDirectivesAppend([ts[1]], ts[2..]);
    assert CountDirectives([ts[0]]) == 1;
    assert CountDirectives([ts[1]]) == 0;
    SubseqCons(ts[1], rest.packs, ts[2..]);
    SubseqSkip(ts[0], packs, [ts[1]] + ts[2..]);
    SubseqSkip(ts[1], rest.cleaned, ts[2..]);
    SubseqSkip(ts[0], rest.cleaned, [ts[1]] + ts[2..]);
    forall i | 0 <= i < |packs| ensures packs[i] != "" && !IsDirective(packs[i]) {
      if i > 0 {
        assert packs[i] == rest.packs[i - 1];
      }
    }
  }

  lemma DirectiveDropped(ts: seq<string>, rest: Scan)
    requires ts != [] && IsDirective(ts[0])
    requires Accounts(ts[1..], rest)
    ensures Accounts(ts, Scan(rest.packs, rest.cleaned, true))
  {
    assert ts == [ts[0]] + ts[1..];
    SubseqSkip(ts[0], rest.packs, ts[1..]);
    SubseqSkip(ts[0], rest.cleaned, ts[1..]);
  }

  lemma TokenKept(ts: seq<string>, rest: Scan)
    requires ts != [] && !IsDirective(ts[0])
    requires Accounts(ts[1..], rest)
    ensures Accounts(ts, Scan(rest.packs, [ts[0]] + rest.cleaned, rest.hasDirectives))
  {
    var cleaned := [ts[0]] + rest.cleaned;
    assert ts == [ts[0]] + ts[1..];
    SubseqSkip(ts[0], rest.packs, ts[1..]);
    SubseqCons(ts[0], rest.cleaned, ts[1..]);
    forall i | 0 <= i < |cleaned| ensures !IsDirective(cleaned[i]) {
      if i > 0 {
        assert cleaned[i] == rest.cleaned[i - 1];
      }
    }
  }

  /** `parseDirectives(input)`. */
  function ParseDirectives(input: string): (r: ParsedDirectives)
    ensures r.hasDirectives <==> exists t :: t in Words(input) && IsDirective(t)
    ensures forall t :: t in Words(r.cleanedInput) ==> t in Words(input) && !IsDirective(t)
    ensures forall p :: p in r.packs ==> p in Words(input) && !IsDirective(p)
  {
    var ts := Words(input);
    var s := ScanTokens(ts);
    CountDirectivesPositive(ts);
    CleanedTokensRoundTrip(ts, s);
    SubseqElements(s.cleaned, ts);
    SubseqElements(s.packs, ts);
    ParsedDirectives(s.packs, Join(s.cleaned, " "), s.hasDirectives)
  }

  lemma CleanedTokensRoundTrip(ts: seq<string>, s: Scan)
    requires forall i :: 0 <= i < |ts| ==> |ts[i]| > 0 && NoSep(ts[i], Whitespace)
    requires IsSubseq(s.cleaned, ts)
    ensures Words(Join(s.cleaned, " ")) == s.cleaned
  {
    SubseqElements(s.cleaned, ts);
    forall i | 0 <= i < |s.cleaned| ensures |s.cleaned[i]| > 0 && NoSep(s.cleaned[i], Whitespace) {
      assert s.cleaned[i] in ts;
    }
    FieldsOfJoin(s.cleaned, Whitespace);
  }

  /** Without directive tokens the scan keeps every token and finds no pack. */
  lemma {:induction false} ScanWithoutDirectives(ts: seq<string>)
    requires forall i :: 0 <= i < |ts| ==> !IsDirective(ts[i])
    ensures ScanTokens(ts) == Scan([], ts, false)
    decreases |ts|
  {
    if ts != [] {
      ScanWithoutDirectives(ts[1..]);
      assert [ts[0]] + ts[1..] == ts;
    }
  }

  /** Parsing is idempotent on its own output: the cleaned text parses to
      itself, with no packs and no directives. */
  lemma ParseIdempotent(input: string)
    ensures var once := ParseDirectives(input);
            ParseDirectives(once.cleanedInput) == ParsedDirectives([], once.cleanedInput, false)
  {
    var ts := Words(input);
    var s := ScanTokens(ts);
    CleanedTokensRoundTrip(ts, s);
    ScanWithoutDirectives(s.cleaned);
  }

  /** `&use` consumes the maximal run of `/`-containing, non-directive tokens; the
      first token without `/` stops consumption and is kept. */
  lemma UseStopsAtFirstNonPack(run: seq<string>, t: string, rest: seq<string>)
    requires forall i :: 0 <= i < |run| ==> IsUsePack(run[i])
    requires !IsDirective(t) && !Contains(t, "/")
    ensures var r := ScanTokens(["&use"] + run + [t] + rest);
            r.packs == run + ScanTokens(rest).packs
            && r.cleaned == [t] + ScanTokens(rest).cleaned
            && r.hasDirectives
  {
    var ts := ["&use"] + run + [t] + rest;
    assert ts[1..] == run + [t] + rest;
    UseRunPrefix(run, [t] + rest);
    assert run + [t] + rest == run + ([t] + rest);
    assert ts[1 + |run|..] == [t] + rest;
    assert ts[1..1 + |run|] == run;
    assert ([t] + rest)[1..] == rest;
  }

  lemma {:induction false} UseRunPrefix(run: seq<string>, tail: seq<string>)
    requires forall i :: 0 <= i < |run| ==> IsUsePack(run[i])
    requires tail == [] || !IsUsePack(tail[0])
    ensures UseRun(run + tail) == |run|
    decreases |run|
  {
    if run != [] {
      assert (run + tail)[1..] == run[1..] + tail;
      UseRunPrefix(run[1..], tail);
    } else {
      assert run + tail == tail;
    }
  }

  /** `&pack X` takes X as a pack, with or without `/`, when X is a non-empty
      non-directive token. */
  lemma PackTakesNext(x: string, rest: seq<string>)
    requires x != "" && !IsDirective(x)
    ensures var r := ScanTokens(["&pack", x] + rest);
            r.packs == [x] + ScanTokens(rest).packs && r.cleaned == ScanTokens(rest).cleaned
  {
    assert (["&pack", x] + rest)[2..] == rest;
  }

  /** `&pack` followed by a directive or by nothing is dropped alone. */
  lemma PackWithoutOperand(rest: seq<string>)
    requires rest == [] || IsDirective(rest[0])
    ensures ScanTokens(["&pack"] + rest) == Scan(ScanTokens(rest).packs, ScanTokens(rest).cleaned, true)
  {
    assert (["&pack"] + rest)[1..] == rest;
  }

  lemma ExampleWords(input: string)
    requires input == "&use core/security Create user"
    ensures Words(input) == ["&use", "core/security", "Create", "user"]
  {
    var a, b, c, d := "&use", "core/security", "Create", "user";
    JoinCons([a, b, c, d], " ");
    JoinCons([b, c, d], " ");
    JoinCons([c, d], " ");
    assert a + (" " + (b + (" " + (c + (" " + d))))) == input;
    PrintableNoSpace(a);
    PrintableNoSpace(b);
    PrintableNoSpace(c);
    PrintableNoSpace(d);
    FieldsOfJoin([a, b, c, d], Whitespace);
  }

  /** `&use a b d` with `a` a pack name, `b` a plain word and `d` no
      directive: the pack is `a` and `b d` is kept. */
  lemma UseThenWords(a: string, b: string, d: string)
    requires IsUsePack(a) && !IsDirective(b) && !Contains(b, "/") && !IsDirective(d)
    ensures ScanTokens(["&use", a, b, d]) == Scan([a], [b, d], true)
  {
    UseStopsAtFirstNonPack([a], b, [d]);
    assert ["&use"] + [a] + [b] + [d] == ["&use", a, b, d];
    ScanWithoutDirectives([d]);
  }

  lemma ExampleScan(ts: seq<string>)
    requires ts == ["&use", "core/security", "Create", "user"]
    ensures ScanTokens(ts) == Scan(["core/security"], ["Create", "user"], true)
  {
    var a, b, d := "core/security", "Create", "user";
    assert a[4..5] == "/";
    ContainsWitness(a, "/", 4);
    ContainsChar(b, '/');
    assert b[0] == 'C' && d[0] == 'u';
    UseThenWords(a, b, d);
  }

  lemma ExampleParse(input: string)
    requires Words(input) == ["&use", "core/security", "Create", "user"]
    ensures ParseDirectives(input) == ParsedDirectives(["core/security"], "Create user", true)
  {
    var p := ParseDirectives(input);
    var s := ScanTokens(Words(input));
    ParseFromScan(input);
    ExampleScan(Words(input));
    assert p.packs == ["core/security"] && p.hasDirectives;
    JoinPair(s.cleaned);
    assert p.cleanedInput == "Create user";
  }

  lemma JoinPair(c: seq<string>)
    requires c == ["Create", "user"]
    ensures Join(c, " ") == "Create user"
  {
    JoinCons(c, " ");
    assert Join(c[1..], " ") == "user";
  }

  /** `parseDirectives` is the scan of the input's words. */
  lemma ParseFromScan(input: string)
    ensures var s := ScanTokens(Words(input));
      ParseDirectives(input) == ParsedDirectives(s.packs, Join(s.cleaned, " "), s.hasDirectives)
  {
  }

  /** The documented example: `&use core/security Create user`. */
  lemma UseExample()
    ensures ParseDirectives("&use core/security Create user")
         == ParsedDirectives(["core/security"], "Create user", true)
  {
    ExampleWords("&use core/security Create user");
    ExampleParse("&use core/security Create user");
  }
}
