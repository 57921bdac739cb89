/** `BebopError` (src/errors.ts): a coded error with an optional list of
    suggestions, its terminal rendering, and the two factories the compiler
    and the registry raise. */
module Errors {
  import opened Wrappers
  import opened Text
  import opened Js

  /** The part of an enforcement violation the compiler passes on; the pack
      id is the loaded pack's `id` value. */
  datatype ViolationSummary = ViolationSummary(ruleId: string, packId: Value, vtype: string)

  /** The `details` record of the errors modelled here. */
  datatype Details =
    | NoDetails
    | PackDetails(packId: string)
    | ViolationDetails(violations: seq<ViolationSummary>)

  datatype BebopError = BebopError(
    message: string,
    code: string,
    suggestions: Option<seq<string>>,
    details: Details)

  /** The escape character that starts an ANSI colour sequence. */
  const Esc: char := 27 as char
  const Red: string := [Esc] + "[31m"
  const Yellow: string := [Esc] + "[33m"
  const Reset: string := [Esc] + "[0m"

  /** The first line of a rendered error. */
  function Headline(code: string, message: string): string {
    Red + "Error [" + code + "]:" + Reset + " " + message
  }

  /** `suggestions.forEach((s, i) => output += ...)` from position `i` on. */
  function Numbered(suggestions: seq<string>, i: nat): string
    requires i <= |suggestions|
    decreases |suggestions| - i
  {
    if i == |suggestions| then ""
    else "\n  " + NatToString(i + 1) + ". " + suggestions[i] + Numbered(suggestions, i + 1)
  }

  /** `BebopError.toString()`. */
  function ToString(e: BebopError): (r: string)
    ensures StartsWith(r, Headline(e.code, e.message))
    ensures (e.suggestions.None? || e.suggestions.value == []) ==> r == Headline(e.code, e.message)
  {
    var head := Headline(e.code, e.message);
    if e.suggestions.Some? && |e.suggestions.value| > 0 then
      var r := head + "\n\n" + Yellow + "Suggestions:" + Reset + Numbered(e.suggestions.value, 0);
      assert r[..|head|] == head;
      r
    else head
  }

  /** The `i`-th suggestion line, counting from 1. */
  function SuggestionLine(suggestions: seq<string>, i: nat): string
    requires i < |suggestions|
  {
    "  " + NatToString(i + 1) + ". " + suggestions[i]
  }

  /** The suggestion lines from position `i` on. */
  function SuggestionLines(suggestions: seq<string>, i: nat): seq<string>
    requires i <= |suggestions|
  {
    seq(|suggestions| - i, k requires 0 <= k < |suggestions| - i => SuggestionLine(suggestions, i + k))
  }

  /** The lines of a rendered error, as `split('\n')` recovers them. */
  function RenderedLines(e: BebopError): seq<string> {
    var head := [Headline(e.code, e.message)];
    if e.suggestions.Some? && |e.suggestions.value| > 0 then
      var ss := e.suggestions.value;
      head + ["", Yellow + "Suggestions:" + Reset] + SuggestionLines(ss, 0)
    else head
  }

  /** A rendered error reads back line by line: the headline, and with
      suggestions a blank line, the coloured `Suggestions:` header and one
      line `  <n>. <suggestion>` per suggestion, numbered from 1 in order. */
  lemma RenderedLinesSplit(e: BebopError)
    requires '\n' !in e.code && '\n' !in e.message
    requires e.suggestions.Some? ==> forall s :: s in e.suggestions.value ==> '\n' !in s
    ensures Split(ToString(e), '\n') == RenderedLines(e)
  {
    var lines := RenderedLines(e);
    ToStringIsJoin(e);
    NoNewlineInHeadline(e.code, e.message);
    if e.suggestions.Some? && |e.suggestions.value| > 0 {
      var ss := e.suggestions.value;
      assert '\n' !in Yellow + "Suggestions:" + Reset by {
        assert Yellow + "Suggestions:" + Reset == [Esc] + "[33mSuggestions:" + [Esc] + "[0m";
      }
      forall i | 0 <= i < |lines| ensures '\n' !in lines[i] {
        if i >= 3 {
          NoNewlineInLine(ss, i - 3);
        }
      }
    }
    SplitJoin(lines, '\n');
  }

  /** `toString` joins the rendered lines with newlines. */
  lemma ToStringIsJoin(e: BebopError)
    ensures ToString(e) == Join(RenderedLines(e), "\n")
  {
    var lines := RenderedLines(e);
    if e.suggestions.Some? && |e.suggestions.value| > 0 {
      var ss := e.suggestions.value;
      var h := Headline(e.code, e.message);
      var hdr := Yellow + "Suggestions:" + Reset;
      var sl := SuggestionLines(ss, 0);
      NumberedIsJoin(ss, 0);
      assert lines == [h] + (["", hdr] + sl);
      assert ["", hdr] + sl == [""] + ([hdr] + sl);
      JoinOfConsLines(h, ["", hdr] + sl);
      JoinOfConsLines("", [hdr] + sl);
      JoinOfConsLines(hdr, sl);
    }
  }

  lemma NoNewlineInHeadline(code: string, message: string)
    requires '\n' !in code && '\n' !in message
    ensures '\n' !in Headline(code, message)
  {
  }

  lemma NoNewlineInLine(ss: seq<string>, i: nat)
    requires i < |ss| && '\n' !in ss[i]
    ensures '\n' !in SuggestionLine(ss, i)
  {
    var digits := NatToString(i + 1);
    assert forall k :: 0 <= k < |digits| ==> IsDigit(digits[k]);
  }

  /** The numbered suggestions are the newline-prefixed suggestion lines. */
  lemma {:induction false} NumberedIsJoin(ss: seq<string>, i: nat)
    requires i < |ss|
    ensures Numbered(ss, i) == "\n" + Join(SuggestionLines(ss, i), "\n")
    decreases |ss| - i
  {
    var line := SuggestionLine(ss, i);
    SuggestionLinesCons(ss, i);
    NumberedStep(ss, i);
    if i + 1 < |ss| {
      var rest := SuggestionLines(ss, i + 1);
      NumberedIsJoin(ss, i + 1);
      JoinOfConsLines(line, rest);
      calc {
        Numbered(ss, i);
        "\n" + line + ("\n" + Join(rest, "\n"));
        "\n" + (line + "\n" + Join(rest, "\n"));
      }
    } else {
      assert SuggestionLines(ss, i) == [line];
      assert Join([line], "\n") == line;
    }
  }

  /** One step of `Numbered`: a newline, then the `i`-th line. */
  lemma NumberedStep(ss: seq<string>, i: nat)
    requires i < |ss|
    ensures Numbered(ss, i) == "\n" + SuggestionLine(ss, i) + Numbered(ss, i + 1)
  {
  }

  lemma SuggestionLinesCons(ss: seq<string>, i: nat)
    requires i < |ss|
    ensures SuggestionLines(ss, i) == [SuggestionLine(ss, i)] + SuggestionLines(ss, i + 1)
  {
    var a := SuggestionLines(ss, i);
    var b := [SuggestionLine(ss, i)] + SuggestionLines(ss, i + 1);
    assert |a| == |b|;
    forall k | 0 <= k < |a| ensures a[k] == b[k] {
      if k > 0 {
        assert b[k] == SuggestionLines(ss, i + 1)[k - 1];
      }
    }
  }

  /** `[x, ...rest].join('\n')` when `rest` is non-empty. */
  lemma JoinOfConsLines(x: string, rest: seq<string>)
    requires rest != []
    ensures Join([x] + rest, "\n") == x + "\n" + Join(rest, "\n")
  {
    assert ([x] + rest)[1..] == rest;
  }

  /** `errors.PACK_NOT_FOUND(id)`. */
  function PackNotFound(id: string): (e: BebopError)
    ensures e.message == "Pack not found: " + id
    ensures e.code == "PACK_NOT_FOUND" && e.details == PackDetails(id)
    ensures e.suggestions.Some? && |e.suggestions.value| == 3
  {
    BebopError("Pack not found: " + id, "PACK_NOT_FOUND",
      Some(["Run `bebop pack list` to see available packs",
            "Create a new pack with `bebop pack create --name <id>`",
            "Check the pack ID is correct (e.g., namespace/pack@version)"]),
      PackDetails(id))
  }

  /** The message names the pack: two packs share a not-found message only
      when they are the same pack. */
  lemma PackNotFoundIdentifies(a: string, b: string)
    requires PackNotFound(a).message == PackNotFound(b).message
    ensures a == b
  {
    var prefix := "Pack not found: ";
    assert (prefix + a)[|prefix|..] == a;
    assert (prefix + b)[|prefix|..] == b;
  }

  /** `errors.ENFORCEMENT_FAILED(violations)`. */
  function EnforcementFailed(violations: seq<ViolationSummary>): (e: BebopError)
    ensures e.message == "Enforcement failed for " + NatToString(|violations|) + " rule(s)."
    ensures e.code == "ENFORCEMENT_FAILED" && e.details == ViolationDetails(violations)
    ensures e.suggestions.Some? && |e.suggestions.value| == 3
  {
    BebopError("Enforcement failed for " + NatToString(|violations|) + " rule(s).", "ENFORCEMENT_FAILED",
      Some(["Remove sensitive values from your input",
            "Adjust the relevant pack enforcement rules if needed",
            "Disable enforcement with --no-enforce (if appropriate)"]),
      ViolationDetails(violations))
  }
}
