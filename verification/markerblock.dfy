/** The marker-delimited block `upsertBlock` keeps in shell start-up files
    (packages/core/src/init.ts): where the block is found, how it is
    replaced or appended, and why writing it twice changes nothing. */
module MarkerBlock {
  import opened Wrappers
  import opened Text
  import opened Seqs

  // ---------------------------------------------------------------------
  // Substring facts

  /** An occurrence with none before it (from `from` on) is the first. */
  lemma FirstOccurrence(s: string, sub: string, from: nat, k: nat)
    requires from <= k && OccursAt(s, sub, k)
    requires forall j :: from <= j < k ==> !OccursAt(s, sub, j)
    ensures IndexOfFrom(s, sub, from) == Some(k)
  {
  }

  /** An occurrence inside the second part of a concatenation. */
  lemma OccursAfter(p: string, s: string, sub: string, k: nat)
    requires OccursAt(s, sub, k)
    ensures OccursAt(p + s, sub, |p| + k)
  {
    assert (p + s)[|p| + k..|p| + k + |sub|] == s[k..k + |sub|];
  }

  /** A text contains every part of a three-part concatenation's middle. */
  lemma ContainsMiddle(pre: string, m: string, post: string)
    ensures Contains(pre + m + post, m)
  {
    var t := pre + m + post;
    assert t[|pre|..|pre| + |m|] == m;
    ContainsWitness(t, m, |pre|);
  }

  /** Where a text and its prefix `u` agree, they have the same first
      occurrence. */
  lemma FirstInPrefix(u: string, t: string, sub: string, i: nat)
    requires |u| <= |t| && u == t[..|u|] && i + |sub| <= |u|
    ensures IndexOfFrom(u, sub, 0) == Some(i) <==> IndexOfFrom(t, sub, 0) == Some(i)
  {
    forall k | 0 <= k <= i ensures OccursAt(u, sub, k) <==> OccursAt(t, sub, k) {
      assert u[k..k + |sub|] == t[k..k + |sub|];
    }
    if IndexOfFrom(u, sub, 0) == Some(i) {
      FirstOccurrence(t, sub, 0, i);
    }
    if IndexOfFrom(t, sub, 0) == Some(i) {
      FirstOccurrence(u, sub, 0, i);
    }
  }

  lemma SliceOfSlice(s: string, lo: nat, hi: nat, m: nat, n: nat)
    requires lo <= hi <= |s| && m <= n <= hi - lo
    ensures s[lo..hi][m..n] == s[lo + m..lo + n]
  {
    forall x | 0 <= x < n - m ensures s[lo..hi][m..n][x] == s[lo + m..lo + n][x] {
      assert s[lo..hi][m..n][x] == s[lo..hi][m + x];
    }
  }

  /** A window of `s` that covers position `p` does not match `sub` when
      the characters at `p` differ. */
  lemma MismatchAt(s: string, sub: string, k: nat, p: nat)
    requires k <= p < k + |sub| <= |s|
    requires s[p] != sub[p - k]
    ensures !OccursAt(s, sub, k)
  {
    assert s[k..k + |sub|][p - k] == s[p];
  }

  // ---------------------------------------------------------------------
  // The marker block of `upsertBlock`

  /** A pair of marker lines around a managed block. */
  datatype Markers = Markers(start: string, end: string)

  /** A text without line breaks. */
  predicate NoNewline(s: string) {
    forall k :: 0 <= k < |s| ==> s[k] != '\n'
  }

  /** Markers that are non-empty single lines. */
  predicate OneLine(mk: Markers) {
    mk.start != [] && mk.end != [] && NoNewline(mk.start) && NoNewline(mk.end)
  }

  /** `MARKER_START` and `MARKER_END`. */
  const BebopMarkers: Markers := Markers("# >>> bebop", "# <<< bebop")

  lemma BebopMarkersOneLine()
    ensures OneLine(BebopMarkers)
  {
  }

  /** `${start}\n${block}\n${end}`. */
  function Marked(mk: Markers, block: string): string {
    mk.start + "\n" + block + "\n" + mk.end
  }

  /** What goes between existing text and an appended block: one newline
      to end the last line when it is unterminated, then a blank line. */
  function Separator(content: string): (r: string)
    ensures forall k :: 0 <= k < |r| ==> r[k] == '\n'
    ensures r != []
  {
    if EndsWith(content, "\n") || |content| == 0 then "\n" else "\n\n"
  }

  /** The span the lazy pattern `start[\s\S]*?end` matches: the first start
      marker and the first end marker after it. */
  function Span(mk: Markers, content: string): (r: Option<(nat, nat)>)
    ensures r.Some? ==> var (i, j) := r.value;
      && IndexOfFrom(content, mk.start, 0) == Some(i)
      && IndexOfFrom(content, mk.end, i + |mk.start|) == Some(j)
      && i + |mk.start| <= j && j + |mk.end| <= |content|
  {
    match IndexOfFrom(content, mk.start, 0)
    case None => None
    case Some(i) => EndSpan(mk, content, i)
  }

  /** The span that starts at `i`: up to the first end marker after the
      start marker there. */
  function EndSpan(mk: Markers, content: string, i: nat): Option<(nat, nat)> {
    match IndexOfFrom(content, mk.end, i + |mk.start|)
    case None => None
    case Some(j) => Some((i, j))
  }

  /** Both markers appear somewhere in the text. */
  predicate HasMarkers(mk: Markers, content: string) {
    Contains(content, mk.start) && Contains(content, mk.end)
  }

  /** `upsertBlock(filePath, block)` on the file's text (`''` when it does
      not exist): with both markers present the first marked span is
      replaced; otherwise the block is appended after a blank line. */
  function Upsert(mk: Markers, content: string, block: string): (r: string)
    ensures !HasMarkers(mk, content) ==> r == content + Separator(content) + Marked(mk, block) + "\n"
    ensures HasMarkers(mk, content) && Span(mk, content).Some? ==>
      r == content[..Span(mk, content).value.0] + Marked(mk, block) + content[Span(mk, content).value.1 + |mk.end|..]
    ensures HasMarkers(mk, content) && Span(mk, content).None? ==> r == content
  {
    if HasMarkers(mk, content) then
      match Span(mk, content)
      case None => content
      case Some((i, j)) => content[..i] + Marked(mk, block) + content[j + |mk.end|..]
    else
      content + Separator(content) + Marked(mk, block) + "\n"
  }

  /** `upsertBlock` with bebop's own markers. */
  function UpsertBlock(content: string, block: string): string {
    Upsert(BebopMarkers, content, block)
  }

  /** The span is read off the two first occurrences. */
  lemma SpanFrom(mk: Markers, t: string, i: nat, j: nat)
    requires IndexOfFrom(t, mk.start, 0) == Some(i)
    requires IndexOfFrom(t, mk.end, i + |mk.start|) == Some(j)
    ensures Span(mk, t) == Some((i, j))
  {
    EndSpanFrom(mk, t, i, j);
  }

  lemma EndSpanFrom(mk: Markers, t: string, i: nat, j: nat)
    requires IndexOfFrom(t, mk.end, i + |mk.start|) == Some(j)
    ensures EndSpan(mk, t, i) == Some((i, j))
  {
  }

  /** The pieces of a marked block, position by position. */
  lemma MarkedPieces(mk: Markers, block: string)
    ensures var m := Marked(mk, block);
      var a := |mk.start|;
      && |m| == a + 2 + |block| + |mk.end|
      && m[..a] == mk.start
      && m[a] == '\n' && m[a + 1..a + 1 + |block|] == block && m[a + 1 + |block|] == '\n'
      && m[a + 2 + |block|..] == mk.end
  {
    assert Marked(mk, block) == mk.start + "\n" + block + "\n" + mk.end;
  }

  /** A text holds the marked block at `i`, and the start marker there is
      the text's first. */
  predicate BlockAt(mk: Markers, t: string, i: nat, block: string) {
    && HoldsAt(mk, t, i, block)
    && IndexOfFrom(t[..i + |mk.start|], mk.start, 0) == Some(i)
  }

  /** A text holds the marked block at `i`. */
  predicate HoldsAt(mk: Markers, t: string, i: nat, block: string) {
    && i + |Marked(mk, block)| <= |t|
    && t[i..i + |Marked(mk, block)|] == Marked(mk, block)
  }

  /** No single-line needle starts on the newline after a start marker or
      inside a block that does not contain it. */
  lemma NotBetween(t: string, block: string, sub: string, a: nat, j: nat, k: nat)
    requires a + 2 + |block| == j <= |t|
    requires t[a] == '\n' && t[j - 1] == '\n' && t[a + 1..j - 1] == block
    requires NoNewline(sub) && !Contains(block, sub)
    requires a <= k < j
    ensures !OccursAt(t, sub, k)
  {
    if k + |sub| > |t| {
    } else if k == a {
      if |sub| > 0 {
        MismatchAt(t, sub, k, k);
      }
    } else if k + |sub| <= j - 1 {
      var m := k - (a + 1);
      assert !OccursAt(block, sub, m);
      SliceOfSlice(t, a + 1, j - 1, m, m + |sub|);
    } else {
      MismatchAt(t, sub, k, j - 1);
    }
  }

  /** So the end marker right after the block is the first one after the
      start marker. */
  lemma EndIsFirst(t: string, block: string, sub: string, a: nat, j: nat)
    requires a + 2 + |block| == j && j + |sub| <= |t|
    requires t[a] == '\n' && t[j - 1] == '\n' && t[a + 1..j - 1] == block
    requires t[j..][..|sub|] == sub
    requires NoNewline(sub) && !Contains(block, sub)
    ensures IndexOfFrom(t, sub, a) == Some(j)
  {
    forall k | a <= k < j ensures !OccursAt(t, sub, k) {
      NotBetween(t, block, sub, a, j, k);
    }
    assert t[j..j + |sub|] == t[j..][..|sub|];
    FirstOccurrence(t, sub, a, j);
  }

  /** The positions of a held block, read off the text. */
  lemma BlockLayout(mk: Markers, t: string, i: nat, block: string)
    requires HoldsAt(mk, t, i, block)
    ensures var a := i + |mk.start|;
      var j := a + 2 + |block|;
      && j + |mk.end| <= |t|
      && t[a] == '\n' && t[j - 1] == '\n' && t[a + 1..j - 1] == block
      && t[j..][..|mk.end|] == mk.end
      && t[i..][..|mk.start|] == mk.start
  {
    var m := Marked(mk, block);
    var a := |mk.start|;
    MarkedPieces(mk, block);
    assert t[i + a] == m[a];
    assert t[i + a + 1 + |block|] == m[a + 1 + |block|];
    SliceOfSlice(t, i, i + |m|, a + 1, a + 1 + |block|);
    assert t[i + a + 2 + |block|..][..|mk.end|] == m[a + 2 + |block|..];
    assert t[i..][..a] == m[..a];
  }

  /** The span of a text that holds the block at `i` is that block. */
  lemma BlockSpan(mk: Markers, t: string, i: nat, block: string)
    requires OneLine(mk) && !Contains(block, mk.end)
    requires BlockAt(mk, t, i, block)
    ensures HasMarkers(mk, t)
    ensures Span(mk, t) == Some((i, i + |mk.start| + 2 + |block|))
  {
    var j := i + |mk.start| + 2 + |block|;
    BlockStartFirst(mk, t, i, block);
    BlockEndFirst(mk, t, i, block);
    SpanFrom(mk, t, i, j);
    SpanHasMarkers(mk, t);
  }

  /** The start marker of a held block is the text's first. */
  lemma BlockStartFirst(mk: Markers, t: string, i: nat, block: string)
    requires BlockAt(mk, t, i, block)
    ensures IndexOfFrom(t, mk.start, 0) == Some(i)
  {
    BlockLayout(mk, t, i, block);
    FirstInPrefix(t[..i + |mk.start|], t, mk.start, i);
  }

  /** The end marker of a held block is the first after its start marker. */
  lemma BlockEndFirst(mk: Markers, t: string, i: nat, block: string)
    requires OneLine(mk) && !Contains(block, mk.end)
    requires HoldsAt(mk, t, i, block)
    ensures IndexOfFrom(t, mk.end, i + |mk.start|) == Some(i + |mk.start| + 2 + |block|)
  {
    BlockLayout(mk, t, i, block);
    EndIsFirst(t, block, mk.end, i + |mk.start|, i + |mk.start| + 2 + |block|);
  }

  /** A text with a span holds both markers. */
  lemma SpanHasMarkers(mk: Markers, t: string)
    requires Span(mk, t).Some?
    ensures HasMarkers(mk, t)
  {
    var (i, j) := Span(mk, t).value;
    ContainsWitness(t, mk.start, i);
    ContainsWitness(t, mk.end, j);
  }

  /** A text is its three consecutive slices. */
  lemma Reassemble(t: string, i: nat, k: nat)
    requires i <= k <= |t|
    ensures t[..i] + t[i..k] + t[k..] == t
  {
  }

  /** Upserting a block into text that already holds it in place changes
      nothing. */
  lemma UpsertFixed(mk: Markers, t: string, i: nat, block: string)
    requires OneLine(mk) && !Contains(block, mk.end)
    requires BlockAt(mk, t, i, block)
    ensures Upsert(mk, t, block) == t
  {
    BlockSpan(mk, t, i, block);
    MarkedPieces(mk, block);
    Reassemble(t, i, i + |Marked(mk, block)|);
  }

  /** Where the upsert puts the block: over the old span, or after the
      separator. */
  function Placed(mk: Markers, content: string): nat {
    if HasMarkers(mk, content) && Span(mk, content).Some? then Span(mk, content).value.0
    else |content| + |Separator(content)|
  }

  /** A text holds the block at `i` when its prefix up to the end of the
      start marker has that marker first, and the block follows. */
  lemma BlockAtOf(mk: Markers, r: string, i: nat, block: string, u: string)
    requires i + |Marked(mk, block)| <= |r| && r[i..i + |Marked(mk, block)|] == Marked(mk, block)
    requires r[..i + |mk.start|] == u && IndexOfFrom(u, mk.start, 0) == Some(i)
    ensures BlockAt(mk, r, i, block)
  {
  }

  /** The first start marker of a text with a span, seen in its prefix. */
  lemma SpanStartPrefix(mk: Markers, content: string, i: nat, j: nat)
    requires Span(mk, content) == Some((i, j))
    ensures i + |mk.start| <= |content| && content[i..i + |mk.start|] == mk.start
    ensures IndexOfFrom(content[..i + |mk.start|], mk.start, 0) == Some(i)
  {
    FirstInPrefix(content[..i + |mk.start|], content, mk.start, i);
  }

  /** The slices of a replacement around the new block. */
  lemma ReplaceSlices(mk: Markers, content: string, block: string, i: nat, j: nat)
    requires i + |mk.start| <= j && j + |mk.end| <= |content| && content[i..i + |mk.start|] == mk.start
    ensures var m := Marked(mk, block);
      var r := content[..i] + m + content[j + |mk.end|..];
      && i + |m| <= |r| && r[i..i + |m|] == m
      && r[..i + |mk.start|] == content[..i + |mk.start|]
  {
    var m := Marked(mk, block);
    var r := content[..i] + m + content[j + |mk.end|..];
    var a := i + |mk.start|;
    MarkedPieces(mk, block);
    assert r[i..i + |m|] == m;
    assert r[..a] == content[..i] + m[..|mk.start|];
    assert content[..a] == content[..i] + content[i..a];
  }

  /** Replacing the first span leaves the block at its start, behind the
      same first start marker. */
  lemma ReplacePlaces(mk: Markers, content: string, block: string, i: nat, j: nat)
    requires Span(mk, content) == Some((i, j))
    ensures BlockAt(mk, content[..i] + Marked(mk, block) + content[j + |mk.end|..], i, block)
  {
    SpanStartPrefix(mk, content, i, j);
    ReplaceSlices(mk, content, block, i, j);
    BlockAtOf(mk, content[..i] + Marked(mk, block) + content[j + |mk.end|..], i, block, content[..i + |mk.start|]);
  }

  /** The slices of an append around the new block. */
  lemma AppendSlices(mk: Markers, content: string, sep: string, block: string)
    ensures var m := Marked(mk, block);
      var r := content + sep + m + "\n";
      var i := |content| + |sep|;
      && i + |m| <= |r| && r[i..i + |m|] == m
      && r[..i + |mk.start|] == content + sep + mk.start
  {
    var m := Marked(mk, block);
    var r := content + sep + m + "\n";
    var i := |content| + |sep|;
    MarkedPieces(mk, block);
    assert r[i..i + |m|] == m;
    assert r[..i + |mk.start|] == content + sep + m[..|mk.start|];
  }

  /** Appending to text without a start marker leaves the block after the
      separator, with its start marker the first. */
  lemma AppendPlaces(mk: Markers, content: string, block: string)
    requires OneLine(mk) && !Contains(content, mk.start)
    ensures BlockAt(mk, content + Separator(content) + Marked(mk, block) + "\n", |content| + |Separator(content)|, block)
  {
    var sep := Separator(content);
    AppendedIsFirst(content, sep, mk.start);
    AppendSlices(mk, content, sep, block);
    BlockAtOf(mk, content + sep + Marked(mk, block) + "\n", |content| + |sep|, block, content + sep + mk.start);
  }

  /** A second upsert after a replacement keeps the text. */
  lemma TwiceReplace(mk: Markers, content: string, block: string, i: nat, j: nat)
    requires OneLine(mk) && !Contains(block, mk.end)
    requires HasMarkers(mk, content) && Span(mk, content) == Some((i, j))
    ensures Upsert(mk, Upsert(mk, content, block), block) == Upsert(mk, content, block)
  {
    var r := content[..i] + Marked(mk, block) + content[j + |mk.end|..];
    UpsertReplaces(mk, content, block, i, j);
    ReplacePlaces(mk, content, block, i, j);
    UpsertFixed(mk, r, i, block);
  }

  lemma UpsertReplaces(mk: Markers, content: string, block: string, i: nat, j: nat)
    requires HasMarkers(mk, content) && Span(mk, content) == Some((i, j))
    ensures Upsert(mk, content, block) == content[..i] + Marked(mk, block) + content[j + |mk.end|..]
  {
  }

  /** A second upsert after an append keeps the text. */
  lemma TwiceAppend(mk: Markers, content: string, block: string)
    requires OneLine(mk) && !Contains(block, mk.end)
    requires !Contains(content, mk.start)
    ensures Upsert(mk, Upsert(mk, content, block), block) == Upsert(mk, content, block)
  {
    var r := content + Separator(content) + Marked(mk, block) + "\n";
    AppendPlaces(mk, content, block);
    UpsertFixed(mk, r, |content| + |Separator(content)|, block);
  }

  /** Running the upsert twice with the same block leaves what one run
      left, whenever the block holds no end marker and the text does not
      hold a start marker without an end marker. */
  lemma UpsertTwice(mk: Markers, content: string, block: string)
    requires OneLine(mk)
    requires !Contains(block, mk.end)
    requires Contains(content, mk.start) ==> Contains(content, mk.end)
    ensures Upsert(mk, Upsert(mk, content, block), block) == Upsert(mk, content, block)
  {
    if HasMarkers(mk, content) {
      match Span(mk, content)
      case None =>
      case Some((i, j)) => TwiceReplace(mk, content, block, i, j);
    } else {
      TwiceAppend(mk, content, block);
    }
  }

  /** `upsertBlock` is idempotent: re-running `init` leaves the start-up
      files as the first run left them. */
  lemma UpsertIdempotent(content: string, block: string)
    requires !Contains(block, BebopMarkers.end)
    requires Contains(content, BebopMarkers.start) ==> Contains(content, BebopMarkers.end)
    ensures UpsertBlock(UpsertBlock(content, block), block) == UpsertBlock(content, block)
  {
    BebopMarkersOneLine();
    UpsertTwice(BebopMarkers, content, block);
  }

  /** A single-line needle absent from a text is first found after a run
      of newlines appended to it. */
  lemma AppendedIsFirst(content: string, sep: string, sub: string)
    requires !Contains(content, sub) && NoNewline(sub) && sub != []
    requires sep != [] && forall k :: 0 <= k < |sep| ==> sep[k] == '\n'
    ensures IndexOfFrom(content + sep + sub, sub, 0) == Some(|content + sep|)
  {
    var u := content + sep + sub;
    var n := |content|;
    forall k | 0 <= k < n + |sep| ensures !OccursAt(u, sub, k) {
      if k + |sub| > |u| {
      } else if k + |sub| <= n {
        assert !OccursAt(content, sub, k);
        assert u[..n] == content;
        SliceOfSlice(u, 0, n, k, k + |sub|);
      } else if k < n {
        assert u[n] == sep[0];
        MismatchAt(u, sub, k, n);
      } else {
        assert u[k] == sep[k - n];
        MismatchAt(u, sub, k, k);
      }
    }
    assert u[n + |sep|..] == sub;
    FirstOccurrence(u, sub, 0, n + |sep|);
  }

  /** After an upsert that found no complete span, or that replaced one,
      the file holds the marked block, behind its first start marker. */
  lemma UpsertInstalls(content: string, block: string)
    requires Contains(content, BebopMarkers.start) ==> Contains(content, BebopMarkers.end)
    requires HasMarkers(BebopMarkers, content) ==> Span(BebopMarkers, content).Some?
    ensures BlockAt(BebopMarkers, UpsertBlock(content, block), Placed(BebopMarkers, content), block)
    ensures Contains(UpsertBlock(content, block), Marked(BebopMarkers, block))
  {
    BebopMarkersOneLine();
    UpsertPlaces(BebopMarkers, content, block);
  }

  /** `UpsertInstalls` for any single-line markers. */
  lemma UpsertPlaces(mk: Markers, content: string, block: string)
    requires OneLine(mk)
    requires Contains(content, mk.start) ==> Contains(content, mk.end)
    requires HasMarkers(mk, content) ==> Span(mk, content).Some?
    ensures BlockAt(mk, Upsert(mk, content, block), Placed(mk, content), block)
    ensures Contains(Upsert(mk, content, block), Marked(mk, block))
  {
    var m := Marked(mk, block);
    if HasMarkers(mk, content) {
      var (i, j) := Span(mk, content).value;
      var r := content[..i] + m + content[j + |mk.end|..];
      assert Upsert(mk, content, block) == r && Placed(mk, content) == i;
      ReplacePlaces(mk, content, block, i, j);
      ContainsWitness(r, m, i);
    } else {
      var r := content + Separator(content) + m + "\n";
      var i := |content| + |Separator(content)|;
      assert Upsert(mk, content, block) == r && Placed(mk, content) == i;
      AppendPlaces(mk, content, block);
      ContainsWitness(r, m, i);
    }
  }
}
