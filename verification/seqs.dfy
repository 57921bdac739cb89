/** Sequence vocabulary: subsequences, duplicate-freedom and the JavaScript
    `Set` as an insertion-ordered, duplicate-free sequence. */
module Seqs {
  import opened Wrappers

  /** Concatenation regroups freely. */
  lemma AppendAssoc<T>(a: seq<T>, b: seq<T>, c: seq<T>)
    ensures a + b + c == a + (b + c)
  {
  }

  /** `a` is obtained from `b` by deleting elements (order kept). */
  ghost predicate IsSubseq<T>(a: seq<T>, b: seq<T>)
    decreases |b|
  {
    a == [] || (b != [] && ((a[0] == b[0] && IsSubseq(a[1..], b[1..])) || IsSubseq(a, b[1..])))
  }

  lemma SubseqCons<T>(x: T, a: seq<T>, b: seq<T>)
    requires IsSubseq(a, b)
    ensures IsSubseq([x] + a, [x] + b)
  {
    assert ([x] + a)[1..] == a;
    assert ([x] + b)[1..] == b;
  }

  lemma SubseqSkip<T>(x: T, a: seq<T>, b: seq<T>)
    requires IsSubseq(a, b)
    ensures IsSubseq(a, [x] + b)
  {
    assert ([x] + b)[1..] == b;
  }

  lemma {:induction false} SubseqPrefixBoth<T>(u: seq<T>, a: seq<T>, b: seq<T>)
    requires IsSubseq(a, b)
    ensures IsSubseq(u + a, u + b)
    decreases |u|
  {
    if u != [] {
      SubseqPrefixBoth(u[1..], a, b);
      SubseqCons(u[0], u[1..] + a, u[1..] + b);
      assert [u[0]] + (u[1..] + a) == u + a;
      assert [u[0]] + (u[1..] + b) == u + b;
    } else {
      assert u + a == a && u + b == b;
    }
  }

  lemma {:induction false} SubseqPrefixRight<T>(u: seq<T>, a: seq<T>, b: seq<T>)
    requires IsSubseq(a, b)
    ensures IsSubseq(a, u + b)
    decreases |u|
  {
    if u != [] {
      SubseqPrefixRight(u[1..], a, b);
      SubseqSkip(u[0], a, u[1..] + b);
      assert [u[0]] + (u[1..] + b) == u + b;
    } else {
      assert u + b == b;
    }
  }

  lemma {:induction false} SubseqRefl<T>(a: seq<T>)
    ensures IsSubseq(a, a)
    decreases |a|
  {
    if a != [] {
      SubseqRefl(a[1..]);
    }
  }

  /** Every element of a subsequence occurs in the original. */
  lemma {:induction false} SubseqElements<T>(a: seq<T>, b: seq<T>)
    requires IsSubseq(a, b)
    ensures forall x :: x in a ==> x in b
    decreases |b|
  {
    if a != [] {
      if a[0] == b[0] && IsSubseq(a[1..], b[1..]) {
        SubseqElements(a[1..], b[1..]);
        forall x | x in a ensures x in b {
          if x != a[0] {
            assert x in a[1..];
          }
        }
      } else {
        SubseqElements(a, b[1..]);
      }
    }
  }

  predicate NoDups<T(==)>(s: seq<T>) {
    forall i, j :: 0 <= i < j < |s| ==> s[i] != s[j]
  }

  /** `set.add(x)` on an insertion-ordered set. */
  function Add<T(==,!new)>(s: seq<T>, x: T): (r: seq<T>)
    ensures NoDups(s) ==> NoDups(r)
    ensures x in r
    ensures forall y :: y in r <==> y in s || y == x
  {
    if x in s then s else s + [x]
  }

  /** `set.delete(x)` on an insertion-ordered set. */
  function Remove<T(==,!new)>(s: seq<T>, x: T): (r: seq<T>)
    ensures x !in r
    ensures forall y :: y in r <==> y in s && y != x
    ensures NoDups(s) ==> NoDups(r)
    ensures |r| <= |s|
  {
    if s == [] then []
    else if s[0] == x then Remove(s[1..], x)
    else
      var rest := Remove(s[1..], x);
      assert NoDups(s) ==> s[0] !in s[1..];
      [s[0]] + rest
  }

  /** `Array.from(new Set(xs))`: first occurrences, in order. */
  function Dedup<T(==,!new)>(xs: seq<T>): (r: seq<T>)
    ensures NoDups(r)
    ensures forall y :: y in r <==> y in xs
  {
    AddAll([], xs)
  }

  /** `for (x of xs) set.add(x)` on an insertion-ordered set. */
  function AddAll<T(==,!new)>(s: seq<T>, xs: seq<T>): (r: seq<T>)
    ensures NoDups(s) ==> NoDups(r)
    ensures forall y :: y in r <==> y in s || y in xs
    ensures |s| <= |r| && r[..|s|] == s
    decreases |xs|
  {
    if xs == [] then s
    else
      var s1 := Add(s, xs[0]);
      var r := AddAll(s1, xs[1..]);
      assert r[..|s|] == r[..|s1|][..|s|];
      r
  }

  /** What `AddAll` appends comes from the added batch. */
  lemma {:induction false} AddAllTail<T(!new)>(s: seq<T>, xs: seq<T>)
    ensures forall k :: |s| <= k < |AddAll(s, xs)| ==> AddAll(s, xs)[k] in xs
    decreases |xs|
  {
    if xs != [] {
      var s1 := Add(s, xs[0]);
      var r := AddAll(s1, xs[1..]);
      AddAllTail(s1, xs[1..]);
      forall k | |s| <= k < |r| ensures r[k] in xs {
        if k < |s1| {
          assert r[k] == r[..|s1|][k] == s1[k] == xs[0];
        } else {
          assert r[k] in xs[1..];
        }
      }
    }
  }

  /** Adding two batches one after the other is adding their concatenation. */
  lemma {:induction false} AddAllAppend<T(!new)>(s: seq<T>, a: seq<T>, b: seq<T>)
    ensures AddAll(AddAll(s, a), b) == AddAll(s, a + b)
    decreases |a|
  {
    if a != [] {
      assert (a + b)[0] == a[0];
      assert (a + b)[1..] == a[1..] + b;
      AddAllAppend(Add(s, a[0]), a[1..], b);
    } else {
      assert a + b == b;
    }
  }

  /** The elements of `xs` that satisfy `p`, in their order (the
      JavaScript `xs.filter(p)`). */
  function Keep<T>(xs: seq<T>, p: T -> bool): (r: seq<T>)
    ensures |r| <= |xs|
    ensures forall k :: 0 <= k < |r| ==> p(r[k])
    decreases |xs|
  {
    if xs == [] then [] else (if p(xs[0]) then [xs[0]] else []) + Keep(xs[1..], p)
  }

  /** Filtering twice by the same test filters once. */
  lemma {:induction false} KeepIdempotent<T>(xs: seq<T>, p: T -> bool)
    ensures Keep(Keep(xs, p), p) == Keep(xs, p)
    decreases |xs|
  {
    if xs != [] {
      KeepIdempotent(xs[1..], p);
      var rest := Keep(xs[1..], p);
      if p(xs[0]) {
        assert ([xs[0]] + rest)[0] == xs[0] && ([xs[0]] + rest)[1..] == rest;
        assert Keep([xs[0]] + rest, p) == [xs[0]] + Keep(rest, p);
      } else {
        assert Keep(xs, p) == rest;
      }
    }
  }

  /** A filter keeps exactly the elements that pass, in order. */
  lemma {:induction false} KeepMembers<T>(xs: seq<T>, p: T -> bool)
    ensures forall x :: x in Keep(xs, p) <==> x in xs && p(x)
    ensures IsSubseq(Keep(xs, p), xs)
    decreases |xs|
  {
    if xs != [] {
      KeepMembers(xs[1..], p);
      assert xs == [xs[0]] + xs[1..];
      if p(xs[0]) {
        SubseqCons(xs[0], Keep(xs[1..], p), xs[1..]);
      } else {
        assert Keep(xs, p) == Keep(xs[1..], p);
        SubseqSkip(xs[0], Keep(xs[1..], p), xs[1..]);
      }
    }
  }

  /** Some element of `xs` is mapped to `y` by `f`. */
  ghost predicate Produced<A, B>(xs: seq<A>, f: A -> Option<B>, y: B) {
    exists i :: 0 <= i < |xs| && f(xs[i]) == Some(y)
  }

  /** The defined images of `xs` under `f`, in order. */
  function FilterMap<A, B>(xs: seq<A>, f: A -> Option<B>): (r: seq<B>)
    ensures forall i :: 0 <= i < |xs| && f(xs[i]).Some? ==> f(xs[i]).value in r
    ensures forall k :: 0 <= k < |r| ==> Produced(xs, f, r[k])
    decreases |xs|
  {
    if xs == [] then []
    else
      var rest := FilterMap(xs[1..], f);
      assert forall k :: 0 <= k < |rest| ==> Produced(xs, f, rest[k]) by {
        forall k | 0 <= k < |rest| ensures Produced(xs, f, rest[k]) {
          var i :| 0 <= i < |xs[1..]| && f(xs[1..][i]) == Some(rest[k]);
          assert f(xs[i + 1]) == Some(rest[k]);
        }
      }
      match f(xs[0])
      case Some(y) => [y] + rest
      case None => rest
  }

  /** When `f` is defined exactly where `p` holds, `FilterMap` is `f` applied
      to `Keep(xs, p)`, element by element. */
  lemma {:induction false} FilterMapIsKeep<A, B>(xs: seq<A>, f: A -> Option<B>, p: A -> bool)
    requires forall x :: f(x).Some? <==> p(x)
    ensures |FilterMap(xs, f)| == |Keep(xs, p)|
    ensures forall k :: 0 <= k < |Keep(xs, p)| ==> f(Keep(xs, p)[k]) == Some(FilterMap(xs, f)[k])
    decreases |xs|
  {
    if xs != [] {
      FilterMapIsKeep(xs[1..], f, p);
    }
  }

  /** A subsequence of a duplicate-free sequence is duplicate-free. */
  lemma {:induction false} SubseqNoDups<T>(a: seq<T>, b: seq<T>)
    requires IsSubseq(a, b) && NoDups(b)
    ensures NoDups(a)
    decreases |b|
  {
    if a != [] {
      if a[0] == b[0] && IsSubseq(a[1..], b[1..]) {
        SubseqNoDups(a[1..], b[1..]);
        SubseqElements(a[1..], b[1..]);
        assert b[0] !in b[1..];
        forall i, j | 0 <= i < j < |a| ensures a[i] != a[j] {
          if i == 0 {
            assert a[j] == a[1..][j - 1];
          } else {
            assert a[i] == a[1..][i - 1] && a[j] == a[1..][j - 1];
          }
        }
      } else {
        SubseqNoDups(a, b[1..]);
      }
    }
  }
}
