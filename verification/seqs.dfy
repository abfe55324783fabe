/** Generic sequence facts shared by the fetchers and the dispatcher. */
module Seqs {
  import opened Wrappers

  /** `a` is obtained from `b` by deleting elements, keeping the order of
      the rest. */
  predicate Subsequence<T(==)>(a: seq<T>, b: seq<T>)
    decreases |b|
  {
    if |a| == 0 then true
    else if |b| == 0 then false
    else (a[0] == b[0] && Subsequence(a[1..], b[1..])) || Subsequence(a, b[1..])
  }

  /** Every sequence is a subsequence of itself. */
  lemma {:induction false} SubsequenceRefl<T>(a: seq<T>)
    ensures Subsequence(a, a)
    decreases |a|
  {
    if |a| > 0 {
      SubsequenceRefl(a[1..]);
    }
  }

  /** Keeping the head of both sides preserves the relation. */
  lemma SubsequenceCons<T>(x: T, a: seq<T>, b: seq<T>)
    requires Subsequence(a, b)
    ensures Subsequence([x] + a, [x] + b)
  {
    assert ([x] + a)[1..] == a;
    assert ([x] + b)[1..] == b;
  }

  /** Dropping the head of the longer side preserves the relation. */
  lemma SubsequenceSkip<T>(x: T, a: seq<T>, b: seq<T>)
    requires Subsequence(a, b)
    ensures Subsequence(a, [x] + b)
  {
    assert ([x] + b)[1..] == b;
  }

  /** A subsequence is never longer than the sequence it comes from. */
  lemma {:induction false} SubsequenceLength<T>(a: seq<T>, b: seq<T>)
    requires Subsequence(a, b)
    ensures |a| <= |b|
    decreases |b|
  {
    if |a| > 0 {
      if a[0] == b[0] && Subsequence(a[1..], b[1..]) {
        SubsequenceLength(a[1..], b[1..]);
      } else {
        SubsequenceLength(a, b[1..]);
      }
    }
  }

  /** Every element of a subsequence occurs in the original. */
  lemma {:induction false} SubsequenceMembers<T>(a: seq<T>, b: seq<T>, x: T)
    requires Subsequence(a, b)
    requires x in a
    ensures x in b
    decreases |b|
  {
    if a[0] == b[0] && Subsequence(a[1..], b[1..]) {
      if x != a[0] {
        SubsequenceMembers(a[1..], b[1..], x);
      }
    } else {
      SubsequenceMembers(a, b[1..], x);
    }
  }

  /** The number of elements Python's `s[:n]` keeps: a non-negative `n`
      keeps at most `n`, a negative `n` drops the last `-n`. */
  function PrefixLength(len: nat, n: int): (k: nat)
    ensures k <= len
    ensures 0 <= n ==> k == (if n < len then n else len)
    ensures n < 0 ==> k == (if len + n < 0 then 0 else len + n)
  {
    if 0 <= n then (if n < len then n else len)
    else if len + n < 0 then 0
    else len + n
  }

  /** Python's slice `s[:n]`. */
  function PyPrefix<T>(s: seq<T>, n: int): (r: seq<T>)
    ensures |r| == PrefixLength(|s|, n)
    ensures r == s[..|r|]
  {
    s[..PrefixLength(|s|, n)]
  }

  /** The elements of `s` that satisfy `keep`, in their original order. */
  function Filter<T>(s: seq<T>, keep: T -> bool): (r: seq<T>)
    ensures |r| <= |s|
    ensures forall k :: 0 <= k < |r| ==> keep(r[k])
    decreases |s|
  {
    if |s| == 0 then []
    else if keep(s[0]) then [s[0]] + Filter(s[1..], keep)
    else Filter(s[1..], keep)
  }

  /** Filtering distributes over concatenation. */
  lemma {:induction false} FilterAppend<T>(s: seq<T>, t: seq<T>, keep: T -> bool)
    ensures Filter(s + t, keep) == Filter(s, keep) + Filter(t, keep)
    decreases |s|
  {
    if |s| == 0 {
      assert s + t == t;
    } else {
      assert (s + t)[0] == s[0];
      assert (s + t)[1..] == s[1..] + t;
      FilterAppend(s[1..], t, keep);
    }
  }

  /** A filtered sequence keeps the order of the original, and holds
      exactly the original's elements that satisfy the predicate. */
  lemma {:induction false} FilterSpec<T>(s: seq<T>, keep: T -> bool)
    ensures Subsequence(Filter(s, keep), s)
    ensures forall x :: x in Filter(s, keep) <==> x in s && keep(x)
    decreases |s|
  {
    if |s| > 0 {
      FilterSpec(s[1..], keep);
      var rest := Filter(s[1..], keep);
      assert s == [s[0]] + s[1..];
      if keep(s[0]) {
        SubsequenceCons(s[0], rest, s[1..]);
      } else {
        SubsequenceSkip(s[0], rest, s[1..]);
      }
    }
  }

  /** The values `f` yields for the elements of `s`, in order, skipping
      the elements it yields nothing for. */
  function FilterMap<A, B>(s: seq<A>, f: A -> Option<B>): (r: seq<B>)
    ensures |r| <= |s|
    decreases |s|
  {
    if |s| == 0 then []
    else
      var rest := FilterMap(s[1..], f);
      match f(s[0])
      case Some(b) => [b] + rest
      case None => rest
  }

  /** The values of a concatenation are the values of each part, in
      turn. */
  lemma {:induction false} FilterMapAppend<A, B>(s: seq<A>, t: seq<A>, f: A -> Option<B>)
    ensures FilterMap(s + t, f) == FilterMap(s, f) + FilterMap(t, f)
    decreases |s|
  {
    if |s| == 0 {
      assert s + t == t;
    } else {
      assert (s + t)[0] == s[0];
      assert (s + t)[1..] == s[1..] + t;
      FilterMapAppend(s[1..], t, f);
    }
  }

  /** One more element adds at most its own value, at the end. */
  lemma FilterMapSnoc<A, B>(s: seq<A>, i: nat, f: A -> Option<B>)
    requires i < |s|
    ensures FilterMap(s[..i + 1], f)
            == FilterMap(s[..i], f) + (if f(s[i]).Some? then [f(s[i]).value] else [])
  {
    assert s[..i + 1] == s[..i] + [s[i]];
    FilterMapAppend(s[..i], [s[i]], f);
    assert [s[i]][1..] == [];
  }

  /** The values of a prefix are a prefix of the values of the whole. */
  lemma FilterMapPrefix<A, B>(s: seq<A>, i: nat, f: A -> Option<B>)
    requires i <= |s|
    ensures |FilterMap(s[..i], f)| <= |FilterMap(s, f)|
    ensures FilterMap(s, f)[..|FilterMap(s[..i], f)|] == FilterMap(s[..i], f)
  {
    assert s == s[..i] + s[i..];
    FilterMapAppend(s[..i], s[i..], f);
  }

  /** Every value is the one `f` yields for some element. */
  lemma {:induction false} FilterMapSources<A, B>(s: seq<A>, f: A -> Option<B>)
    ensures forall b :: b in FilterMap(s, f) ==> exists k :: 0 <= k < |s| && f(s[k]) == Some(b)
    decreases |s|
  {
    if |s| > 0 {
      FilterMapSources(s[1..], f);
      forall b | b in FilterMap(s[1..], f)
        ensures exists k :: 0 <= k < |s| && f(s[k]) == Some(b)
      {
        var k :| 0 <= k < |s[1..]| && f(s[1..][k]) == Some(b);
        assert s[1..][k] == s[k + 1];
      }
    }
  }

  /** When `f` yields a value exactly for the elements satisfying `keep`,
      the values line up with the kept elements: one value per kept
      element, each the one `f` yields for it. */
  lemma {:induction false} FilterMapOfFilter<A, B>(s: seq<A>, f: A -> Option<B>, keep: A -> bool)
    requires forall k :: 0 <= k < |s| ==> (f(s[k]).Some? <==> keep(s[k]))
    ensures |FilterMap(s, f)| == |Filter(s, keep)|
    ensures forall k :: 0 <= k < |FilterMap(s, f)| ==> f(Filter(s, keep)[k]) == Some(FilterMap(s, f)[k])
    decreases |s|
  {
    if |s| > 0 {
      var x, rest := s[0], s[1..];
      assert forall k :: 0 <= k < |rest| ==> rest[k] == s[k + 1];
      FilterMapOfFilter(rest, f, keep);
      var vs, ks := FilterMap(rest, f), Filter(rest, keep);
      if keep(x) {
        var b := f(x).value;
        assert FilterMap(s, f) == [b] + vs;
        assert Filter(s, keep) == [x] + ks;
        forall k | 0 <= k < |vs| + 1
          ensures f(([x] + ks)[k]) == Some(([b] + vs)[k])
        {
          if k > 0 {
            assert ([x] + ks)[k] == ks[k - 1];
            assert ([b] + vs)[k] == vs[k - 1];
          }
        }
      } else {
        assert FilterMap(s, f) == vs;
        assert Filter(s, keep) == ks;
      }
    }
  }
}
