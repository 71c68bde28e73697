/** Generic sequence helpers standing for the pandas and SQL operations the
    core uses: boolean masks, distinct keys, sums, maxima and argmax. */
module Collections {

  /** The elements of `s` that satisfy `p`, in their original order
      (a pandas boolean mask or an SQL WHERE clause). */
  function Filter<T(==, !new)>(s: seq<T>, p: T -> bool): (r: seq<T>)
    ensures |r| <= |s|
    ensures forall x :: x in r <==> x in s && p(x)
  {
    if |s| == 0 then []
    else (if p(s[0]) then [s[0]] else []) + Filter(s[1..], p)
  }

  /** One step of `Filter` on the suffix of `s` from position `k`. */
  lemma FilterFrom<T(!new)>(s: seq<T>, p: T -> bool, k: nat)
    requires k < |s|
    ensures Filter(s[k..], p) == (if p(s[k]) then [s[k]] else []) + Filter(s[k + 1..], p)
  {
    assert s[k..][1..] == s[k + 1..];
  }

  /** Filtering keeps every element that passes as often as it occurs, and
      drops the others. */
  lemma {:induction false} FilterMultiset<T(!new)>(s: seq<T>, p: T -> bool, x: T)
    ensures multiset(Filter(s, p))[x] == if p(x) then multiset(s)[x] else 0
  {
    if |s| > 0 {
      assert s == [s[0]] + s[1..];
      FilterMultiset(s[1..], p, x);
    }
  }

  /** Filtering distributes over concatenation. */
  lemma {:induction false} FilterAppend<T(!new)>(a: seq<T>, b: seq<T>, p: T -> bool)
    ensures Filter(a + b, p) == Filter(a, p) + Filter(b, p)
  {
    if |a| > 0 {
      assert (a + b)[1..] == a[1..] + b;
      FilterAppend(a[1..], b, p);
    } else {
      assert a + b == b;
    }
  }

  /** Filtering twice by the same predicate is filtering once. */
  lemma {:induction false} FilterIdempotent<T(!new)>(s: seq<T>, p: T -> bool)
    ensures Filter(Filter(s, p), p) == Filter(s, p)
  {
    if |s| > 0 {
      var head := if p(s[0]) then [s[0]] else [];
      FilterAppend(head, Filter(s[1..], p), p);
      FilterIdempotent(s[1..], p);
      assert Filter(head, p) == head by {
        if p(s[0]) {
          assert head[1..] == [];
        }
      }
    }
  }

  /** Nothing passes a filter that no element satisfies. */
  lemma FilterNone<T(!new)>(s: seq<T>, p: T -> bool)
    requires forall x :: x in s ==> !p(x)
    ensures Filter(s, p) == []
  {
  }

  predicate NoDuplicates<T(==)>(s: seq<T>) {
    forall i, j :: 0 <= i < j < |s| ==> s[i] != s[j]
  }

  /** The distinct elements of `s`, each once, in order of first appearance
      (the keys of a pandas groupby, or SELECT DISTINCT). */
  function Distinct<T(==, !new)>(s: seq<T>): (r: seq<T>)
    ensures forall x :: x in r <==> x in s
    ensures NoDuplicates(r)
    ensures |r| <= |s|
  {
    if |s| == 0 then []
    else
      var rest := Distinct(s[..|s| - 1]);
      assert forall x :: x in s <==> x in s[..|s| - 1] || x == s[|s| - 1] by {
        assert s == s[..|s| - 1] + [s[|s| - 1]];
      }
      if s[|s| - 1] in rest then rest else rest + [s[|s| - 1]]
  }

  function Sum(s: seq<real>): real {
    if |s| == 0 then 0.0 else s[0] + Sum(s[1..])
  }

  /** The values `f(x)` for the elements `x` of `s`. */
  function MapSeq<T, U>(s: seq<T>, f: T -> U): (r: seq<U>)
    ensures |r| == |s|
    ensures forall i :: 0 <= i < |s| ==> r[i] == f(s[i])
  {
    seq(|s|, i requires 0 <= i < |s| => f(s[i]))
  }

  /** Mapping distributes over concatenation. */
  lemma MapSeqAppend<T, U>(a: seq<T>, b: seq<T>, f: T -> U)
    ensures MapSeq(a + b, f) == MapSeq(a, f) + MapSeq(b, f)
  {
    assert forall i :: 0 <= i < |a| ==> (a + b)[i] == a[i];
    assert forall i :: |a| <= i < |a| + |b| ==> (a + b)[i] == b[i - |a|];
  }

  /** After filtering by `p` and mapping by `f`, a value `v` occurs once for
      every element that passes `p` and maps to `v`, here given as `q`. */
  lemma {:induction false} MapFilterCount<T(!new), U>(s: seq<T>, p: T -> bool, f: T -> U, q: T -> bool, v: U)
    requires forall x :: q(x) == (p(x) && f(x) == v)
    ensures multiset(MapSeq(Filter(s, p), f))[v] == |Filter(s, q)|
  {
    if |s| > 0 {
      var head := if p(s[0]) then [s[0]] else [];
      MapFilterCount(s[1..], p, f, q, v);
      MapSeqAppend(head, Filter(s[1..], p), f);
      assert multiset(MapSeq(head, f))[v] == if q(s[0]) then 1 else 0 by {
        if p(s[0]) {
          assert MapSeq(head, f) == [f(s[0])];
        } else {
          assert MapSeq(head, f) == [];
        }
      }
    }
  }

  /** The arithmetic mean of `s`; pandas never takes the mean of an empty
      group, and the value there is irrelevant. */
  function Mean(s: seq<real>): real {
    if |s| == 0 then 0.0 else Sum(s) / (|s| as real)
  }

  /** The largest score of an element of a non-empty `s`. */
  function MaxScore<T>(s: seq<T>, score: T -> real): (m: real)
    requires |s| > 0
    ensures exists i :: 0 <= i < |s| && score(s[i]) == m
    ensures forall i :: 0 <= i < |s| ==> score(s[i]) <= m
  {
    if |s| == 1 then score(s[0])
    else
      var rest := MaxScore(s[1..], score);
      assert forall i :: 1 <= i < |s| ==> s[i] == s[1..][i - 1];
      if score(s[0]) >= rest then score(s[0]) else rest
  }

  /** `x` is an element of `s` with the largest score. */
  predicate IsMaximal<T(==)>(s: seq<T>, score: T -> real, x: T) {
    x in s && forall y :: y in s ==> score(y) <= score(x)
  }

  /** The elements of `s` whose score is the maximum. */
  function Maximizers<T(==, !new)>(s: seq<T>, score: T -> real): (c: seq<T>)
    requires |s| > 0
    ensures |c| > 0
    ensures forall x :: x in c <==> IsMaximal(s, score, x)
  {
    var m := MaxScore(s, score);
    var c := Filter(s, x => score(x) == m);
    assert forall x :: IsMaximal(s, score, x) ==> score(x) == m by {
      forall x | IsMaximal(s, score, x)
        ensures score(x) == m
      {
        var i :| 0 <= i < |s| && score(s[i]) == m;
        assert s[i] in s;
      }
    }
    var i :| 0 <= i < |s| && score(s[i]) == m;
    assert s[i] in c;
    c
  }

  /** A maximizer of `score` over `s`, chosen by `tieBreak`: the shuffled
      order of pandas' shuffle made a parameter. */
  function ArgmaxPick<T(==, !new)>(s: seq<T>, score: T -> real, tieBreak: nat): (x: T)
    requires |s| > 0
    ensures IsMaximal(s, score, x)
  {
    var c := Maximizers(s, score);
    var k := if tieBreak < |c| then tieBreak else 0;
    assert c[k] in c;
    c[k]
  }

  /** Every maximizer is the pick for some tie-break: the random shuffle can
      make any of them the winner. */
  lemma ArgmaxPickReachesEveryMaximizer<T(!new)>(s: seq<T>, score: T -> real, x: T)
    requires IsMaximal(s, score, x)
    ensures exists t: nat :: ArgmaxPick(s, score, t) == x
  {
    var c := Maximizers(s, score);
    assert x in c;
    var i: nat :| i < |c| && c[i] == x;
    assert ArgmaxPick(s, score, i) == c[i];
  }

  /** When exactly one element attains the maximum, every tie-break picks it. */
  lemma ArgmaxPickUnique<T(!new)>(s: seq<T>, score: T -> real, x: T, tieBreak: nat)
    requires x in s
    requires forall y :: y in s && y != x ==> score(y) < score(x)
    ensures ArgmaxPick(s, score, tieBreak) == x
  {
  }
}
