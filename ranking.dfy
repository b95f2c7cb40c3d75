/** `results.sort(key=lambda x: x.views, reverse=True)` followed by
    `results[:10]`. Python's sort is stable, also with `reverse=True`: posts
    with equal views stay in the order they were appended. */
module Ranking {
  import opened Posts

  /** How many posts the activity keeps. */
  const TopCount: nat := 10

  /** Ordered by views, largest first (non-increasing). */
  predicate ByViewsDescending(s: seq<TemporalCommunityPosts>) {
    forall i, j :: 0 <= i < j < |s| ==> s[i].views >= s[j].views
  }

  /** The posts of `s` with exactly `v` views, in their order in `s`. */
  function WithViews(s: seq<TemporalCommunityPosts>, v: int): seq<TemporalCommunityPosts> {
    if s == [] then []
    else WithViews(s[..|s| - 1], v) + (if s[|s| - 1].views == v then [s[|s| - 1]] else [])
  }

  /** Stable: every group of equally viewed posts keeps its relative order. */
  ghost predicate KeepsTies(r: seq<TemporalCommunityPosts>, s: seq<TemporalCommunityPosts>) {
    forall v :: WithViews(r, v) == WithViews(s, v)
  }

  /** Places `x` behind every post of `t` with at least as many views. */
  function InsertByViews(t: seq<TemporalCommunityPosts>, x: TemporalCommunityPosts): (r: seq<TemporalCommunityPosts>)
    ensures |r| == |t| + 1
  {
    if t == [] || t[|t| - 1].views >= x.views then t + [x]
    else InsertByViews(t[..|t| - 1], x) + [t[|t| - 1]]
  }

  /** Stable descending sort by views, one post at a time from the left. */
  function SortByViews(s: seq<TemporalCommunityPosts>): (r: seq<TemporalCommunityPosts>)
    ensures |r| == |s|
  {
    if s == [] then [] else InsertByViews(SortByViews(s[..|s| - 1]), s[|s| - 1])
  }

  /** The first `TopCount` posts, or all of them when there are fewer. */
  function Take(s: seq<TemporalCommunityPosts>, k: nat): (r: seq<TemporalCommunityPosts>)
    ensures |r| == if |s| < k then |s| else k
    ensures r == s[..|r|]
  {
    if |s| < k then s else s[..k]
  }

  // ---- what the sort keeps -------------------------------------------------

  lemma {:induction false} WithViewsAppend(a: seq<TemporalCommunityPosts>, b: seq<TemporalCommunityPosts>, v: int)
    ensures WithViews(a + b, v) == WithViews(a, v) + WithViews(b, v)
  {
    if b != [] {
      var ab := a + b;
      assert ab[..|ab| - 1] == a + b[..|b| - 1];
      WithViewsAppend(a, b[..|b| - 1], v);
    } else {
      assert a + b == a;
    }
  }

  lemma WithViewsOne(x: TemporalCommunityPosts, v: int)
    ensures WithViews([x], v) == if x.views == v then [x] else []
  {
    assert [x][..0] == [];
  }

  lemma {:induction false} InsertKeepsContents(t: seq<TemporalCommunityPosts>, x: TemporalCommunityPosts)
    ensures multiset(InsertByViews(t, x)) == multiset(t) + multiset{x}
  {
    if !(t == [] || t[|t| - 1].views >= x.views) {
      InsertKeepsContents(t[..|t| - 1], x);
      assert t == t[..|t| - 1] + [t[|t| - 1]];
    }
  }

  lemma {:induction false} InsertKeepsTies(t: seq<TemporalCommunityPosts>, x: TemporalCommunityPosts, v: int)
    ensures WithViews(InsertByViews(t, x), v) == WithViews(t, v) + WithViews([x], v)
  {
    WithViewsOne(x, v);
    if t == [] || t[|t| - 1].views >= x.views {
      WithViewsAppend(t, [x], v);
    } else {
      var t' := t[..|t| - 1];
      var last := t[|t| - 1];
      var u := InsertByViews(t', x);
      InsertKeepsTies(t', x, v);
      WithViewsAppend(u, [last], v);
      WithViewsOne(last, v);
    }
  }

  lemma {:induction false} InsertKeepsOrder(t: seq<TemporalCommunityPosts>, x: TemporalCommunityPosts)
    requires ByViewsDescending(t)
    ensures ByViewsDescending(InsertByViews(t, x))
  {
    if !(t == [] || t[|t| - 1].views >= x.views) {
      var t' := t[..|t| - 1];
      var last := t[|t| - 1];
      InsertKeepsOrder(t', x);
      InsertKeepsContents(t', x);
      var u := InsertByViews(t', x);
      forall i | 0 <= i < |u| ensures u[i].views >= last.views {
        assert u[i] in multiset(u);
        assert u[i] in multiset(t') || u[i] == x;
        if u[i] != x {
          var k :| 0 <= k < |t'| && t'[k] == u[i];
        }
      }
    }
  }

  /** The sort returns the same posts, ordered by views. */
  lemma {:induction false} SortIsPermutation(s: seq<TemporalCommunityPosts>)
    ensures multiset(SortByViews(s)) == multiset(s)
    ensures |SortByViews(s)| == |s|
  {
    if s != [] {
      SortIsPermutation(s[..|s| - 1]);
      InsertKeepsContents(SortByViews(s[..|s| - 1]), s[|s| - 1]);
      assert s == s[..|s| - 1] + [s[|s| - 1]];
    }
  }

  lemma {:induction false} SortIsOrdered(s: seq<TemporalCommunityPosts>)
    ensures ByViewsDescending(SortByViews(s))
  {
    if s != [] {
      SortIsOrdered(s[..|s| - 1]);
      InsertKeepsOrder(SortByViews(s[..|s| - 1]), s[|s| - 1]);
    }
  }

  /** Stability: posts with equal views come out in input order. */
  lemma {:induction false} SortIsStable(s: seq<TemporalCommunityPosts>, v: int)
    ensures WithViews(SortByViews(s), v) == WithViews(s, v)
  {
    if s != [] {
      var s' := s[..|s| - 1];
      SortIsStable(s', v);
      InsertKeepsTies(SortByViews(s'), s[|s| - 1], v);
      WithViewsOne(s[|s| - 1], v);
    }
  }

  /** A descending, tie-preserving rearrangement is unique, so any stable
      sort algorithm (Python's included) produces `SortByViews`. */
  lemma {:induction false} StableSortIsUnique(r: seq<TemporalCommunityPosts>, s: seq<TemporalCommunityPosts>)
    requires ByViewsDescending(r) && ByViewsDescending(s)
    requires KeepsTies(r, s)
    ensures r == s
  {
    if r == [] && s == [] {
    } else if r == [] {
      NonEmptyGroup(s);
      assert false;
    } else if s == [] {
      NonEmptyGroup(r);
      assert false;
    } else {
      HeadsAgree(r, s);
      forall u ensures WithViews(r[1..], u) == WithViews(s[1..], u) {
        SplitHead(r, u);
        SplitHead(s, u);
        var h := if r[0].views == u then [r[0]] else [];
        assert WithViews(r, u) == WithViews(s, u);
        assert WithViews(r[1..], u) == (h + WithViews(r[1..], u))[|h|..];
        assert WithViews(s[1..], u) == (h + WithViews(s[1..], u))[|h|..];
      }
      StableSortIsUnique(r[1..], s[1..]);
      assert r == [r[0]] + r[1..] && s == [s[0]] + s[1..];
    }
  }

  lemma HeadsAgree(r: seq<TemporalCommunityPosts>, s: seq<TemporalCommunityPosts>)
    requires ByViewsDescending(r) && ByViewsDescending(s) && r != [] && s != []
    requires KeepsTies(r, s)
    ensures r[0] == s[0]
  {
    var v := r[0].views;
    var w := s[0].views;
    TopGroup(r);
    TopGroup(s);
    if v > w {
      Smaller(s, v);
      assert false;
    } else if w > v {
      Smaller(r, w);
      assert false;
    } else {
      assert WithViews(r, v) == WithViews(s, v);
    }
  }

  lemma SplitHead(r: seq<TemporalCommunityPosts>, u: int)
    requires r != []
    ensures WithViews(r, u) == (if r[0].views == u then [r[0]] else []) + WithViews(r[1..], u)
  {
    WithViewsAppend([r[0]], r[1..], u);
    assert [r[0]] + r[1..] == r;
    assert [r[0]][..0] == [];
  }

  lemma {:induction false} NonEmptyGroup(r: seq<TemporalCommunityPosts>)
    requires r != []
    ensures WithViews(r, r[|r| - 1].views) != []
  {
  }

  /** In a descending sequence the first post heads its own views group. */
  lemma TopGroup(r: seq<TemporalCommunityPosts>)
    requires r != []
    ensures WithViews(r, r[0].views) != [] && WithViews(r, r[0].views)[0] == r[0]
  {
    WithViewsAppend([r[0]], r[1..], r[0].views);
    assert [r[0]] + r[1..] == r;
    assert [r[0]][..0] == [];
  }

  /** No post of a descending sequence has more views than its head. */
  lemma {:induction false} Smaller(s: seq<TemporalCommunityPosts>, v: int)
    requires ByViewsDescending(s) && s != [] && v > s[0].views
    ensures WithViews(s, v) == []
  {
    if |s| > 1 {
      Smaller(s[..|s| - 1], v);
    }
  }

  // ---- the top ten -----------------------------------------------------------

  /** What the activity returns for the valid posts `s`: the first ten of
      the stable descending sort. */
  function TopTen(s: seq<TemporalCommunityPosts>): (r: seq<TemporalCommunityPosts>)
    ensures |r| <= TopCount && |r| <= |s|
  {
    Take(SortByViews(s), TopCount)
  }

  /** At most ten posts, as many as there are up to ten, all taken from
      `s`, ordered by views descending. */
  lemma TopTenBounds(s: seq<TemporalCommunityPosts>)
    ensures |TopTen(s)| == if |s| < TopCount then |s| else TopCount
    ensures multiset(TopTen(s)) <= multiset(s)
    ensures ByViewsDescending(TopTen(s))
  {
    var sorted := SortByViews(s);
    SortIsPermutation(s);
    SortIsOrdered(s);
    var r := TopTen(s);
    assert sorted == r + sorted[|r|..];
  }

  /** Every post left out has no more views than any post kept. */
  lemma TopTenLeavesOutNoBetter(s: seq<TemporalCommunityPosts>, p: TemporalCommunityPosts, q: TemporalCommunityPosts)
    requires p in multiset(s) - multiset(TopTen(s))
    requires q in TopTen(s)
    ensures p.views <= q.views
  {
    var sorted := SortByViews(s);
    var r := TopTen(s);
    SortIsPermutation(s);
    SortIsOrdered(s);
    var rest := sorted[|r|..];
    assert sorted == r + rest;
    assert multiset(s) == multiset(r) + multiset(rest);
    assert p in multiset(rest);
    var i :| 0 <= i < |rest| && rest[i] == p;
    var j :| 0 <= j < |r| && r[j] == q;
    assert sorted[j] == q && sorted[|r| + i] == p;
  }

  /** Among equally viewed posts the kept ones are the earliest appended. */
  lemma TopTenKeepsTies(s: seq<TemporalCommunityPosts>, v: int)
    ensures WithViews(TopTen(s), v) <= WithViews(s, v)
  {
    var sorted := SortByViews(s);
    var r := TopTen(s);
    assert sorted == r + sorted[|r|..];
    SortIsStable(s, v);
    WithViewsAppend(r, sorted[|r|..], v);
  }

  // ---- the sort as the source runs it: in place ------------------------------

  /** Where `x` lands: behind the last post with at least as many views,
      ahead of the run of posts with fewer views that ends `t`. */
  lemma {:induction false} InsertAt(t: seq<TemporalCommunityPosts>, x: TemporalCommunityPosts, j: nat)
    requires j <= |t| && (j == 0 || t[j - 1].views >= x.views)
    requires forall k :: j <= k < |t| ==> t[k].views < x.views
    ensures InsertByViews(t, x) == t[..j] + [x] + t[j..]
  {
    if j < |t| {
      var t' := t[..|t| - 1];
      InsertAt(t', x, j);
      assert t'[..j] == t[..j];
      assert t[j..] == t'[j..] + [t[|t| - 1]];
    } else {
      assert t[..j] == t && t[j..] == [];
    }
  }

  /** The array after the step, read as a sequence. */
  lemma Reassemble(u: seq<TemporalCommunityPosts>, t: seq<TemporalCommunityPosts>, x: TemporalCommunityPosts, j: nat)
    requires j <= |t| && |u| == |t| + 1
    requires forall k :: 0 <= k < j ==> u[k] == t[k]
    requires u[j] == x
    requires forall k :: j < k < |u| ==> u[k] == t[k - 1]
    ensures u == t[..j] + [x] + t[j..]
  {
  }

  /** One step of insertion sort: moves `a[i]` left past every post of the
      sorted prefix `a[..i]` with fewer views. */
  method InsertLast(a: array<TemporalCommunityPosts>, i: nat)
    requires i < a.Length
    modifies a
    ensures a[..i + 1] == InsertByViews(old(a[..i]), old(a[i]))
    ensures forall k :: i < k < a.Length ==> a[k] == old(a[k])
  {
    ghost var t := a[..i];
    var x := a[i];
    var j := i;
    while j > 0 && a[j - 1].views < x.views
      invariant 0 <= j <= i
      invariant forall k :: 0 <= k < j ==> a[k] == t[k]
      invariant forall k :: j < k <= i ==> a[k] == t[k - 1]
      invariant forall k :: i < k < a.Length ==> a[k] == old(a[k])
      invariant forall k :: j <= k < i ==> t[k].views < x.views
    {
      a[j] := a[j - 1];
      j := j - 1;
    }
    a[j] := x;
    InsertAt(t, x, j);
    Reassemble(a[..i + 1], t, x, j);
  }

  /** Sorting one more post of `s` inserts it into the sorted prefix. */
  lemma SortStep(s: seq<TemporalCommunityPosts>, i: nat)
    requires i < |s|
    ensures SortByViews(s[..i + 1]) == InsertByViews(SortByViews(s[..i]), s[i])
  {
    assert s[..i + 1][..i] == s[..i];
  }

  /** Stable insertion sort of `a` by views, largest first, in place. */
  method SortInPlace(a: array<TemporalCommunityPosts>)
    modifies a
    ensures a[..] == SortByViews(old(a[..]))
  {
    ghost var s := a[..];
    var i := 0;
    while i < a.Length
      invariant 0 <= i <= a.Length
      invariant a[..i] == SortByViews(s[..i])
      invariant forall k :: i <= k < a.Length ==> a[k] == s[k]
    {
      ghost var before := a[..];
      InsertLast(a, i);
      SortStep(s, i);
      assert before[..i] == SortByViews(s[..i]) && before[i] == s[i];
      i := i + 1;
    }
    assert s[..a.Length] == s;
    assert a[..a.Length] == a[..];
  }
}
