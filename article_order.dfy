/** The newest-first ordering of articles: the comparator of the article
    listing, `b.date - a.date`, under a stable sort. The specification is
    a functional insertion sort that places each article after every
    article at least as new as it; `SortInPlace` runs the same insertion
    sort in place on an array. */
module ArticleOrder {
  import opened Types
  import opened Seqs

  /** Dates never increase from left to right. */
  predicate SortedByDate(s: seq<Article>) {
    forall i, j :: 0 <= i < j < |s| ==> s[i].date >= s[j].date
  }

  /** Selects the articles of one exact date. */
  function DatedAt(d: int): Article -> bool {
    (a: Article) => a.date == d
  }

  /** Where `x` goes in `s`: after the leading run of articles at least as
      new as `x`. */
  function InsertPos(s: seq<Article>, x: Article): (k: nat)
    ensures k <= |s|
  {
    if s == [] || s[0].date < x.date then 0 else 1 + InsertPos(s[1..], x)
  }

  lemma {:induction false} InsertPosBounds(s: seq<Article>, x: Article)
    ensures forall j :: 0 <= j < InsertPos(s, x) ==> s[j].date >= x.date
    ensures InsertPos(s, x) < |s| ==> s[InsertPos(s, x)].date < x.date
  {
    if s != [] && s[0].date >= x.date {
      InsertPosBounds(s[1..], x);
    }
  }

  lemma InsertMultiset(s: seq<Article>, x: Article)
    ensures multiset(Insert(s, x)) == multiset(s) + multiset{x}
  {
    var k := InsertPos(s, x);
    assert s == s[..k] + s[k..];
  }

  function Insert(s: seq<Article>, x: Article): seq<Article> {
    s[..InsertPos(s, x)] + [x] + s[InsertPos(s, x)..]
  }

  /** The article list newest first, ties in their original order. */
  function SortByDate(s: seq<Article>): (r: seq<Article>)
    ensures |r| == |s|
  {
    if s == [] then [] else Insert(SortByDate(s[..|s| - 1]), s[|s| - 1])
  }

  /** In a sorted list there is only one place that keeps `x` after every
      article at least as new and before every older one. */
  lemma InsertAt(s: seq<Article>, x: Article, k: nat)
    requires SortedByDate(s) && k <= |s|
    requires forall j :: 0 <= j < k ==> s[j].date >= x.date
    requires forall j :: k <= j < |s| ==> s[j].date < x.date
    ensures Insert(s, x) == s[..k] + [x] + s[k..]
  {
    InsertPosBounds(s, x);
  }

  /** Position `m` of the insertion: the prefix, then `x`, then the rest
      moved one place right. */
  lemma InsertIndex(s: seq<Article>, x: Article, m: nat)
    requires m <= |s|
    ensures var k := InsertPos(s, x);
      Insert(s, x)[m] == if m < k then s[m] else if m == k then x else s[m - 1]
  {
  }

  lemma InsertSorted(s: seq<Article>, x: Article)
    requires SortedByDate(s)
    ensures SortedByDate(Insert(s, x))
  {
    var k := InsertPos(s, x);
    var r := Insert(s, x);
    InsertPosBounds(s, x);
    forall i, j | 0 <= i < j < |r| ensures r[i].date >= r[j].date {
      InsertIndex(s, x, i);
      InsertIndex(s, x, j);
      if i == k {
        assert s[k].date >= s[j - 1].date;
      }
    }
  }

  lemma {:induction false} SortByDateSorted(s: seq<Article>)
    ensures SortedByDate(SortByDate(s))
  {
    if s != [] {
      SortByDateSorted(s[..|s| - 1]);
      InsertSorted(SortByDate(s[..|s| - 1]), s[|s| - 1]);
    }
  }

  lemma {:induction false} SortByDatePermutation(s: seq<Article>)
    ensures multiset(SortByDate(s)) == multiset(s)
  {
    if s != [] {
      var init, x := s[..|s| - 1], s[|s| - 1];
      assert SortByDate(s) == Insert(SortByDate(init), x);
      SortByDatePermutation(init);
      InsertMultiset(SortByDate(init), x);
      assert s == init + [x];
      assert multiset(s) == multiset(init) + multiset{x};
    }
  }

  /** Inserting an article not yet in a duplicate-free list keeps it
      duplicate-free. */
  lemma InsertDistinct(s: seq<Article>, x: Article)
    requires Distinct(s) && x !in s
    ensures Distinct(Insert(s, x))
  {
    var r := Insert(s, x);
    var k := InsertPos(s, x);
    forall i, j | 0 <= i < j < |r| ensures r[i] != r[j] {
      InsertIndex(s, x, i);
      InsertIndex(s, x, j);
    }
  }

  /** Sorting a duplicate-free list gives a duplicate-free list. */
  lemma {:induction false} SortByDateDistinct(s: seq<Article>)
    requires Distinct(s)
    ensures Distinct(SortByDate(s))
  {
    if s != [] {
      var init, x := s[..|s| - 1], s[|s| - 1];
      assert Distinct(init);
      SortByDateDistinct(init);
      SortByDatePermutation(init);
      assert x !in init;
      assert x !in multiset(SortByDate(init));
      InsertDistinct(SortByDate(init), x);
    }
  }

  /** Every article after the insertion point of `x` in a sorted list is
      older than `x`. */
  lemma InsertPosSplits(s: seq<Article>, x: Article)
    requires SortedByDate(s)
    ensures forall j :: InsertPos(s, x) <= j < |s| ==> s[j].date < x.date
  {
    var k := InsertPos(s, x);
    InsertPosBounds(s, x);
    forall j | k <= j < |s| ensures s[j].date < x.date {
      assert s[k].date >= s[j].date;
    }
  }

  lemma FilterAtLeast(s: seq<Article>, p: Article -> bool, d: int)
    requires forall j :: 0 <= j < |s| ==> s[j].date >= d
    ensures forall j :: 0 <= j < |Filter(s, p)| ==> Filter(s, p)[j].date >= d
  {
    var f := Filter(s, p);
    forall j | 0 <= j < |f| ensures f[j].date >= d {
      assert f[j] in f;
      FilterMember(s, p, f[j]);
    }
  }

  lemma FilterBelow(s: seq<Article>, p: Article -> bool, d: int)
    requires forall j :: 0 <= j < |s| ==> s[j].date < d
    ensures forall j :: 0 <= j < |Filter(s, p)| ==> Filter(s, p)[j].date < d
  {
    var f := Filter(s, p);
    forall j | 0 <= j < |f| ensures f[j].date < d {
      assert f[j] in f;
      FilterMember(s, p, f[j]);
    }
  }

  /** Inserting between a newer part and an older part of a sorted list. */
  lemma InsertBetween(a: seq<Article>, b: seq<Article>, x: Article)
    requires SortedByDate(a + b)
    requires forall j :: 0 <= j < |a| ==> a[j].date >= x.date
    requires forall j :: 0 <= j < |b| ==> b[j].date < x.date
    ensures Insert(a + b, x) == a + [x] + b
  {
    var f := a + b;
    forall j | |a| <= j < |f| ensures f[j].date < x.date {
      assert f[j] == b[j - |a|];
    }
    InsertAt(f, x, |a|);
    assert f[..|a|] == a && f[|a|..] == b;
  }

  /** Filtering an insertion, cut at the insertion point. */
  lemma FilterInsertCut(s: seq<Article>, x: Article, p: Article -> bool)
    ensures var k := InsertPos(s, x);
      && Filter(Insert(s, x), p) == Filter(s[..k], p) + Filter([x] + s[k..], p)
      && Filter(s, p) == Filter(s[..k], p) + Filter(s[k..], p)
  {
    var k := InsertPos(s, x);
    var pre, post := s[..k], s[k..];
    assert s == pre + post;
    assert Insert(s, x) == pre + ([x] + post);
    FilterConcat(pre, post, p);
    FilterConcat(pre, [x] + post, p);
  }

  lemma FilterInsertKeptParts(s: seq<Article>, x: Article, p: Article -> bool)
    requires p(x)
    ensures var k := InsertPos(s, x);
      && Filter(Insert(s, x), p) == Filter(s[..k], p) + [x] + Filter(s[k..], p)
      && Filter(s, p) == Filter(s[..k], p) + Filter(s[k..], p)
  {
    var k := InsertPos(s, x);
    FilterInsertCut(s, x, p);
    assert ([x] + s[k..])[1..] == s[k..];
  }

  lemma FilterInsertKept(s: seq<Article>, x: Article, p: Article -> bool)
    requires SortedByDate(s) && p(x)
    ensures Filter(Insert(s, x), p) == Insert(Filter(s, p), x)
  {
    var k := InsertPos(s, x);
    FilterInsertKeptParts(s, x, p);
    FilterSorted(s, p);
    InsertPosBounds(s, x);
    InsertPosSplits(s, x);
    FilterAtLeast(s[..k], p, x.date);
    FilterBelow(s[k..], p, x.date);
    InsertBetween(Filter(s[..k], p), Filter(s[k..], p), x);
  }

  lemma FilterInsertDropped(s: seq<Article>, x: Article, p: Article -> bool)
    requires !p(x)
    ensures Filter(Insert(s, x), p) == Filter(s, p)
  {
    var k := InsertPos(s, x);
    FilterInsertCut(s, x, p);
    assert ([x] + s[k..])[1..] == s[k..];
  }

  /** Filtering commutes with inserting into a sorted list. */
  lemma FilterInsert(s: seq<Article>, x: Article, p: Article -> bool)
    requires SortedByDate(s)
    ensures Filter(Insert(s, x), p) == if p(x) then Insert(Filter(s, p), x) else Filter(s, p)
  {
    if p(x) {
      FilterInsertKept(s, x, p);
    } else {
      FilterInsertDropped(s, x, p);
    }
  }

  lemma {:induction false} FilterSorted(s: seq<Article>, p: Article -> bool)
    requires SortedByDate(s)
    ensures SortedByDate(Filter(s, p))
  {
    if s != [] {
      FilterSorted(s[1..], p);
      var rest := Filter(s[1..], p);
      forall j | 0 <= j < |rest| ensures s[0].date >= rest[j].date {
        assert rest[j] in rest;
        FilterMember(s[1..], p, rest[j]);
      }
    }
  }

  /** Sorting and filtering commute: a filtered listing is the sorted
      listing of the filtered source. */
  lemma {:induction false} SortFilterCommute(s: seq<Article>, p: Article -> bool)
    ensures Filter(SortByDate(s), p) == SortByDate(Filter(s, p))
  {
    if s != [] {
      var init, x := s[..|s| - 1], s[|s| - 1];
      var f := Filter(init, p);
      SortByDateSorted(init);
      assert s == init + [x];
      FilterConcat(init, [x], p);
      assert Filter([x], p) == if p(x) then [x] else [];
      assert Filter(s, p) == if p(x) then f + [x] else f;
      calc {
        Filter(SortByDate(s), p);
        Filter(Insert(SortByDate(init), x), p);
        { FilterInsert(SortByDate(init), x, p); }
        if p(x) then Insert(Filter(SortByDate(init), p), x) else Filter(SortByDate(init), p);
        { SortFilterCommute(init, p); }
        if p(x) then Insert(SortByDate(f), x) else SortByDate(f);
        { LastIsInserted(f, x); }
        if p(x) then SortByDate(f + [x]) else SortByDate(f);
        SortByDate(Filter(s, p));
      }
    }
  }

  lemma LastIsInserted(s: seq<Article>, x: Article)
    ensures SortByDate(s + [x]) == Insert(SortByDate(s), x)
  {
    assert (s + [x])[..|s|] == s;
  }

  /** A list whose articles all share one date is already sorted. */
  lemma {:induction false} SortSameDate(s: seq<Article>, d: int)
    requires forall i :: 0 <= i < |s| ==> s[i].date == d
    ensures SortByDate(s) == s
  {
    if s != [] {
      var init, x := s[..|s| - 1], s[|s| - 1];
      assert SortByDate(s) == Insert(SortByDate(init), x);
      SortSameDate(init, d);
      InsertPosBounds(init, x);
      assert InsertPos(init, x) == |init|;
      assert Insert(init, x) == init + [x];
      assert s == init + [x];
    }
  }

  /** Stability: the articles of any one date keep their source order. */
  lemma SortByDateStable(s: seq<Article>, d: int)
    ensures Filter(SortByDate(s), DatedAt(d)) == Filter(s, DatedAt(d))
  {
    SortFilterCommute(s, DatedAt(d));
    SortSameDate(Filter(s, DatedAt(d)), d);
  }

  /** The array contents `InsertLast` leaves behind: the prefix up to `j`,
      then `x`, then the rest shifted right by one, is the insertion of `x`. */
  lemma ShiftedIsInsert(t: seq<Article>, x: Article, j: nat, r: seq<Article>)
    requires SortedByDate(t) && j <= |t| && |r| == |t| + 1
    requires j > 0 ==> t[j - 1].date >= x.date
    requires forall m :: j <= m < |t| ==> t[m].date < x.date
    requires forall m :: 0 <= m < j ==> r[m] == t[m]
    requires r[j] == x
    requires forall m :: j < m < |r| ==> r[m] == t[m - 1]
    ensures r == Insert(t, x)
  {
    NewerBefore(t, x, j);
    InsertAt(t, x, j);
    ShiftedIsSplit(t, x, j, r);
  }

  lemma NewerBefore(t: seq<Article>, x: Article, j: nat)
    requires SortedByDate(t) && j <= |t|
    requires j > 0 ==> t[j - 1].date >= x.date
    ensures forall m :: 0 <= m < j ==> t[m].date >= x.date
  {
    forall m | 0 <= m < j ensures t[m].date >= x.date {
      assert t[m].date >= t[j - 1].date;
    }
  }

  lemma ShiftedIsSplit(t: seq<Article>, x: Article, j: nat, r: seq<Article>)
    requires j <= |t| && |r| == |t| + 1
    requires forall m :: 0 <= m < j ==> r[m] == t[m]
    requires r[j] == x
    requires forall m :: j < m < |r| ==> r[m] == t[m - 1]
    ensures r == t[..j] + [x] + t[j..]
  {
    var q := t[..j] + [x] + t[j..];
    forall m | 0 <= m < |r| ensures r[m] == q[m] {
      if m > j {
        assert q[m] == t[m - 1];
      }
    }
  }

  /** Shifts the trailing run of articles in `a[..i]` that are older than
      `x` one place right and returns where that run began. */
  method ShiftOlder(a: array<Article>, i: nat, x: Article) returns (j: nat)
    requires i < a.Length
    modifies a
    ensures j <= i
    ensures forall m :: 0 <= m <= j ==> a[m] == old(a[m])
    ensures forall m :: j < m <= i ==> a[m] == old(a[m - 1])
    ensures forall m :: i < m < a.Length ==> a[m] == old(a[m])
    ensures forall m :: j <= m < i ==> old(a[m]).date < x.date
    ensures j > 0 ==> old(a[j - 1]).date >= x.date
  {
    j := i;
    while j > 0 && a[j - 1].date < x.date
      invariant 0 <= j <= i
      invariant forall m :: 0 <= m <= j ==> a[m] == old(a[m])
      invariant forall m :: j < m <= i ==> a[m] == old(a[m - 1])
      invariant forall m :: i < m < a.Length ==> a[m] == old(a[m])
      invariant forall m :: j <= m < i ==> old(a[m]).date < x.date
    {
      assert a[j - 1] == old(a[j - 1]);
      a[j] := a[j - 1];
      j := j - 1;
    }
  }

  /** Moves `a[i]` left past every older article of the sorted prefix
      `a[..i]`. */
  method InsertLast(a: array<Article>, i: nat)
    requires i < a.Length && SortedByDate(a[..i])
    modifies a
    ensures a[..i + 1] == Insert(old(a[..i]), old(a[i]))
    ensures a[i + 1..] == old(a[i + 1..])
  {
    var x := a[i];
    var j := ShiftOlder(a, i, x);
    a[j] := x;
    ShiftedIsInsert(old(a[..i]), x, j, a[..i + 1]);
  }

  /** Sorts `a` newest first, in place, by insertion; equal dates keep
      their order. */
  method SortInPlace(a: array<Article>)
    modifies a
    ensures a[..] == SortByDate(old(a[..]))
  {
    ghost var src := a[..];
    var i := 0;
    while i < a.Length
      invariant 0 <= i <= a.Length
      invariant a[..i] == SortByDate(src[..i])
      invariant a[i..] == src[i..]
    {
      SortByDateSorted(src[..i]);
      assert a[i] == src[i];
      InsertLast(a, i);
      assert src[..i + 1] == src[..i] + [src[i]];
      i := i + 1;
    }
    assert a[..] == a[..a.Length];
    assert src == src[..a.Length];
  }
}
