/**
 * The statistics every sink prints: the samples are sorted ascending and the
 * order statistics at indices `n/2` and `n*9/10` (truncating, no
 * interpolation) are reported in microseconds, i.e. divided by 1000 with
 * truncation toward zero.
 */
module Stats {
  import opened Numeric

  predicate Sorted(s: seq<int>) {
    forall i, j :: 0 <= i < j < |s| ==> s[i] <= s[j]
  }

  /** The reported values, in microseconds. */
  datatype Report = Report(p50us: int, p90us: int)

  const NanosPerMicro: int := 1000

  /** Index of the P50 order statistic among `n` sorted samples. */
  function P50Index(n: nat): (k: nat)
    requires n > 0
    ensures k < n
  {
    n / 2
  }

  /** Index of the P90 order statistic among `n` sorted samples. */
  function P90Index(n: nat): (k: nat)
    requires n > 0
    ensures k < n
    ensures P50Index(n) <= k
  {
    P90IndexBounds(n);
    n * 9 / 10
  }

  lemma P90IndexBounds(n: nat)
    requires n > 0
    ensures n / 2 <= n * 9 / 10 < n
  {
    DivBounds(n, 2);
    DivBounds(n * 9, 10);
    QuotientAtLeast(n * 9, 10, n / 2);
  }

  /** Any `k` with `k * d <= x` is at most the quotient `x / d`. */
  lemma QuotientAtLeast(x: nat, d: nat, k: nat)
    requires d > 0 && k * d <= x
    ensures k <= x / d
  {
    DivBounds(x, d);
    if k > x / d {
      MulMonotone(d, x / d + 1, k);
    }
  }

  /** The report read from a sorted sequence of per-hop latencies in nanoseconds: the samples at
      indices `n/2` and `n*9/10`, each divided by 1000.  On sorted samples the reported P50 never
      exceeds the reported P90, and both lie between the smallest and the largest sample, in
      microseconds. */
  function PercentileReport(sorted: seq<int>): (r: Report)
    requires |sorted| > 0
    ensures Sorted(sorted) ==> r.p50us <= r.p90us
    ensures Sorted(sorted) ==> TruncDiv(sorted[0], NanosPerMicro) <= r.p50us
    ensures Sorted(sorted) ==> r.p90us <= TruncDiv(sorted[|sorted| - 1], NanosPerMicro)
  {
    var n := |sorted|;
    var p50, p90 := sorted[P50Index(n)], sorted[P90Index(n)];
    assert Sorted(sorted) ==>
      TruncDiv(sorted[0], NanosPerMicro) <= TruncDiv(p50, NanosPerMicro) <= TruncDiv(p90, NanosPerMicro)
      <= TruncDiv(sorted[n - 1], NanosPerMicro)
    by {
      if Sorted(sorted) {
        TruncDivMonotone(sorted[0], p50, NanosPerMicro);
        TruncDivMonotone(p50, p90, NanosPerMicro);
        TruncDivMonotone(p90, sorted[n - 1], NanosPerMicro);
      }
    }
    Report(TruncDiv(p50, NanosPerMicro), TruncDiv(p90, NanosPerMicro))
  }

  /** What a sink reports for its samples `m`: P50 never exceeds P90, and each is an actual
      sample divided by 1000 (order statistics, not interpolations). */
  lemma ReportOfSamples(m: multiset<int>)
    requires m != multiset{}
    ensures PercentileReport(SortedOf(m)).p50us <= PercentileReport(SortedOf(m)).p90us
    ensures exists x :: x in m && PercentileReport(SortedOf(m)).p50us == TruncDiv(x, NanosPerMicro)
    ensures exists x :: x in m && PercentileReport(SortedOf(m)).p90us == TruncDiv(x, NanosPerMicro)
  {
    var s := SortedOf(m);
    assert |s| == |m| > 0;
    var n := |s|;
    assert s[P50Index(n)] in multiset(s);
    assert s[P90Index(n)] in multiset(s);
  }

  /** A non-empty multiset has an element. */
  lemma HasElement(m: multiset<int>)
    requires m != multiset{}
    ensures exists x :: x in m
  {
    if forall x :: x !in m {
      NoElementMeansEmpty(m);
      assert false;
    }
  }

  lemma NoElementMeansEmpty(m: multiset<int>)
    requires forall x :: x !in m
    ensures m == multiset{}
  {
    forall x ensures m[x] == 0 {
      assert x !in m;
    }
  }

  /** Some element of a non-empty multiset is no larger than any other. */
  lemma {:induction false} MinimumExists(m: multiset<int>)
    requires m != multiset{}
    ensures exists x :: x in m && forall y :: y in m ==> x <= y
    decreases |m|
  {
    HasElement(m);
    var z :| z in m;
    var rest := m - multiset{z};
    assert m == rest + multiset{z};
    if rest == multiset{} {
      assert m == multiset{z};
    } else {
      MinimumExists(rest);
      var x :| x in rest && forall y :: y in rest ==> x <= y;
      MinimumOfInsert(m, z, x);
    }
  }

  lemma MinimumOfInsert(m: multiset<int>, z: int, x: int)
    requires z in m && x in m - multiset{z}
    requires forall y :: y in m - multiset{z} ==> x <= y
    ensures exists w :: w in m && forall y :: y in m ==> w <= y
  {
    var least := if z < x then z else x;
    assert least in m;
    forall y | y in m ensures least <= y {
      if y != z {
        assert y in m - multiset{z};
      }
    }
  }

  /** The sorted sequence holding exactly the elements of `m`: the reference for every sort. */
  ghost function SortedOf(m: multiset<int>): (s: seq<int>)
    ensures Sorted(s) && multiset(s) == m
    decreases |m|
  {
    if m == multiset{} then []
    else
      MinimumExists(m);
      var x :| x in m && forall y :: y in m ==> x <= y;
      var rest := SortedOf(m - multiset{x});
      PrependMinimum(x, rest, m);
      [x] + rest
  }

  lemma PrependMinimum(x: int, rest: seq<int>, m: multiset<int>)
    requires x in m && (forall y :: y in m ==> x <= y)
    requires Sorted(rest) && multiset(rest) == m - multiset{x}
    ensures Sorted([x] + rest) && multiset([x] + rest) == m
  {
    forall i | 0 <= i < |rest| ensures x <= rest[i] {
      assert rest[i] in multiset(rest);
    }
  }

  /** A multiset has only one sorted arrangement. */
  lemma {:induction false} SortedUnique(a: seq<int>, b: seq<int>)
    requires Sorted(a) && Sorted(b) && multiset(a) == multiset(b)
    ensures a == b
    decreases |a|
  {
    if a == [] {
      assert |b| == |multiset(b)| == 0;
    } else {
      HeadsAndTails(a, b);
      SortedUnique(a[1..], b[1..]);
      assert a == [a[0]] + a[1..];
      assert b == [b[0]] + b[1..];
    }
  }

  /** Two sorted arrangements of one multiset start alike, and their tails are again sorted
      arrangements of one multiset. */
  lemma HeadsAndTails(a: seq<int>, b: seq<int>)
    requires Sorted(a) && Sorted(b) && multiset(a) == multiset(b) && a != []
    ensures b != [] && a[0] == b[0]
    ensures Sorted(a[1..]) && Sorted(b[1..]) && multiset(a[1..]) == multiset(b[1..])
  {
    assert |b| == |multiset(b)| == |multiset(a)| == |a|;
    InMultiset(a, 0);
    InMultiset(b, 0);
    HeadIsLeast(a, b[0]);
    HeadIsLeast(b, a[0]);
    SplitHead(a);
    SplitHead(b);
    SortedTail(a);
    SortedTail(b);
  }

  /** The first element of a sorted sequence is at most any of its elements. */
  lemma HeadIsLeast(s: seq<int>, x: int)
    requires Sorted(s) && x in multiset(s)
    ensures s[0] <= x
  {
    assert x in s;
  }

  lemma InMultiset(s: seq<int>, i: nat)
    requires i < |s|
    ensures s[i] in multiset(s)
  {
  }

  lemma SortedTail(s: seq<int>)
    requires s != [] && Sorted(s)
    ensures Sorted(s[1..])
  {
  }

  lemma SplitHead(s: seq<int>)
    requires s != []
    ensures multiset(s[1..]) == multiset(s) - multiset{s[0]}
  {
    assert s == [s[0]] + s[1..];
  }

  /** Any sorted arrangement of a multiset is the one SortedOf gives. */
  lemma SortedIsSortedOf(s: seq<int>)
    requires Sorted(s)
    ensures s == SortedOf(multiset(s))
  {
    SortedUnique(s, SortedOf(multiset(s)));
  }

  /** Exchanges two elements of an array. */
  method SwapElements(a: array<int>, i: nat, j: nat)
    requires i < a.Length && j < a.Length
    modifies a
    ensures a[..] == old(a[..])[i := old(a[j])][j := old(a[i])]
    ensures multiset(a[..]) == old(multiset(a[..]))
  {
    a[i], a[j] := a[j], a[i];
  }

  /** Sorts an array ascending in place (`std::sort`, Rust's `slice::sort`), by insertion. */
  method SortInPlace(a: array<int>)
    modifies a
    ensures Sorted(a[..])
    ensures multiset(a[..]) == old(multiset(a[..]))
  {
    var i := 0;
    while i < a.Length
      invariant 0 <= i <= a.Length
      invariant Sorted(a[..i])
      invariant multiset(a[..]) == old(multiset(a[..]))
    {
      var j := i;
      while j > 0 && a[j - 1] > a[j]
        invariant 0 <= j <= i
        invariant forall p, q :: 0 <= p < q <= i && p != j && q != j ==> a[p] <= a[q]
        invariant forall q :: j < q <= i ==> a[j] < a[q]
        invariant multiset(a[..]) == old(multiset(a[..]))
      {
        SwapElements(a, j - 1, j);
        j := j - 1;
      }
      i := i + 1;
    }
  }

  /** Sorts the samples in place and reads the two order statistics, in microseconds: the part
      of `print_stats` (C++) and of the report branch (Rust) that follows filling the vector. */
  method SortAndReport(a: array<int>) returns (report: Report)
    requires a.Length > 0
    modifies a
    ensures a[..] == SortedOf(old(multiset(a[..])))
    ensures report == PercentileReport(a[..])
  {
    SortInPlace(a);
    SortedIsSortedOf(a[..]);
    var n := a.Length;
    report := Report(TruncDiv(a[P50Index(n)], NanosPerMicro), TruncDiv(a[P90Index(n)], NanosPerMicro));
  }
}
