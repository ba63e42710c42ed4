/** The population stability index: monitoring/drift/psi.py, over reals. The logarithm is a
    parameter, known only to increase strictly on positive numbers and to be 0 at 1. */
module StabilityIndex {
  import opened Options
  import opened RealArithmetic
  import opened Rounding

  const EPS: real := 0.000001

  ghost predicate IsLog(ln: real -> real) {
    ln(1.0) == 0.0 && forall x, y :: 0.0 < x < y ==> ln(x) < ln(y)
  }

  // ---------- sorting ----------

  predicate Sorted(xs: seq<real>) {
    forall i, j :: 0 <= i <= j < |xs| ==> xs[i] <= xs[j]
  }

  predicate Increasing(xs: seq<real>) {
    forall i, j :: 0 <= i < j < |xs| ==> xs[i] < xs[j]
  }

  function Insert(x: real, ys: seq<real>): seq<real> {
    if ys == [] || x <= ys[0] then [x] + ys else [ys[0]] + Insert(x, ys[1..])
  }

  function Sort(xs: seq<real>): seq<real> {
    if xs == [] then [] else Insert(xs[0], Sort(xs[1..]))
  }

  lemma {:induction false} InsertKeepsAll(x: real, ys: seq<real>)
    ensures multiset(Insert(x, ys)) == multiset{x} + multiset(ys)
    decreases ys
  {
    if ys != [] {
      assert ys == [ys[0]] + ys[1..];
      if x > ys[0] { InsertKeepsAll(x, ys[1..]); }
    }
  }

  lemma {:induction false} InsertKeepsSorted(x: real, ys: seq<real>)
    requires Sorted(ys)
    ensures Sorted(Insert(x, ys)) && forall v :: v in Insert(x, ys) <==> v == x || v in ys
    decreases ys
  {
    if ys != [] && x > ys[0] {
      var rest := ys[1..];
      InsertKeepsSorted(x, rest);
      var r := Insert(x, rest);
      assert forall i :: 0 <= i < |r| ==> r[i] in r;
      assert forall i :: 0 <= i < |rest| ==> ys[0] <= rest[i];
    }
  }

  lemma {:induction false} SortSorts(xs: seq<real>)
    ensures Sorted(Sort(xs)) && multiset(Sort(xs)) == multiset(xs) && |Sort(xs)| == |xs|
    decreases xs
  {
    if xs != [] {
      SortSorts(xs[1..]);
      InsertKeepsSorted(xs[0], Sort(xs[1..]));
      InsertKeepsAll(xs[0], Sort(xs[1..]));
      assert xs == [xs[0]] + xs[1..];
      assert |multiset(Sort(xs))| == |multiset(xs)|;
    }
  }

  function InsertNew(x: real, ys: seq<real>): seq<real> {
    if ys == [] || x < ys[0] then [x] + ys
    else if x == ys[0] then ys
    else [ys[0]] + InsertNew(x, ys[1..])
  }

  /** `np.unique`: the distinct values in increasing order. */
  function Unique(xs: seq<real>): seq<real> {
    if xs == [] then [] else InsertNew(xs[0], Unique(xs[1..]))
  }

  lemma {:induction false} InsertNewKeepsIncreasing(x: real, ys: seq<real>)
    requires Increasing(ys)
    ensures Increasing(InsertNew(x, ys)) && forall v :: v in InsertNew(x, ys) <==> v == x || v in ys
    decreases ys
  {
    if ys != [] && x > ys[0] {
      var rest := ys[1..];
      InsertNewKeepsIncreasing(x, rest);
      ConsKeepsIncreasing(ys[0], InsertNew(x, rest), x, rest);
      assert ys == [ys[0]] + rest;
    }
  }

  lemma ConsKeepsIncreasing(y: real, r: seq<real>, x: real, rest: seq<real>)
    requires Increasing(r) && y < x && (forall v :: v in r ==> v == x || v in rest) && forall i :: 0 <= i < |rest| ==> y < rest[i]
    ensures Increasing([y] + r)
  {
    assert forall i :: 0 <= i < |r| ==> r[i] in r;
  }

  lemma {:induction false} UniqueIncreases(xs: seq<real>)
    ensures Increasing(Unique(xs)) && forall v :: v in Unique(xs) <==> v in xs
    decreases xs
  {
    if xs != [] {
      UniqueIncreases(xs[1..]);
      InsertNewKeepsIncreasing(xs[0], Unique(xs[1..]));
    }
  }

  lemma {:induction false} UniqueOfIncreasing(xs: seq<real>)
    requires Increasing(xs)
    ensures Unique(xs) == xs
    decreases xs
  {
    if xs != [] {
      UniqueOfIncreasing(xs[1..]);
      assert xs == [xs[0]] + xs[1..];
    }
  }

  // ---------- percentile positions ----------

  /** The j-th of `bins` percentiles of values 0 to `last` is at Times(j, last) / bins: a whole part, and a
      rest that leads to the next value. */
  lemma PositionInRange(last: nat, j: nat, bins: nat)
    requires bins > 0 && j <= bins
    ensures FloorDiv(Times(j, last), bins) <= last
    ensures Rest(Times(j, last), bins) != 0 ==> FloorDiv(Times(j, last), bins) < last
    ensures CeilDiv(Times(j, last), bins) <= last
  {
    hide Times, FloorDiv, Rest, CeilDiv;
    TimesLe(j, bins, last);
    TimesSwap(bins, last);
    CeilDivIsLeast(Times(j, last), bins, last);
    CeilIsFloor(Times(j, last), bins);
  }

  // ---------- bin edges ----------

  /** The value at position at/bins of a sorted sample, interpolated linearly. */
  function Interpolate(s: seq<real>, at: nat, bins: nat): real
    requires bins > 0 && FloorDiv(at, bins) < |s| && (Rest(at, bins) != 0 ==> FloorDiv(at, bins) + 1 < |s|)
  {
    var i := FloorDiv(at, bins);
    if Rest(at, bins) == 0 then s[i] else s[i] + (s[i + 1] - s[i]) * (Rest(at, bins) as real / bins as real)
  }

  /** The j-th of `bins` + 1 evenly spaced percentiles of a sorted sample. */
  function Percentile(s: seq<real>, j: nat, bins: nat): real
    requires s != [] && bins > 0 && j <= bins
  {
    PositionInRange(|s| - 1, j, bins);
    Interpolate(s, Times(j, |s| - 1), bins)
  }

  function Percentiles(s: seq<real>, bins: nat): seq<real>
    requires s != [] && bins > 0
  {
    seq(bins + 1, j requires 0 <= j <= bins => Percentile(s, j, bins))
  }

  function Min(a: real, b: real): real { if b < a then b else a }
  function Max(a: real, b: real): real { if b > a then b else a }

  function EvenEdges(bins: nat): seq<real>
    requires bins > 0
  {
    seq(bins + 1, j requires 0 <= j <= bins => j as real / bins as real)
  }

  /** Distinct percentiles, stretched to cover [0, 1]; evenly spaced ones if there is only one. */
  function Edges(reference: seq<real>, bins: nat): seq<real>
    requires reference != [] && bins > 0
  {
    SortSorts(reference);
    var u := Unique(Percentiles(Sort(reference), bins));
    if |u| < 2 then EvenEdges(bins)
    else
      var u1 := u[0 := Min(u[0], 0.0)];
      u1[|u| - 1 := Max(u1[|u| - 1], 1.0)]
  }

  lemma EvenEdgesCover(bins: nat)
    requires bins > 0
    ensures Increasing(EvenEdges(bins)) && EvenEdges(bins)[0] == 0.0 && EvenEdges(bins)[bins] == 1.0
  {
    forall i, j | 0 <= i < j <= bins ensures EvenEdges(bins)[i] < EvenEdges(bins)[j] {
      QuotientLess(i as real, j as real, bins as real);
    }
    var d := bins as real;
    QuotientCompares(d, d, 1.0);
    QuotientCompares(0.0, d, 0.0);
  }

  lemma StretchKeepsIncreasing(u: seq<real>, low: real, high: real)
    requires |u| >= 2 && Increasing(u) && low <= u[0] && u[|u|-1] <= high
    ensures Increasing(u[0 := low][|u| - 1 := high])
  {
  }

  /** The edges strictly increase and cover [0, 1]. */
  lemma EdgesCover(reference: seq<real>, bins: nat)
    requires reference != [] && bins > 0
    ensures var e := Edges(reference, bins);
            |e| >= 2 && Increasing(e) && e[0] <= 0.0 && 1.0 <= e[|e|-1]
  {
    SortSorts(reference);
    var ps := Percentiles(Sort(reference), bins);
    var u := Unique(ps);
    UniqueIncreases(ps);
    hide Unique, Percentiles, Sort;
    if |u| < 2 {
      EvenEdgesCover(bins);
    } else {
      StretchKeepsIncreasing(u, Min(u[0], 0.0), Max(u[|u|-1], 1.0));
    }
  }

  // ---------- histogram ----------

  /** Bins are half open, the last one closed. */
  predicate InBin(e: seq<real>, b: nat, x: real)
    requires b + 1 < |e|
  {
    e[b] <= x && (x < e[b+1] || (b + 2 == |e| && x == e[b+1]))
  }

  function Count(e: seq<real>, b: nat, xs: seq<real>): nat
    requires b + 1 < |e|
  {
    if xs == [] then 0 else Count(e, b, xs[..|xs|-1]) + if InBin(e, b, xs[|xs|-1]) then 1 else 0
  }

  /** How many values fall in the first m bins. */
  function CountUpTo(e: seq<real>, m: nat, xs: seq<real>): nat
    requires m < |e|
  {
    if m == 0 then 0 else CountUpTo(e, m - 1, xs) + Count(e, m - 1, xs)
  }

  /** Every value between the first edge and the last falls in exactly one bin. */
  lemma {:induction false} ExactlyOneBin(e: seq<real>, x: real, m: nat) returns (b: nat)
    requires |e| >= 2 && Increasing(e) && 1 <= m < |e| && e[0] <= x
    requires x < e[m] || (m == |e| - 1 && x == e[m])
    ensures b < m && InBin(e, b, x) && forall c: nat :: c < |e| - 1 && InBin(e, c, x) ==> c == b
    decreases m
  {
    if e[m-1] <= x {
      b := m - 1;
    } else {
      b := ExactlyOneBin(e, x, m - 1);
    }
  }

  lemma {:induction false} CountUpToSnoc(e: seq<real>, m: nat, xs: seq<real>, x: real, b: nat)
    requires m < |e| && b < |e| - 1 && InBin(e, b, x)
    requires forall c: nat :: c < |e| - 1 && InBin(e, c, x) ==> c == b
    ensures CountUpTo(e, m, xs + [x]) == CountUpTo(e, m, xs) + if b < m then 1 else 0
    decreases m
  {
    assert (xs + [x])[..|xs|] == xs;
    if m > 0 { CountUpToSnoc(e, m - 1, xs, x, b); }
  }

  lemma {:induction false} CountUpToEmpty(e: seq<real>, m: nat)
    requires m < |e|
    ensures CountUpTo(e, m, []) == 0
    decreases m
  {
    if m > 0 { CountUpToEmpty(e, m - 1); }
  }

  predicate Within(xs: seq<real>, low: real, high: real) {
    forall i :: 0 <= i < |xs| ==> low <= xs[i] <= high
  }

  /** So the bin counts of a sample within the edges add up to its size. */
  lemma {:induction false} CountsAddUp(e: seq<real>, xs: seq<real>)
    requires |e| >= 2 && Increasing(e) && Within(xs, e[0], e[|e|-1])
    ensures CountUpTo(e, |e| - 1, xs) == |xs|
    decreases xs
  {
    if xs == [] {
      CountUpToEmpty(e, |e| - 1);
    } else {
      var init, x := xs[..|xs|-1], xs[|xs|-1];
      var b := ExactlyOneBin(e, x, |e| - 1);
      CountUpToSnoc(e, |e| - 1, init, x, b);
      CountsAddUp(e, init);
      assert init + [x] == xs;
    }
  }

  // ---------- the index ----------

  /** A bin's share of the sample, floored away from zero. */
  function Share(e: seq<real>, b: nat, xs: seq<real>): real
    requires b + 1 < |e| && xs != []
  {
    var p := Count(e, b, xs) as real / |xs| as real;
    if p == 0.0 then EPS else p
  }

  lemma SharePositive(e: seq<real>, b: nat, xs: seq<real>)
    requires b + 1 < |e| && xs != []
    ensures Share(e, b, xs) > 0.0
  {
    QuotientCompares(Count(e, b, xs) as real, |xs| as real, 0.0);
  }

  /** Both the divisor and the argument of the logarithm must be positive. */
  function Term(p: real, q: real, ln: real -> real): real
    requires p > 0.0 && q > 0.0
  {
    (q - p) * ln(q / p)
  }

  function PsiUpTo(e: seq<real>, m: nat, reference: seq<real>, recent: seq<real>, ln: real -> real): real
    requires m < |e| && reference != [] && recent != []
  {
    if m == 0 then 0.0
    else
      SharePositive(e, m - 1, reference);
      SharePositive(e, m - 1, recent);
      PsiUpTo(e, m - 1, reference, recent, ln) + Term(Share(e, m - 1, reference), Share(e, m - 1, recent), ln)
  }

  function Psi(reference: seq<real>, recent: seq<real>, bins: nat, ln: real -> real): real
    requires reference != [] && recent != [] && bins > 0
  {
    EdgesCover(reference, bins);
    var e := Edges(reference, bins);
    PsiUpTo(e, |e| - 1, reference, recent, ln)
  }

  /** A term is never negative, and zero exactly when the two shares agree. */
  lemma TermSign(p: real, q: real, ln: real -> real)
    requires p > 0.0 && q > 0.0 && IsLog(ln)
    ensures Term(p, q, ln) >= 0.0 && (Term(p, q, ln) == 0.0 <==> p == q)
  {
    var r := q / p;
    QuotientCompares(q, p, 1.0);
    QuotientCompares(q, p, 0.0);
    if q > p {
      assert (q - p) * ln(r) > 0.0;
    } else if q < p {
      assert (p - q) * (-ln(r)) > 0.0;
    } else {
      assert r == 1.0;
    }
  }

  lemma {:induction false} PsiSign(e: seq<real>, m: nat, reference: seq<real>, recent: seq<real>, ln: real -> real)
    requires m < |e| && reference != [] && recent != [] && IsLog(ln)
    ensures PsiUpTo(e, m, reference, recent, ln) >= 0.0
    ensures PsiUpTo(e, m, reference, recent, ln) == 0.0 <==>
              forall b :: 0 <= b < m ==> Share(e, b, reference) == Share(e, b, recent)
    decreases m
  {
    if m > 0 {
      PsiSign(e, m - 1, reference, recent, ln);
      SharePositive(e, m - 1, reference);
      SharePositive(e, m - 1, recent);
      TermSign(Share(e, m - 1, reference), Share(e, m - 1, recent), ln);
    }
  }

  // ---------- the index is a sum of two relative entropies ----------

  /** What makes the function a logarithm. */
  ghost predicate Additive(ln: real -> real) {
    forall x, y :: x > 0.0 && y > 0.0 ==> ln(x * y) == ln(x) + ln(y)
  }

  /** The relative entropy of the floored shares of xs to those of ys, over the first m bins. */
  function RelativeEntropy(e: seq<real>, m: nat, xs: seq<real>, ys: seq<real>, ln: real -> real): real
    requires m < |e| && xs != [] && ys != []
  {
    if m == 0 then 0.0
    else
      SharePositive(e, m - 1, ys);
      RelativeEntropy(e, m - 1, xs, ys, ln) + Share(e, m - 1, xs) * ln(Share(e, m - 1, xs) / Share(e, m - 1, ys))
  }

  lemma InverseQuotients(p: real, q: real)
    requires p > 0.0 && q > 0.0
    ensures p / q > 0.0 && q / p > 0.0 && (p / q) * (q / p) == 1.0
  {
    QuotientCompares(p, q, 0.0);
    QuotientCompares(q, p, 0.0);
    assert Scaled(p / q, q) == p && Scaled(q / p, p) == q;
    Inverses(p / q, q / p, p, q);
  }

  lemma Inverses(x: real, y: real, p: real, q: real)
    requires p > 0.0 && Scaled(x, q) == p && Scaled(y, p) == q
    ensures x * y == 1.0
  {
    hide Scaled;
    ScaledAssociate(x, y, p);
    ScaledOne(p);
    ScaledLess(x * y, 1.0, p);
    ScaledLess(1.0, x * y, p);
  }

  lemma LogOfInverse(p: real, q: real, ln: real -> real)
    requires p > 0.0 && q > 0.0 && IsLog(ln) && Additive(ln)
    ensures ln(p / q) == -ln(q / p)
  {
    InverseQuotients(p, q);
    LogOfProduct(p / q, q / p, ln);
  }

  lemma LogOfProduct(x: real, y: real, ln: real -> real)
    requires x > 0.0 && y > 0.0 && IsLog(ln) && Additive(ln) && x * y == 1.0
    ensures ln(x) + ln(y) == 0.0
  {
    assert ln(x * y) == ln(x) + ln(y);
  }

  lemma TermSplits(p: real, q: real, ln: real -> real)
    requires p > 0.0 && q > 0.0 && IsLog(ln) && Additive(ln)
    ensures Term(p, q, ln) == q * ln(q / p) + p * ln(p / q)
  {
    LogOfInverse(p, q, ln);
    Distribute(q, p, ln(q / p));
  }

  lemma Distribute(q: real, p: real, x: real)
    ensures (q - p) * x == q * x + p * (-x)
  {
  }

  lemma {:induction false} PsiSplits(e: seq<real>, m: nat, reference: seq<real>, recent: seq<real>, ln: real -> real)
    requires m < |e| && reference != [] && recent != [] && IsLog(ln) && Additive(ln)
    ensures PsiUpTo(e, m, reference, recent, ln) == RelativeEntropy(e, m, recent, reference, ln) + RelativeEntropy(e, m, reference, recent, ln)
    decreases m
  {
    hide Share, Term, IsLog, Additive;
    if m > 0 {
      PsiSplits(e, m - 1, reference, recent, ln);
      SharePositive(e, m - 1, reference);
      SharePositive(e, m - 1, recent);
      TermSplits(Share(e, m - 1, reference), Share(e, m - 1, recent), ln);
    }
  }

  /** The index is the relative entropy of the recent shares to the reference shares plus the reverse. */
  lemma PsiIsTwoEntropies(reference: seq<real>, recent: seq<real>, bins: nat, ln: real -> real)
    requires reference != [] && recent != [] && bins > 0 && IsLog(ln) && Additive(ln)
    ensures var e := Edges(reference, bins);
            && |e| >= 2
            && Psi(reference, recent, bins, ln) ==
                 RelativeEntropy(e, |e| - 1, recent, reference, ln) + RelativeEntropy(e, |e| - 1, reference, recent, ln)
  {
    hide IsLog, Additive, Edges, RelativeEntropy, PsiUpTo;
    EdgesCover(reference, bins);
    PsiSplits(Edges(reference, bins), |Edges(reference, bins)| - 1, reference, recent, ln);
  }

  /** A share is the part of the sample in the bin, and 0.000001 if the bin is empty. */
  lemma ShareExactly(e: seq<real>, b: nat, xs: seq<real>)
    requires b + 1 < |e| && xs != []
    ensures Count(e, b, xs) > 0 ==> Share(e, b, xs) * |xs| as real == Count(e, b, xs) as real
    ensures Count(e, b, xs) == 0 ==> Share(e, b, xs) == 0.000001
  {
    var p := Count(e, b, xs) as real / |xs| as real;
    assert p * |xs| as real == Count(e, b, xs) as real;
  }

  predicate Probabilities(xs: seq<real>) {
    xs != [] && Within(xs, 0.0, 1.0)
  }

  /** The index of two non-empty samples is never negative, and zero exactly when the floored shares
      agree in every bin; a sample against itself scores zero. */
  lemma PsiNonNegative(reference: seq<real>, recent: seq<real>, bins: nat, ln: real -> real)
    requires reference != [] && recent != [] && bins > 0 && IsLog(ln)
    ensures var e := Edges(reference, bins);
            && Psi(reference, recent, bins, ln) >= 0.0
            && (Psi(reference, recent, bins, ln) == 0.0 <==>
                  forall b :: 0 <= b < |e| - 1 ==> Share(e, b, reference) == Share(e, b, recent))
            && Psi(reference, reference, bins, ln) == 0.0
  {
    EdgesCover(reference, bins);
    var e := Edges(reference, bins);
    PsiSign(e, |e| - 1, reference, recent, ln);
    PsiSign(e, |e| - 1, reference, reference, ln);
  }

  /** Both histograms of probability samples count every value once. */
  lemma HistogramsComplete(reference: seq<real>, recent: seq<real>, bins: nat)
    requires Probabilities(reference) && Probabilities(recent) && bins > 0
    ensures var e := Edges(reference, bins);
            |e| >= 2 && CountUpTo(e, |e| - 1, reference) == |reference| && CountUpTo(e, |e| - 1, recent) == |recent|
  {
    hide Edges, CountUpTo;
    EdgesCover(reference, bins);
    var e := Edges(reference, bins);
    CountsAddUp(e, reference);
    CountsAddUp(e, recent);
  }

  // ---------- equal reference mass per bin ----------

  predicate NoTies(xs: seq<real>) {
    forall i, j :: 0 <= i < j < |xs| ==> xs[i] != xs[j]
  }

  lemma {:induction false} CountAppend(e: seq<real>, b: nat, xs: seq<real>, ys: seq<real>)
    requires b + 1 < |e|
    ensures Count(e, b, xs + ys) == Count(e, b, xs) + Count(e, b, ys)
    decreases ys
  {
    if ys == [] {
      assert xs + ys == xs;
    } else {
      var all := xs + ys;
      assert all[..|all|-1] == xs + ys[..|ys|-1];
      CountAppend(e, b, xs, ys[..|ys|-1]);
    }
  }

  lemma {:induction false} CountInsert(e: seq<real>, b: nat, x: real, ys: seq<real>)
    requires b + 1 < |e|
    ensures Count(e, b, Insert(x, ys)) == Count(e, b, [x]) + Count(e, b, ys)
    decreases ys
  {
    if ys == [] || x <= ys[0] {
      CountAppend(e, b, [x], ys);
    } else {
      CountInsert(e, b, x, ys[1..]);
      CountAppend(e, b, [ys[0]], Insert(x, ys[1..]));
      CountAppend(e, b, [ys[0]], ys[1..]);
      assert ys == [ys[0]] + ys[1..];
    }
  }

  lemma {:induction false} CountSort(e: seq<real>, b: nat, xs: seq<real>)
    requires b + 1 < |e|
    ensures Count(e, b, Sort(xs)) == Count(e, b, xs)
    decreases xs
  {
    if xs != [] {
      CountSort(e, b, xs[1..]);
      CountInsert(e, b, xs[0], Sort(xs[1..]));
      CountAppend(e, b, [xs[0]], xs[1..]);
      assert xs == [xs[0]] + xs[1..];
    }
  }

  lemma {:induction false} SortNoTies(xs: seq<real>)
    requires NoTies(xs)
    ensures Increasing(Sort(xs)) && forall v :: v in Sort(xs) <==> v in xs
    decreases xs
  {
    if xs != [] {
      var rest := Sort(xs[1..]);
      SortNoTies(xs[1..]);
      assert xs[0] !in xs[1..];
      InsertIsInsertNew(xs[0], rest);
      InsertNewKeepsIncreasing(xs[0], rest);
      assert xs == [xs[0]] + xs[1..];
    }
  }

  lemma {:induction false} InsertIsInsertNew(x: real, ys: seq<real>)
    requires x !in ys
    ensures Insert(x, ys) == InsertNew(x, ys)
    decreases ys
  {
    if ys != [] { InsertIsInsertNew(x, ys[1..]); }
  }

  /** How many values of n lie below the j-th percentile, if no tie interferes: ceil(j(n-1)/bins). */
  function Below(n: nat, j: nat, bins: nat): nat
    requires n > 0 && bins > 0
  {
    CeilDiv(Times(j, n - 1), bins)
  }

  /** No tie lies across position c. */
  predicate Splits(s: seq<real>, c: nat) {
    0 < c < |s| && s[c - 1] < s[c]
  }

  /** No tie lies across the position of an interior percentile, and the last of these is below the
      largest value. Ties elsewhere do no harm. */
  predicate TiesHarmless(s: seq<real>, bins: nat)
    requires bins > 0
  {
    && |s| >= 2
    && (forall j: nat :: 0 < j < bins ==> Splits(s, Below(|s|, j, bins)))
    && Percentile(s, bins - 1, bins) < s[|s|-1]
  }

  lemma Between(lo: real, hi: real, rest: nat, bins: nat)
    requires lo < hi && 0 < rest < bins
    ensures lo < lo + (hi - lo) * (rest as real / bins as real) < hi
  {
    var t, w := rest as real / bins as real, hi - lo;
    QuotientCompares(rest as real, bins as real, 0.0);
    QuotientCompares(rest as real, bins as real, 1.0);
    assert 0.0 < t < 1.0;
    ScaleLess(0.0, t, w);
    ScaleLess(t, 1.0, w);
  }

  lemma SameCell(lo: real, hi: real, ra: nat, rb: nat, bins: nat)
    requires lo < hi && ra < rb < bins
    ensures (if ra == 0 then lo else lo + (hi - lo) * (ra as real / bins as real)) < lo + (hi - lo) * (rb as real / bins as real)
  {
    Between(lo, hi, rb, bins);
    QuotientLess(ra as real, rb as real, bins as real);
    var x, y, w := ra as real / bins as real, rb as real / bins as real, hi - lo;
    ScaleLess(x, y, w);
    assert w * x < w * y;
  }

  lemma InterpolateBounds(s: seq<real>, at: nat, bins: nat)
    requires Sorted(s) && bins > 0 && FloorDiv(at, bins) < |s| && (Rest(at, bins) != 0 ==> FloorDiv(at, bins) + 1 < |s|)
    ensures var i, p := FloorDiv(at, bins), Interpolate(s, at, bins);
            && (Rest(at, bins) == 0 ==> p == s[i])
            && (Rest(at, bins) != 0 && s[i] == s[i + 1] ==> p == s[i])
            && (Rest(at, bins) != 0 && s[i] < s[i + 1] ==> s[i] < p < s[i + 1])
  {
    hide FloorDiv, Rest;
    var i, r := FloorDiv(at, bins), Rest(at, bins);
    if r > 0 && s[i] < s[i + 1] {
      Between(s[i], s[i + 1], r, bins);
      assert Interpolate(s, at, bins) == s[i] + (s[i + 1] - s[i]) * (r as real / bins as real);
    }
  }

  /** If no tie lies across the position of a percentile, value i reaches the percentile exactly when i
      reaches its position. */
  lemma PercentilePosition(s: seq<real>, j: nat, bins: nat, i: nat)
    requires Sorted(s) && bins > 0 && j <= bins && i < |s| && (j > 0 ==> Splits(s, Below(|s|, j, bins)))
    ensures s[i] >= Percentile(s, j, bins) <==> i >= Below(|s|, j, bins)
  {
    hide Times, FloorDiv, Rest, CeilDiv, Interpolate;
    var at := Times(j, |s| - 1);
    PositionInRange(|s| - 1, j, bins);
    CeilIsFloor(at, bins);
    InterpolateBounds(s, at, bins);
    if j == 0 { EndPercentiles(s, bins); }
  }

  lemma EndPercentiles(s: seq<real>, bins: nat)
    requires s != [] && bins > 0
    ensures Percentile(s, 0, bins) == s[0] && Below(|s|, 0, bins) == 0
    ensures Percentile(s, bins, bins) == s[|s|-1] && Below(|s|, bins, bins) == |s| - 1
  {
    hide Times, FloorDiv, Rest, CeilDiv;
    TimesSmall(|s| - 1);
    TimesSmall(bins);
    TimesSwap(bins, |s| - 1);
    WholeMultiple(|s| - 1, bins);
    WholeMultiple(0, bins);
  }

  /** A later position gives a larger value if no tie lies across it. */
  lemma InterpolateLess(s: seq<real>, a: nat, b: nat, bins: nat)
    requires Sorted(s) && bins > 0 && a < b && Splits(s, CeilDiv(b, bins))
    requires FloorDiv(a, bins) < |s| && (Rest(a, bins) != 0 ==> FloorDiv(a, bins) + 1 < |s|)
    requires FloorDiv(b, bins) < |s| && (Rest(b, bins) != 0 ==> FloorDiv(b, bins) + 1 < |s|)
    ensures Interpolate(s, a, bins) < Interpolate(s, b, bins)
  {
    hide Times, FloorDiv, Rest, CeilDiv;
    var i, k := FloorDiv(a, bins), FloorDiv(b, bins);
    FloorAndRest(a, bins);
    FloorAndRest(b, bins);
    CeilIsFloor(b, bins);
    QuotientsOrdered(i, Rest(a, bins), k, Rest(b, bins), bins);
    if i == k {
      SameCell(s[i], s[i + 1], Rest(a, bins), Rest(b, bins), bins);
    } else {
      hide Interpolate;
      InterpolateBounds(s, a, bins);
      InterpolateBounds(s, b, bins);
      assert s[i + 1] <= s[k];
    }
  }

  lemma InterpolateOrdered(s: seq<real>, a: nat, b: nat, bins: nat)
    requires Sorted(s) && bins > 0 && a <= b
    requires FloorDiv(a, bins) < |s| && (Rest(a, bins) != 0 ==> FloorDiv(a, bins) + 1 < |s|)
    requires FloorDiv(b, bins) < |s| && (Rest(b, bins) != 0 ==> FloorDiv(b, bins) + 1 < |s|)
    ensures Interpolate(s, a, bins) <= Interpolate(s, b, bins)
  {
    hide Times, FloorDiv, Rest;
    var i, k := FloorDiv(a, bins), FloorDiv(b, bins);
    FloorAndRest(a, bins);
    FloorAndRest(b, bins);
    QuotientsOrdered(i, Rest(a, bins), k, Rest(b, bins), bins);
    InterpolateBounds(s, a, bins);
    InterpolateBounds(s, b, bins);
    if i == k {
      if Rest(a, bins) < Rest(b, bins) && s[i] < s[i + 1] {
        SameCell(s[i], s[i + 1], Rest(a, bins), Rest(b, bins), bins);
      } else {
        hide Interpolate;
      }
    } else {
      hide Interpolate;
      assert s[i + 1] <= s[k];
    }
  }

  lemma PercentilesOrdered(s: seq<real>, j: nat, k: nat, bins: nat)
    requires Sorted(s) && s != [] && bins > 0 && j <= k <= bins
    ensures Percentile(s, j, bins) <= Percentile(s, k, bins)
  {
    hide Times, FloorDiv, Rest, CeilDiv, Interpolate;
    PositionInRange(|s| - 1, j, bins);
    PositionInRange(|s| - 1, k, bins);
    TimesLe(j, k, |s| - 1);
    InterpolateOrdered(s, Times(j, |s| - 1), Times(k, |s| - 1), bins);
  }

  /** The distinct values of a list between its first and its last. */
  lemma UniqueOfRange(ps: seq<real>)
    requires ps != [] && forall j :: 0 <= j < |ps| ==> ps[0] <= ps[j] <= ps[|ps|-1]
    ensures var u := Unique(ps);
            && Increasing(u) && u != [] && u[0] == ps[0] && u[|u|-1] == ps[|ps|-1]
            && (|u| < 2 <==> ps[0] == ps[|ps|-1])
            && forall x :: x in u <==> x in ps
  {
    UniqueIncreases(ps);
    var u := Unique(ps);
    hide Unique;
    assert ps[0] in u && ps[|ps|-1] in u;
    assert u[0] in ps && u[|u|-1] in ps;
    var a :| 0 <= a < |u| && u[a] == ps[0];
    var b :| 0 <= b < |u| && u[b] == ps[|ps|-1];
    assert u[0] <= u[a] && u[b] <= u[|u|-1];
  }

  /** x is one of the `bins` + 1 percentiles. */
  predicate IsPercentile(s: seq<real>, bins: nat, x: real)
    requires s != [] && bins > 0
  {
    exists j :: 0 <= j <= bins && x == Percentile(s, j, bins)
  }

  /** The edges e lie between the percentiles, with the ends moved out to 0 and 1 if need be. */
  ghost predicate StretchedOver(e: seq<real>, s: seq<real>, bins: nat)
    requires s != [] && bins > 0
  {
    var low, high := s[0], s[|s|-1];
    && |e| >= 2 && Increasing(e)
    && e[0] == (if low < 0.0 then low else 0.0) && e[|e|-1] == (if high > 1.0 then high else 1.0)
    && forall x: real :: Inside(e, x) <==> low < x < high && IsPercentile(s, bins, x)
  }

  predicate Inside(e: seq<real>, x: real)
    requires |e| >= 2
  {
    x in e[1..|e|-1]
  }

  /** The edges of a sample: evenly spaced ones from 0 to 1 if all values coincide; otherwise its distinct
      percentiles in order, the first lowered to 0 and the last raised to 1 if need be. */
  lemma EdgesExactly(reference: seq<real>, bins: nat)
    requires reference != [] && bins > 0
    ensures |Sort(reference)| == |reference|
    ensures var s, e := Sort(reference), Edges(reference, bins);
            && (s[0] == s[|s|-1] ==> |e| == bins + 1 && forall j :: 0 <= j <= bins ==> e[j] * bins as real == j as real)
            && (s[0] != s[|s|-1] ==> StretchedOver(e, s, bins))
  {
    hide Unique, Percentiles, Sort, StretchedOver, Edges, EvenEdges, Increasing, Min, Max;
    SortSorts(reference);
    EdgesAre(reference, bins);
    EdgesCover(reference, bins);
    var s := Sort(reference);
    PercentileRange(s, bins);
    UniqueOfRange(Percentiles(s, bins));
    var u := Unique(Percentiles(s, bins));
    if |u| < 2 {
      EvenSpacing(bins);
    } else {
      DistinctStretched(s, bins, u, Edges(reference, bins));
    }
  }

  lemma EdgesAre(reference: seq<real>, bins: nat)
    requires reference != [] && bins > 0
    ensures Sort(reference) != []
    ensures var u := Unique(Percentiles(Sort(reference), bins));
            Edges(reference, bins) == if |u| < 2 then EvenEdges(bins) else u[0 := Min(u[0], 0.0)][|u| - 1 := Max(u[|u|-1], 1.0)]
  {
    SortSorts(reference);
  }

  lemma EvenSpacing(bins: nat)
    requires bins > 0
    ensures |EvenEdges(bins)| == bins + 1 && forall j :: 0 <= j <= bins ==> EvenEdges(bins)[j] * bins as real == j as real
  {
    forall j | 0 <= j <= bins ensures EvenEdges(bins)[j] * bins as real == j as real {
      assert EvenEdges(bins)[j] == j as real / bins as real;
    }
  }

  lemma PercentileRange(s: seq<real>, bins: nat)
    requires Sorted(s) && s != [] && bins > 0
    ensures var ps := Percentiles(s, bins);
            && |ps| == bins + 1 && ps[0] == s[0] && ps[bins] == s[|s|-1]
            && (forall j :: 0 <= j < |ps| ==> ps[0] <= ps[j] <= ps[|ps|-1])
            && (forall x :: x in ps <==> IsPercentile(s, bins, x))
  {
    hide Percentile;
    EndPercentiles(s, bins);
    var ps := Percentiles(s, bins);
    forall j | 0 <= j < |ps| ensures ps[0] <= ps[j] <= ps[|ps|-1] {
      PercentilesOrdered(s, 0, j, bins);
      PercentilesOrdered(s, j, bins, bins);
    }
    forall x ensures x in ps <==> IsPercentile(s, bins, x) {
      if IsPercentile(s, bins, x) {
        var j :| 0 <= j <= bins && x == Percentile(s, j, bins);
        assert ps[j] == x;
      }
    }
  }

  lemma DistinctStretched(s: seq<real>, bins: nat, u: seq<real>, e: seq<real>)
    requires s != [] && bins > 0 && |u| >= 2 && Increasing(u) && Increasing(e) && u[0] == s[0] && u[|u|-1] == s[|s|-1]
    requires forall x :: x in u <==> IsPercentile(s, bins, x)
    requires e == u[0 := Min(u[0], 0.0)][|u| - 1 := Max(u[|u|-1], 1.0)]
    ensures StretchedOver(e, s, bins)
  {
    hide IsPercentile;
    StretchedMembers(u, Min(u[0], 0.0), Max(u[|u|-1], 1.0));
    forall x: real ensures Inside(e, x) <==> s[0] < x < s[|s|-1] && IsPercentile(s, bins, x) {
    }
  }

  lemma StretchedMembers(u: seq<real>, low: real, high: real)
    requires |u| >= 2 && Increasing(u)
    ensures var e := u[0 := low][|u| - 1 := high];
            |e| == |u| && e[0] == low && e[|e|-1] == high && forall x :: x in e[1..|e|-1] <==> x in u && u[0] < x < u[|u|-1]
  {
    var e := u[0 := low][|u| - 1 := high];
    assert e[1..|e|-1] == u[1..|u|-1];
    forall x ensures x in u[1..|u|-1] <==> x in u && u[0] < x < u[|u|-1] {
      if x in u[1..|u|-1] {
        var i :| 0 <= i < |u| - 2 && u[1..|u|-1][i] == x;
        assert u[i + 1] == x;
      }
      if x in u && u[0] < x < u[|u|-1] {
        var i :| 0 <= i < |u| && u[i] == x;
        assert u[1..|u|-1][i - 1] == x;
      }
    }
  }

  /** On values that lie on a line a percentile is the line at its position: interpolation is linear. */
  lemma PercentileOfLine(s: seq<real>, a: real, d: real, j: nat, bins: nat)
    requires s != [] && bins > 0 && j <= bins && forall i :: 0 <= i < |s| ==> s[i] == a + d * i as real
    ensures Percentile(s, j, bins) == a + d * ((j * (|s| - 1)) as real / bins as real)
  {
    PositionInRange(|s| - 1, j, bins);
    var at := Times(j, |s| - 1);
    assert at == j * (|s| - 1);
    hide Times, FloorDiv, Rest;
    FloorAndRest(at, bins);
    var i, w := FloorDiv(at, bins), Rest(at, bins) as real / bins as real;
    PositionSplits(at, bins);
    LineBetween(a, d, i as real, w);
    if Rest(at, bins) != 0 {
      assert s[i + 1] - s[i] == d;
    } else {
      assert w == 0.0;
    }
  }

  lemma PositionSplits(at: nat, bins: nat)
    requires bins > 0
    ensures at as real / bins as real == FloorDiv(at, bins) as real + Rest(at, bins) as real / bins as real
  {
    var q, r, d := FloorDiv(at, bins), Rest(at, bins), bins as real;
    FloorAndRest(at, bins);
    TimesAsReals(q, bins);
    hide Times, FloorDiv, Rest;
    var x, y := at as real / d, r as real / d;
    assert x * d == at as real && y * d == r as real;
    SumScaled(q as real, y, d);
    SameScaled(x, q as real + y, d);
  }

  lemma {:induction false} TimesAsReals(q: nat, d: nat)
    ensures Times(q, d) as real == q as real * d as real
    decreases q
  {
    hide Times;
    if q == 0 {
      TimesSmall(d);
    } else {
      TimesAsReals(q - 1, d);
      TimesNext(q - 1, d);
      SumScaled((q - 1) as real, 1.0, d as real);
    }
  }

  lemma SumScaled(x: real, y: real, d: real)
    ensures (x + y) * d == x * d + y * d
  {
  }

  lemma SameScaled(x: real, y: real, d: real)
    requires d > 0.0 && x * d == y * d
    ensures x == y
  {
    ScaleLess(x, y, d);
    ScaleLess(y, x, d);
  }

  lemma LineBetween(a: real, d: real, i: real, w: real)
    ensures a + d * (i + w) == (a + d * i) + d * w
  {
  }

  lemma PercentileLess(s: seq<real>, j: nat, bins: nat)
    requires Sorted(s) && bins > 0 && j < bins && TiesHarmless(s, bins)
    ensures Percentile(s, j, bins) < Percentile(s, j + 1, bins)
  {
    assert j + 1 < bins ==> Splits(s, Below(|s|, j + 1, bins));
    hide Times, FloorDiv, Rest, CeilDiv, Interpolate, Splits;
    if j + 1 < bins {
      var last := |s| - 1;
      PositionInRange(last, j, bins);
      PositionInRange(last, j + 1, bins);
      TimesLt(j, j + 1, last);
      InterpolateLess(s, Times(j, last), Times(j + 1, last), bins);
    } else {
      EndPercentiles(s, bins);
    }
  }

  lemma {:induction false} PercentilesIncrease(s: seq<real>, j: nat, k: nat, bins: nat)
    requires Sorted(s) && bins > 0 && TiesHarmless(s, bins) && j < k <= bins
    ensures Percentile(s, j, bins) < Percentile(s, k, bins)
    decreases k
  {
    hide Percentile, TiesHarmless;
    assert s != [] by { HarmlessIsLong(s, bins); }
    PercentileLess(s, k - 1, bins);
    if j < k - 1 { PercentilesIncrease(s, j, k - 1, bins); }
  }

  lemma HarmlessIsLong(s: seq<real>, bins: nat)
    requires bins > 0 && TiesHarmless(s, bins)
    ensures |s| >= 2
  {
  }

  /** A sample without ties is one of them. */
  lemma NoTiesIsHarmless(xs: seq<real>, bins: nat)
    requires NoTies(xs) && |xs| >= 2 && bins > 0
    ensures TiesHarmless(Sort(xs), bins)
  {
    SortSorts(xs);
    SortNoTies(xs);
    hide Sort;
    IncreasingIsHarmless(Sort(xs), bins);
  }

  lemma IncreasingIsHarmless(s: seq<real>, bins: nat)
    requires Increasing(s) && |s| >= 2 && bins > 0
    ensures TiesHarmless(s, bins)
  {
    hide Times, FloorDiv, Rest, CeilDiv, Interpolate;
    var last := |s| - 1;
    forall j: nat | 0 < j < bins ensures Splits(s, Below(|s|, j, bins)) {
      PositionInRange(last, j, bins);
      TimesLt(0, j, last);
      TimesSmall(last);
      TimesSmall(bins);
      CeilDivIsLeast(Times(j, last), bins, 0);
    }
    PositionInRange(last, bins - 1, bins);
    InterpolateBounds(s, Times(bins - 1, last), bins);
    TopPositionBelow(last, bins);
  }

  lemma TopPositionBelow(last: nat, bins: nat)
    requires last > 0 && bins > 0
    ensures FloorDiv(Times(bins - 1, last), bins) < last
  {
    hide Times, FloorDiv, Rest, CeilDiv;
    var at := Times(bins - 1, last);
    PositionInRange(last, bins - 1, bins);
    FloorAndRest(at, bins);
    TimesLt(bins - 1, bins, last);
    TimesSwap(bins, last);
  }

  lemma {:induction false} CountInterval(e: seq<real>, b: nat, s: seq<real>, lo: nat, hi: nat)
    requires b + 1 < |e| && lo <= hi
    requires forall i :: 0 <= i < |s| ==> (InBin(e, b, s[i]) <==> lo <= i < hi)
    ensures Count(e, b, s) == (if hi <= |s| then hi else |s|) - (if lo <= |s| then lo else |s|)
    decreases s
  {
    if s != [] { CountInterval(e, b, s[..|s|-1], lo, hi); }
  }

  lemma BelowOrdered(n: nat, b: nat, bins: nat)
    requires n > 0 && b < bins
    ensures Below(n, b, bins) <= Below(n, b + 1, bins) <= n - 1
  {
    hide Times, CeilDiv;
    TimesLe(b, b + 1, n - 1);
    CeilDivOrdered(Times(b, n - 1), Times(b + 1, n - 1), bins);
    PositionInRange(n - 1, b + 1, bins);
  }

  /** With harmless ties every percentile is an edge; only the two ends are stretched. */
  lemma EdgesWithoutMerging(reference: seq<real>, bins: nat)
    requires bins > 0 && TiesHarmless(Sort(reference), bins)
    ensures |Sort(reference)| == |reference| >= 2
    ensures var ps := Percentiles(Sort(reference), bins);
            Edges(reference, bins) == ps[0 := Min(ps[0], 0.0)][bins := Max(ps[bins], 1.0)]
  {
    SortSorts(reference);
    HarmlessIsLong(Sort(reference), bins);
    hide Percentile, TiesHarmless, Sort;
    var ps := Percentiles(Sort(reference), bins);
    forall j, k | 0 <= j < k < |ps| ensures ps[j] < ps[k] {
      PercentilesIncrease(Sort(reference), j, k, bins);
    }
    UniqueOfIncreasing(ps);
  }

  /** The i-th smallest value is in bin b exactly when i lies between the two percentile positions. */
  lemma BinHoldsInterval(reference: seq<real>, bins: nat, b: nat, i: nat)
    requires Probabilities(reference) && b < bins && i < |reference| && TiesHarmless(Sort(reference), bins)
    ensures |Sort(reference)| == |reference| && |Edges(reference, bins)| == bins + 1
    ensures var n := |reference|;
            InBin(Edges(reference, bins), b, Sort(reference)[i]) <==>
              Below(n, b, bins) <= i < if b == bins - 1 then n else Below(n, b + 1, bins)
  {
    hide Sort, Edges, InBin, Below, TiesHarmless, Percentile, Percentiles, Sorted, Within, Min, Max;
    var s := Sort(reference);
    SortSorts(reference);
    EdgesWithoutMerging(reference, bins);
    SortedWithin(reference, 0.0, 1.0);
    RankInBin(s, bins, b, i);
    PercentilesAt(s, bins, 0);
    PercentilesAt(s, bins, b);
    PercentilesAt(s, bins, b + 1);
    InStretchedBin(s, Percentiles(s, bins), b, bins, i);
  }

  lemma PercentilesAt(s: seq<real>, bins: nat, j: nat)
    requires s != [] && bins > 0 && j <= bins
    ensures |Percentiles(s, bins)| == bins + 1 && Percentiles(s, bins)[j] == Percentile(s, j, bins)
  {
  }

  /** Membership in a bin of the stretched edges, for a sorted sample of probabilities. */
  lemma InStretchedBin(s: seq<real>, ps: seq<real>, b: nat, bins: nat, i: nat)
    requires Sorted(s) && Within(s, 0.0, 1.0) && i < |s| && b < bins && |ps| == bins + 1 && ps[0] == s[0]
    ensures InBin(ps[0 := Min(ps[0], 0.0)][bins := Max(ps[bins], 1.0)], b, s[i]) <==> ps[b] <= s[i] && (b < bins - 1 ==> s[i] < ps[b+1])
  {
  }

  lemma RankInBin(s: seq<real>, bins: nat, b: nat, i: nat)
    requires Sorted(s) && i < |s| && b < bins && TiesHarmless(s, bins)
    ensures Percentile(s, 0, bins) == s[0]
    ensures var n := |s|;
            Percentile(s, b, bins) <= s[i] && (b < bins - 1 ==> s[i] < Percentile(s, b + 1, bins)) <==>
              Below(n, b, bins) <= i < if b == bins - 1 then n else Below(n, b + 1, bins)
  {
    assert b > 0 ==> Splits(s, Below(|s|, b, bins));
    assert b + 1 < bins ==> Splits(s, Below(|s|, b + 1, bins));
    hide Percentile, Splits, Below, TiesHarmless;
    EndPercentiles(s, bins);
    PercentilePosition(s, b, bins, i);
    if b + 1 < bins { PercentilePosition(s, b + 1, bins, i); }
  }

  lemma SortedWithin(xs: seq<real>, low: real, high: real)
    requires Within(xs, low, high)
    ensures Within(Sort(xs), low, high)
  {
    SortSorts(xs);
    forall i | 0 <= i < |Sort(xs)| ensures low <= Sort(xs)[i] <= high {
      assert Sort(xs)[i] in multiset(xs);
    }
  }

  /** With harmless ties there are as many bins as requested, and bin b holds the values between its two
      percentile positions; the last bin also holds the largest value. */
  lemma QuantileBinsAreBalanced(reference: seq<real>, bins: nat, b: nat)
    requires Probabilities(reference) && b < bins && TiesHarmless(Sort(reference), bins)
    ensures var e, n := Edges(reference, bins), |reference|;
            && |e| == bins + 1
            && Count(e, b, reference) == Below(n, b + 1, bins) - Below(n, b, bins) + if b == bins - 1 then 1 else 0
  {
    var s, e, n := Sort(reference), Edges(reference, bins), |reference|;
    BinHoldsInterval(reference, bins, b, 0);
    EndPercentiles(s, bins);
    hide Edges, Sort, Count, InBin, Percentile, TiesHarmless, Below;
    CountSort(e, b, reference);
    BelowOrdered(n, b, bins);
    var low, high := Below(n, b, bins), if b == bins - 1 then n else Below(n, b + 1, bins);
    forall i | 0 <= i < |s| ensures InBin(e, b, s[i]) <==> low <= i < high {
      BinHoldsInterval(reference, bins, b, i);
    }
    CountInterval(e, b, s, low, high);
  }

  // ---------- when the mass is equal ----------

  /** Every bin holds equally many values of the sample. */
  ghost predicate EqualMass(e: seq<real>, xs: seq<real>) {
    forall b, c :: 0 <= b < |e| - 1 && 0 <= c < |e| - 1 ==> Count(e, b, xs) == Count(e, c, xs)
  }

  lemma {:induction false} CountsAreMultiple(e: seq<real>, m: nat, xs: seq<real>)
    requires 2 <= |e| && m < |e| && EqualMass(e, xs)
    ensures CountUpTo(e, m, xs) == Times(m, Count(e, 0, xs))
    decreases m
  {
    hide Count, Times;
    TimesSmall(Count(e, 0, xs));
    if m > 0 {
      CountsAreMultiple(e, m - 1, xs);
      TimesNext(m - 1, Count(e, 0, xs));
    }
  }

  /** Ties or not: equal mass needs a sample size that the number of bins divides. */
  lemma EqualMassDivides(e: seq<real>, xs: seq<real>)
    requires |e| >= 2 && Increasing(e) && Within(xs, e[0], e[|e|-1]) && EqualMass(e, xs)
    ensures |xs| == Times(|e| - 1, Count(e, 0, xs)) && Rest(|xs|, |e| - 1) == 0
  {
    hide Times, FloorDiv, Rest, CeilDiv, Count;
    CountsAddUp(e, xs);
    CountsAreMultiple(e, |e| - 1, xs);
    TimesSwap(|e| - 1, Count(e, 0, xs));
    WholeMultiple(Count(e, 0, xs), |e| - 1);
  }

  /** Where a percentile falls among n values, by quotient and rest of n - 1. */
  lemma BelowSplits(n: nat, b: nat, bins: nat, q: nat, r: nat)
    requires n > 0 && bins > 0 && n - 1 == Times(q, bins) + r
    ensures Below(n, b, bins) == Times(b, q) + CeilDiv(Times(b, r), bins)
  {
    hide Times, CeilDiv;
    TimesSwap(b, n - 1);
    TimesAdd(Times(q, bins), r, b);
    TimesSwap(Times(q, bins), b);
    TimesSwap(r, b);
    TimesAssociate(b, q, bins);
    CeilDivShift(Times(b, q), Times(b, r), bins);
  }

  /** The rest's share grows by 0 or 1 with b. */
  lemma RestGrows(b: nat, bins: nat, r: nat)
    requires r <= bins && bins > 0
    ensures CeilDiv(Times(b, r), bins) <= CeilDiv(Times(b + 1, r), bins) <= CeilDiv(Times(b, r), bins) + 1
  {
    hide Times, CeilDiv;
    TimesNext(b, r);
    CeilDivOrdered(Times(b, r), Times(b + 1, r), bins);
    var q := CeilDiv(Times(b, r), bins);
    CeilDivIsLeast(Times(b, r), bins, q);
    TimesNext(q, bins);
    CeilDivIsLeast(Times(b + 1, r), bins, q + 1);
  }

  /** In the last bin it does not grow. */
  lemma RestStays(bins: nat, r: nat)
    requires r < bins
    ensures CeilDiv(Times(bins - 1, r), bins) == r && CeilDiv(Times(bins, r), bins) == r
  {
    hide Times, FloorDiv, Rest, CeilDiv;
    TimesSwap(bins, r);
    WholeMultiple(r, bins);
    TimesNext(bins - 1, r);
    if r > 0 { TimesNext(r - 1, bins); }
    CeilDivIs(Times(bins - 1, r), bins, r);
  }

  /** If the rest is bins - 1, its share is b. */
  lemma RestIsIndex(b: nat, bins: nat)
    requires b < bins
    ensures CeilDiv(Times(b, bins - 1), bins) == b
  {
    hide Times, CeilDiv;
    TimesSwap(b, bins - 1);
    TimesSwap(b, bins);
    TimesNext(bins - 1, b);
    if b > 0 { TimesNext(b - 1, bins); }
    CeilDivIs(Times(b, bins - 1), bins, b);
  }

  lemma BinSize(n: nat, b: nat, bins: nat)
    requires n > 0 && b < bins
    ensures var size := Below(n, b + 1, bins) - Below(n, b, bins) + if b == bins - 1 then 1 else 0;
            && size in {FloorDiv(n, bins), CeilDiv(n, bins)}
            && (b == bins - 1 ==> size == CeilDiv(n, bins))
  {
    hide Times, FloorDiv, Rest, CeilDiv, Below;
    FloorAndRest(n - 1, bins);
    var q, r := FloorDiv(n - 1, bins), Rest(n - 1, bins);
    BelowSplits(n, b, bins, q, r);
    BelowSplits(n, b + 1, bins, q, r);
    TimesNext(b, q);
    FloorAndCeil(n, bins, q, r);
    RestGrows(b, bins, r);
    if b == bins - 1 {
      RestStays(bins, r);
    } else if r == bins - 1 {
      RestIsIndex(b, bins);
      RestIsIndex(b + 1, bins);
    }
  }

  /** Then every bin holds n / bins values, rounded down or up, and the last one rounded up. */
  lemma BinsHoldFloorOrCeil(reference: seq<real>, bins: nat, b: nat)
    requires Probabilities(reference) && b < bins && TiesHarmless(Sort(reference), bins)
    ensures |Edges(reference, bins)| == bins + 1
    ensures Count(Edges(reference, bins), b, reference) in {|reference| / bins, CeilDiv(|reference|, bins)}
    ensures b == bins - 1 ==> Count(Edges(reference, bins), b, reference) == CeilDiv(|reference|, bins)
  {
    assert FloorDiv(|reference|, bins) == |reference| / bins;
    hide Edges, Count, Below, FloorDiv, CeilDiv, TiesHarmless;
    QuantileBinsAreBalanced(reference, bins, b);
    BinSize(|reference|, b, bins);
  }

  lemma Another(u: seq<real>, x: real) returns (v: real)
    requires Increasing(u) && |u| >= 2
    ensures v in u && v != x
  {
    v := if u[0] == x then u[1] else u[0];
  }

  /** A single value gives the evenly spaced edges. */
  lemma EdgesOfOne(x: real, bins: nat)
    requires bins > 0
    ensures Edges([x], bins) == EvenEdges(bins)
  {
    SortSorts([x]);
    assert Sort([x]) == [x];
    var ps := Percentiles([x], bins);
    forall j | 0 <= j <= bins ensures ps[j] == x {
      OnePercentile(x, j, bins);
    }
    UniqueIncreases(ps);
    var u := Unique(ps);
    if |u| >= 2 {
      var v := Another(u, x);
      assert false;
    }
  }

  lemma OnePercentile(x: real, j: nat, bins: nat)
    requires bins > 0 && j <= bins
    ensures Percentile([x], j, bins) == x
  {
    PositionInRange(0, j, bins);
    hide Times, FloorDiv, Rest, CeilDiv;
  }

  lemma EqualMassWhenDivided(reference: seq<real>, bins: nat)
    requires Probabilities(reference) && bins > 0 && Rest(|reference|, bins) == 0 && TiesHarmless(Sort(reference), bins)
    ensures EqualMass(Edges(reference, bins), reference)
  {
    assert FloorDiv(|reference|, bins) == |reference| / bins;
    hide Edges, Count, FloorDiv, Rest, CeilDiv, TiesHarmless;
    CeilIsFloor(|reference|, bins);
    BinsHoldFloorOrCeil(reference, bins, 0);
    forall b | 0 <= b < bins ensures Count(Edges(reference, bins), b, reference) == CeilDiv(|reference|, bins) {
      BinsHoldFloorOrCeil(reference, bins, b);
    }
  }

  /** A single bin, a single value, or harmless ties. */
  predicate EvenlyCut(reference: seq<real>, bins: nat)
    requires bins > 0
  {
    bins == 1 || |reference| == 1 || TiesHarmless(Sort(reference), bins)
  }

  /** There are then as many bins as requested. */
  lemma AllBinsThere(reference: seq<real>, bins: nat)
    requires Probabilities(reference) && bins > 0 && EvenlyCut(reference, bins)
    ensures |Edges(reference, bins)| == bins + 1
  {
    if |reference| == 1 {
      assert reference == [reference[0]];
      EdgesOfOne(reference[0], bins);
    } else if bins == 1 {
      EdgesCover(reference, 1);
      SortSorts(reference);
      UniqueShortens(Percentiles(Sort(reference), 1));
    } else {
      BinsHoldFloorOrCeil(reference, bins, 0);
    }
  }

  lemma {:induction false} UniqueShortens(xs: seq<real>)
    ensures |Unique(xs)| <= |xs|
    decreases xs
  {
    if xs != [] {
      UniqueShortens(xs[1..]);
      InsertNewLength(xs[0], Unique(xs[1..]));
    }
  }

  lemma {:induction false} InsertNewLength(x: real, ys: seq<real>)
    ensures |InsertNew(x, ys)| <= |ys| + 1
    decreases ys
  {
    if ys != [] { InsertNewLength(x, ys[1..]); }
  }

  /** One value in several bins: the number of bins does not divide 1. */
  lemma RestOfOne(bins: nat)
    requires bins > 1
    ensures Rest(1, bins) == 1
  {
    hide Times, FloorDiv, Rest;
    TimesSmall(bins);
    FloorIs(1, bins, 0, 1);
  }

  lemma EqualMassNeedsDivision(reference: seq<real>, bins: nat)
    requires Probabilities(reference) && bins > 0 && EvenlyCut(reference, bins) && EqualMass(Edges(reference, bins), reference)
    ensures Rest(|reference|, bins) == 0
  {
    hide Count, TiesHarmless, EvenlyCut, Rest;
    AllBinsThere(reference, bins);
    EdgesCover(reference, bins);
    hide Edges, EqualMass;
    EqualMassDivides(Edges(reference, bins), reference);
  }

  lemma DivisionGivesEqualMass(reference: seq<real>, bins: nat)
    requires Probabilities(reference) && bins > 0 && EvenlyCut(reference, bins) && Rest(|reference|, bins) == 0
    ensures EqualMass(Edges(reference, bins), reference)
  {
    AllBinsThere(reference, bins);
    hide Count, TiesHarmless, Edges, Rest;
    if bins > 1 {
      RestOfOne(bins);
      EqualMassWhenDivided(reference, bins);
    }
  }

  /** The bins hold equal reference mass, as they are meant to, exactly when their number divides the
      sample size. */
  lemma EqualMassExactly(reference: seq<real>, bins: nat)
    requires Probabilities(reference) && bins > 0 && EvenlyCut(reference, bins)
    ensures EqualMass(Edges(reference, bins), reference) <==> |reference| % bins == 0
  {
    assert Rest(|reference|, bins) == |reference| % bins;
    hide EqualMass, EvenlyCut, Edges, Rest;
    if Rest(|reference|, bins) == 0 {
      DivisionGivesEqualMass(reference, bins);
    } else if EqualMass(Edges(reference, bins), reference) {
      EqualMassNeedsDivision(reference, bins);
    }
  }

  // ---------- the method ----------

  /** None is numpy's error or NaN: without reference values there are no percentiles, and without recent
      ones a bin has no share. A request for no bins gives a single edge, and a sum over nothing. */
  method ComputePsi(reference: seq<real>, recent: seq<real>, bins: nat, ln: real -> real) returns (psi: Option<real>)
    ensures psi.Some? <==> reference != [] && (recent != [] || bins == 0)
    ensures psi.Some? && bins == 0 ==> psi.value == 0.0
    ensures psi.Some? && bins > 0 ==> psi.value == Psi(reference, recent, bins, ln)
    ensures psi.Some? && bins > 0 && IsLog(ln) && Additive(ln) ==>
              var e := Edges(reference, bins);
              && |e| >= 2
              && psi.value == RelativeEntropy(e, |e| - 1, recent, reference, ln) + RelativeEntropy(e, |e| - 1, reference, recent, ln)
  {
    if |reference| == 0 {
      return None;
    }
    if bins == 0 {
      return Some(0.0);
    }
    if |recent| == 0 {
      return None;
    }
    EdgesCover(reference, bins);
    var edges := ComputeEdges(reference, bins);
    var sum := SumTerms(edges, reference, recent, ln);
    psi := Some(sum);
    if IsLog(ln) && Additive(ln) {
      hide IsLog, Additive, Edges, RelativeEntropy;
      PsiIsTwoEntropies(reference, recent, bins, ln);
    }
  }

  method SumTerms(edges: array<real>, reference: seq<real>, recent: seq<real>, ln: real -> real) returns (psi: real)
    requires edges.Length >= 2 && reference != [] && recent != []
    ensures psi == PsiUpTo(edges[..], edges.Length - 1, reference, recent, ln)
  {
    hide Share, Count;
    psi := 0.0;
    var b := 0;
    while b < edges.Length - 1
      invariant 0 <= b <= edges.Length - 1
      invariant psi == PsiUpTo(edges[..], b, reference, recent, ln)
    {
      var p := ComputeShare(edges, b, reference);
      var q := ComputeShare(edges, b, recent);
      SharePositive(edges[..], b, reference);
      SharePositive(edges[..], b, recent);
      psi := psi + (q - p) * ln(q / p);
      b := b + 1;
    }
  }

  /** The edge array, its two ends overwritten in place. */
  method ComputeEdges(reference: seq<real>, bins: nat) returns (edges: array<real>)
    requires reference != [] && bins > 0
    ensures fresh(edges) && edges[..] == Edges(reference, bins)
  {
    SortSorts(reference);
    var u := Unique(Percentiles(Sort(reference), bins));
    if |u| < 2 {
      var even := EvenEdges(bins);
      edges := new real[|even|](i requires 0 <= i < |even| => even[i]);
      assert edges[..] == even;
    } else {
      edges := new real[|u|](i requires 0 <= i < |u| => u[i]);
      assert edges[..] == u;
      edges[0] := Min(edges[0], 0.0);
      edges[edges.Length - 1] := Max(edges[edges.Length - 1], 1.0);
    }
  }

  method ComputeShare(edges: array<real>, b: nat, xs: seq<real>) returns (p: real)
    requires b + 1 < edges.Length && xs != []
    ensures p == Share(edges[..], b, xs)
  {
    var e, count, i := edges[..], 0, 0;
    assert xs[..0] == [];
    while i < |xs|
      invariant 0 <= i <= |xs| && count == Count(e, b, xs[..i])
    {
      assert xs[..i+1][..i] == xs[..i];
      if InBin(e, b, xs[i]) { count := count + 1; }
      i := i + 1;
    }
    assert xs[..i] == xs;
    p := count as real / |xs| as real;
    if p == 0.0 { p := EPS; }
  }
}
