/** Purged time-series cross-validation: training/src/splits.py, with the index arithmetic of
    scikit-learn's TimeSeriesSplit written out. Times are seconds, in row order, sorted or not. */
module PurgedSplit {
  import opened Rounding

  datatype Fold = Fold(index: nat, train: seq<nat>, val: seq<nat>)

  /** `dropped` lists the folds warned about one by one; `allDropped` is the final warning. */
  datatype Result = ValueError | Folds(folds: seq<Fold>, dropped: seq<nat>, allDropped: bool)

  const SECONDS_PER_DAY := 86400

  // ---------- TimeSeriesSplit ----------

  /** Rows per validation block. */
  function BlockSize(n: nat, k: nat): nat {
    n / (k + 1)
  }

  /** The first row of validation block i; the k blocks end at row n, and rows before it train. */
  function BlockStart(n: nat, k: nat, i: nat): int {
    n - (k - i) * BlockSize(n, k)
  }

  function Range(lo: nat, hi: nat): (r: seq<nat>)
    ensures |r| == (if lo <= hi then hi - lo else 0) && forall a :: 0 <= a < |r| ==> r[a] == lo + a
  {
    if lo < hi then seq(hi - lo, a requires 0 <= a => lo + a) else []
  }

  lemma RangeExactly(n: nat)
    ensures forall t: nat :: t in Range(0, n) <==> t < n
  {
    forall t: nat ensures t in Range(0, n) <==> t < n {
      assert t < n ==> Range(0, n)[t] == t;
    }
  }

  /** The block size is the number of rows over the number of blocks and the first training prefix, rounded
      down; so that prefix is at least one block long, and at most k rows longer. */
  lemma BlockSizeExactly(n: nat, k: nat)
    ensures (k + 1) * BlockSize(n, k) <= n < (k + 1) * (BlockSize(n, k) + 1)
    ensures BlockSize(n, k) <= BlockStart(n, k, 0) <= BlockSize(n, k) + k
  {
    var b := BlockSize(n, k);
    FloorAndRest(n, k + 1);
    assert FloorDiv(n, k + 1) == b && Times(b, k + 1) == (k + 1) * b;
    assert (k + 1) * b == k * b + b && (k + 1) * (b + 1) == (k + 1) * b + k + 1;
    hide FloorDiv, Times, BlockSize;
  }

  lemma BlocksTile(n: nat, k: nat, i: nat)
    requires k >= 1 && n >= k + 1 && i <= k
    ensures BlockSize(n, k) >= 1
    ensures 1 <= BlockStart(n, k, i) <= n && BlockStart(n, k, k) == n
    ensures BlockStart(n, k, i + 1) == BlockStart(n, k, i) + BlockSize(n, k)
  {
    var b := BlockSize(n, k);
    assert b * (k + 1) <= n;
    assert (k - i) * b <= k * b;
    assert (k - i) * b == (k - (i + 1)) * b + b;
  }

  lemma {:induction false} BlocksGrow(n: nat, k: nat, i: nat, j: nat)
    requires k >= 1 && n >= k + 1 && i < j <= k
    ensures BlockStart(n, k, i) + BlockSize(n, k) <= BlockStart(n, k, j)
    decreases j
  {
    BlocksTile(n, k, j - 1);
    if i < j - 1 { BlocksGrow(n, k, i, j - 1); }
  }

  // ---------- the purge ----------

  function MaxOf(xs: seq<int>): int
    requires xs != []
  {
    if |xs| == 1 then xs[0]
    else var m := MaxOf(xs[..|xs|-1]); if xs[|xs|-1] > m then xs[|xs|-1] else m
  }

  lemma {:induction false} MaxOfBounds(xs: seq<int>, x: int)
    requires xs != []
    ensures x >= MaxOf(xs) <==> forall i :: 0 <= i < |xs| ==> x >= xs[i]
    decreases xs
  {
    if |xs| > 1 {
      var init := xs[..|xs|-1];
      MaxOfBounds(init, x);
      assert (forall i :: 0 <= i < |xs| ==> x >= xs[i]) <==> (forall i :: 0 <= i < |init| ==> x >= init[i]) && x >= xs[|xs|-1];
    }
  }

  /** The rows in [lo, hi) whose time is at least `cutoff`, in order. */
  function Purge(times: seq<int>, cutoff: int, lo: nat, hi: nat): seq<nat>
    requires lo <= hi <= |times|
    decreases hi
  {
    if lo == hi then []
    else Purge(times, cutoff, lo, hi - 1) + if times[hi-1] >= cutoff then [hi - 1] else []
  }

  lemma {:induction false} PurgeExactly(times: seq<int>, cutoff: int, lo: nat, hi: nat)
    requires lo <= hi <= |times|
    ensures forall r :: r in Purge(times, cutoff, lo, hi) <==> lo <= r < hi && times[r] >= cutoff
    ensures forall a, b :: 0 <= a < b < |Purge(times, cutoff, lo, hi)| ==>
              Purge(times, cutoff, lo, hi)[a] < Purge(times, cutoff, lo, hi)[b]
    decreases hi
  {
    if lo < hi {
      PurgeExactly(times, cutoff, lo, hi - 1);
      var before := Purge(times, cutoff, lo, hi - 1);
      assert forall a :: 0 <= a < |before| ==> before[a] in before;
    }
  }

  function FoldOf(times: seq<int>, k: nat, gap: int, i: nat): Fold
    requires k >= 1 && |times| >= k + 1 && i < k
  {
    BlocksTile(|times|, k, i);
    BlocksGrow(|times|, k, i, k);
    var start := BlockStart(|times|, k, i);
    Fold(i, Range(0, start), Purge(times, MaxOf(times[..start]) + gap, start, start + BlockSize(|times|, k)))
  }

  /** The folds yielded among the first m. */
  function Yielded(times: seq<int>, k: nat, gap: int, m: nat): seq<Fold>
    requires k >= 1 && |times| >= k + 1 && m <= k
  {
    if m == 0 then []
    else
      var f := FoldOf(times, k, gap, m - 1);
      Yielded(times, k, gap, m - 1) + if f.val == [] then [] else [f]
  }

  function Skipped(times: seq<int>, k: nat, gap: int, m: nat): seq<nat>
    requires k >= 1 && |times| >= k + 1 && m <= k
  {
    if m == 0 then []
    else Skipped(times, k, gap, m - 1) + if FoldOf(times, k, gap, m - 1).val == [] then [m - 1] else []
  }

  /** The generator run to its end. The library refuses fewer than two folds or fewer rows than folds
      plus one. */
  method Split(times: seq<int>, k: int, gapDays: int) returns (r: Result)
    ensures r.ValueError? <==> k <= 1 || k + 1 > |times|
    ensures r.Folds? ==>
              && r.folds == Yielded(times, k, gapDays * 86400, k)
              && r.dropped == Skipped(times, k, gapDays * 86400, k)
              && (r.allDropped <==> |r.dropped| == k)
    ensures r.Folds? && InTimeOrder(times) && gapDays <= 0 ==>
              ValidatesOnBlocks(r.folds, |times|, k) && r.dropped == []
  {
    if k <= 1 || k + 1 > |times| {
      return ValueError;
    }
    var gap := gapDays * SECONDS_PER_DAY;
    hide InTimeOrder, ValidatesOnBlocks, Yielded, Skipped;
    if InTimeOrder(times) && gap <= 0 {
      NoGapOutcome(times, k, gap);
    }
    var folds, dropped, skipped := AllFolds(times, k, gap);
    r := Folds(folds, dropped, skipped == k);
  }

  /** The generator's loop. */
  method AllFolds(times: seq<int>, k: nat, gap: int) returns (folds: seq<Fold>, dropped: seq<nat>, skipped: nat)
    requires k >= 1 && |times| >= k + 1
    ensures folds == Yielded(times, k, gap, k) && dropped == Skipped(times, k, gap, k) && skipped == |dropped|
  {
    folds, dropped, skipped := [], [], 0;
    var i := 0;
    while i < k
      invariant 0 <= i <= k
      invariant folds == Yielded(times, k, gap, i) && dropped == Skipped(times, k, gap, i)
      invariant skipped == |dropped|
    {
      hide FoldOf;
      var f := PurgedFold(times, k, gap, i);
      if |f.val| == 0 {
        dropped := dropped + [i];
        skipped := skipped + 1;
      } else {
        folds := folds + [f];
      }
      i := i + 1;
    }
  }

  /** One turn of the generator's loop. */
  method PurgedFold(times: seq<int>, k: nat, gap: int, i: nat) returns (f: Fold)
    requires k >= 1 && |times| >= k + 1 && i < k
    ensures f == FoldOf(times, k, gap, i)
  {
    BlocksTile(|times|, k, i);
    BlocksGrow(|times|, k, i, k);
    var start := BlockStart(|times|, k, i);
    var trainMax := LatestTime(times, start);
    var val := PurgeBlock(times, trainMax + gap, start, start + BlockSize(|times|, k));
    f := Fold(i, Range(0, start), val);
  }

  /** `transaction_dt.iloc[train_idx].max()`. */
  method LatestTime(times: seq<int>, end: nat) returns (m: int)
    requires 1 <= end <= |times|
    ensures m == MaxOf(times[..end])
  {
    m := times[0];
    var i := 1;
    while i < end
      invariant 1 <= i <= end && m == MaxOf(times[..i])
    {
      assert times[..i+1][..i] == times[..i];
      if times[i] > m { m := times[i]; }
      i := i + 1;
    }
  }

  /** `val_idx[val_mask.values]`. */
  method PurgeBlock(times: seq<int>, cutoff: int, lo: nat, hi: nat) returns (val: seq<nat>)
    requires lo <= hi <= |times|
    ensures val == Purge(times, cutoff, lo, hi)
  {
    val := [];
    var r := lo;
    while r < hi
      invariant lo <= r <= hi && val == Purge(times, cutoff, lo, r)
    {
      if times[r] >= cutoff { val := val + [r]; }
      r := r + 1;
    }
  }

  // ---------- main results ----------

  predicate InTimeOrder(times: seq<int>) {
    forall a, b :: 0 <= a <= b < |times| ==> times[a] <= times[b]
  }

  lemma {:induction false} PurgesNothing(times: seq<int>, cutoff: int, lo: nat, hi: nat)
    requires lo <= hi <= |times| && forall r :: lo <= r < hi ==> times[r] >= cutoff
    ensures |Purge(times, cutoff, lo, hi)| == hi - lo
    decreases hi
  {
    if lo < hi { PurgesNothing(times, cutoff, lo, hi - 1); }
  }

  /** On sorted times a gap of zero or less purges nothing: each fold validates on its whole block. */
  lemma NoGapKeepsBlock(times: seq<int>, k: nat, gap: int, i: nat)
    requires k >= 1 && |times| >= k + 1 && i < k && InTimeOrder(times) && gap <= 0
    ensures |FoldOf(times, k, gap, i).val| == BlockSize(|times|, k) >= 1
  {
    BlocksTile(|times|, k, i);
    BlocksGrow(|times|, k, i, k);
    var start, size := BlockStart(|times|, k, i), BlockSize(|times|, k);
    var f := FoldOf(times, k, gap, i);
    assert f.val == Purge(times, MaxOf(times[..start]) + gap, start, start + size);
    hide FoldOf, BlockStart, BlockSize;
    forall r | start <= r < start + size ensures times[r] >= MaxOf(times[..start]) + gap {
      MaxOfBounds(times[..start], times[r]);
      assert forall t :: 0 <= t < start ==> times[..start][t] == times[t];
    }
    PurgesNothing(times, MaxOf(times[..start]) + gap, start, start + size);
  }

  /** So all k folds are yielded, each with n / (k + 1) validation rows. */
  lemma {:induction false} NoGapYieldsAll(times: seq<int>, k: nat, gap: int, m: nat)
    requires k >= 1 && |times| >= k + 1 && m <= k && InTimeOrder(times) && gap <= 0
    ensures |Yielded(times, k, gap, m)| == m && Skipped(times, k, gap, m) == []
    ensures forall f :: f in Yielded(times, k, gap, m) ==> |f.val| == BlockSize(|times|, k)
    decreases m
  {
    hide FoldOf, BlockSize, InTimeOrder;
    if m > 0 {
      NoGapYieldsAll(times, k, gap, m - 1);
      NoGapKeepsBlock(times, k, gap, m - 1);
    }
  }

  /** The outcome of a split, by rows alone: every fold validates on n / (k + 1) rows. */
  predicate ValidatesOnBlocks(folds: seq<Fold>, n: nat, k: nat) {
    |folds| == k && forall f :: f in folds ==> (k + 1) * |f.val| <= n < (k + 1) * (|f.val| + 1)
  }

  lemma NoGapOutcome(times: seq<int>, k: nat, gap: int)
    requires k >= 1 && |times| >= k + 1 && InTimeOrder(times) && gap <= 0
    ensures ValidatesOnBlocks(Yielded(times, k, gap, k), |times|, k) && Skipped(times, k, gap, k) == []
  {
    hide BlockSize, InTimeOrder, Yielded, Skipped;
    NoGapYieldsAll(times, k, gap, k);
    BlockSizeExactly(|times|, k);
  }

  predicate InBlock(n: nat, k: nat, i: nat, r: nat) {
    BlockStart(n, k, i) <= r < BlockStart(n, k, i) + BlockSize(n, k)
  }

  /** No leakage and nothing lost: a fold trains on a non-empty prefix of the rows, and validates on
      exactly the rows of its block that come at least the gap after every training row. */
  lemma FoldExactly(times: seq<int>, k: nat, gap: int, i: nat, r: nat)
    requires k >= 1 && |times| >= k + 1 && i < k
    ensures var f := FoldOf(times, k, gap, i);
            && f.train == Range(0, |f.train|) && 1 <= |f.train| == BlockStart(|times|, k, i)
            && (r in f.val <==> InBlock(|times|, k, i, r) && r < |times| && forall t :: t in f.train ==> t < |times| && times[r] >= times[t] + gap)
            && (r in f.val ==> r >= |f.train|)
  {
    BlocksTile(|times|, k, i);
    BlocksGrow(|times|, k, i, k);
    var start := BlockStart(|times|, k, i);
    var stop := start + BlockSize(|times|, k);
    var f := FoldOf(times, k, gap, i);
    assert f == Fold(i, Range(0, start), Purge(times, MaxOf(times[..start]) + gap, start, stop));
    hide FoldOf, BlockStart, BlockSize;
    PurgeExactly(times, MaxOf(times[..start]) + gap, start, stop);
    RangeExactly(start);
    if r < |times| {
      MaxOfBounds(times[..start], times[r] - gap);
      assert forall t :: 0 <= t < start ==> times[..start][t] == times[t];
    }
  }

  lemma FoldHasItsIndex(times: seq<int>, k: nat, gap: int, i: nat)
    requires k >= 1 && |times| >= k + 1 && i < k
    ensures FoldOf(times, k, gap, i).index == i
  {
  }

  lemma {:induction false} YieldedInOrder(times: seq<int>, k: nat, gap: int, m: nat)
    requires k >= 1 && |times| >= k + 1 && m <= k
    ensures forall f :: f in Yielded(times, k, gap, m) ==> f.index < m && f.val != [] && f == FoldOf(times, k, gap, f.index)
    ensures forall a, b :: 0 <= a < b < |Yielded(times, k, gap, m)| ==> Yielded(times, k, gap, m)[a].index < Yielded(times, k, gap, m)[b].index
    decreases m
  {
    hide FoldOf;
    if m > 0 {
      YieldedInOrder(times, k, gap, m - 1);
      var before := Yielded(times, k, gap, m - 1);
      assert forall a :: 0 <= a < |before| ==> before[a] in before;
      FoldHasItsIndex(times, k, gap, m - 1);
    }
  }

  lemma {:induction false} SkippedExactly(times: seq<int>, k: nat, gap: int, m: nat)
    requires k >= 1 && |times| >= k + 1 && m <= k
    ensures |Yielded(times, k, gap, m)| + |Skipped(times, k, gap, m)| == m
    ensures forall i :: 0 <= i < m ==> (i in Skipped(times, k, gap, m) <==> FoldOf(times, k, gap, i).val == [])
    ensures forall i :: i in Skipped(times, k, gap, m) ==> i < m
    decreases m
  {
    hide FoldOf;
    if m > 0 { SkippedExactly(times, k, gap, m - 1); }
  }

  /** Any two yielded folds, in the order they are yielded: the training rows strictly grow, and every
      validation row of the earlier fold is a training row of the later one, so validation sets are
      disjoint and move forward. */
  lemma FoldsMoveForward(times: seq<int>, k: nat, gap: int, a: nat, b: nat)
    requires k >= 1 && |times| >= k + 1 && a < b < |Yielded(times, k, gap, k)|
    ensures var fs := Yielded(times, k, gap, k);
            && |fs[a].train| < |fs[b].train| && fs[a].train <= fs[b].train
            && (forall r :: r in fs[a].val ==> r in fs[b].train)
            && (forall r, q :: r in fs[a].val && q in fs[b].val ==> r < q)
  {
    YieldedInOrder(times, k, gap, k);
    var fs := Yielded(times, k, gap, k);
    assert fs[a] in fs && fs[b] in fs;
    var i, j := fs[a].index, fs[b].index;
    BlocksTile(|times|, k, i);
    BlocksGrow(|times|, k, i, j);
    FoldExactly(times, k, gap, i, 0);
    FoldExactly(times, k, gap, j, 0);
    forall r | r in fs[a].val ensures r in fs[b].train && r < |fs[b].train| {
      FoldExactly(times, k, gap, i, r);
      assert fs[b].train[r] == r;
    }
    forall q | q in fs[b].val ensures q >= |fs[b].train| {
      FoldExactly(times, k, gap, j, q);
    }
  }

  /** Yielded plus dropped folds make k, a fold is dropped exactly when its validation set is empty, and
      the final warning fires exactly when nothing was yielded. */
  lemma EveryFoldAccountedFor(times: seq<int>, k: nat, gap: int)
    requires k >= 1 && |times| >= k + 1
    ensures |Yielded(times, k, gap, k)| + |Skipped(times, k, gap, k)| == k
    ensures |Skipped(times, k, gap, k)| == k <==> Yielded(times, k, gap, k) == []
    ensures forall i :: 0 <= i < k ==> (i in Skipped(times, k, gap, k) <==> FoldOf(times, k, gap, i).val == [])
    ensures forall f :: f in Yielded(times, k, gap, k) ==> f.val != []
  {
    YieldedInOrder(times, k, gap, k);
    SkippedExactly(times, k, gap, k);
  }

  /** On sorted times the purge removes the first rows of a block and keeps the rest. */
  lemma SortedPurgesPrefix(times: seq<int>, k: nat, gap: int, i: nat, r: nat, q: nat)
    requires k >= 1 && |times| >= k + 1 && i < k
    requires InTimeOrder(times)
    requires r in FoldOf(times, k, gap, i).val && r <= q && InBlock(|times|, k, i, q)
    ensures q in FoldOf(times, k, gap, i).val
  {
    BlocksTile(|times|, k, i);
    BlocksGrow(|times|, k, i, k);
    FoldExactly(times, k, gap, i, r);
    FoldExactly(times, k, gap, i, q);
  }
}
