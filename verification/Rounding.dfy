/** Integer multiplication and division, with the facts about them proved once. Elsewhere the definitions
    are hidden and only these facts are used. */
module Rounding {

  function Times(a: nat, d: nat): nat {
    a * d
  }

  function FloorDiv(n: nat, d: nat): nat
    requires d > 0
  {
    n / d
  }

  function Rest(n: nat, d: nat): (r: nat)
    requires d > 0
    ensures r < d
  {
    n % d
  }

  function CeilDiv(n: nat, d: nat): nat
    requires d > 0
  {
    (n + d - 1) / d
  }

  // ---------- products ----------

  lemma TimesAdd(a: nat, b: nat, d: nat)
    ensures Times(a + b, d) == Times(a, d) + Times(b, d)
  {
  }

  lemma TimesSmall(d: nat)
    ensures Times(0, d) == 0 && Times(1, d) == d
  {
  }

  lemma TimesNext(a: nat, d: nat)
    ensures Times(a + 1, d) == Times(a, d) + d
  {
    TimesAdd(a, 1, d);
    TimesSmall(d);
  }

  lemma TimesSwap(a: nat, b: nat)
    ensures Times(a, b) == Times(b, a)
  {
  }

  lemma TimesAssociate(a: nat, b: nat, d: nat)
    ensures Times(Times(a, b), d) == Times(a, Times(b, d))
  {
  }

  lemma TimesLe(a: nat, b: nat, d: nat)
    requires a <= b
    ensures Times(a, d) <= Times(b, d)
  {
    hide Times;
    TimesAdd(a, b - a, d);
  }

  lemma TimesLt(a: nat, b: nat, d: nat)
    requires a < b && d > 0
    ensures Times(a, d) < Times(b, d)
  {
    hide Times;
    TimesNext(a, d);
    TimesLe(a + 1, b, d);
  }

  // ---------- quotient and rest ----------

  lemma FloorAndRest(n: nat, d: nat)
    requires d > 0
    ensures n == Times(FloorDiv(n, d), d) + Rest(n, d)
  {
  }

  lemma QuotientsOrdered(q: nat, r: nat, q': nat, r': nat, d: nat)
    requires Times(q, d) + r <= Times(q', d) + r' && r' < d
    ensures q <= q'
  {
    hide Times;
    if q > q' {
      TimesNext(q', d);
      TimesLe(q' + 1, q, d);
    }
  }

  lemma FloorIs(n: nat, d: nat, q: nat, r: nat)
    requires d > 0 && n == Times(q, d) + r && r < d
    ensures FloorDiv(n, d) == q && Rest(n, d) == r
  {
    hide Times, FloorDiv, Rest;
    FloorAndRest(n, d);
    QuotientsOrdered(q, r, FloorDiv(n, d), Rest(n, d), d);
    QuotientsOrdered(FloorDiv(n, d), Rest(n, d), q, r, d);
  }

  lemma WholeMultiple(q: nat, d: nat)
    requires d > 0
    ensures FloorDiv(Times(q, d), d) == q && Rest(Times(q, d), d) == 0 && CeilDiv(Times(q, d), d) == q
  {
    hide Times, FloorDiv, Rest, CeilDiv;
    FloorIs(Times(q, d), d, q, 0);
    CeilIsFloor(Times(q, d), d);
  }

  // ---------- rounding up ----------

  lemma CeilIsFloorOfMore(n: nat, d: nat)
    requires d > 0
    ensures CeilDiv(n, d) == FloorDiv(n + d - 1, d)
  {
  }

  lemma CeilIsFloor(n: nat, d: nat)
    requires d > 0
    ensures CeilDiv(n, d) == FloorDiv(n, d) + if Rest(n, d) == 0 then 0 else 1
  {
    hide Times, FloorDiv, Rest, CeilDiv;
    var q, r := FloorDiv(n, d), Rest(n, d);
    FloorAndRest(n, d);
    CeilIsFloorOfMore(n, d);
    if r == 0 {
      FloorIs(n + d - 1, d, q, d - 1);
    } else {
      TimesNext(q, d);
      FloorIs(n + d - 1, d, q + 1, r - 1);
    }
  }

  /** CeilDiv(n, d) is the least q whose multiple of d reaches n. */
  lemma CeilDivIsLeast(n: nat, d: nat, q: nat)
    requires d > 0
    ensures q >= CeilDiv(n, d) <==> Times(q, d) >= n
  {
    hide Times, FloorDiv, Rest, CeilDiv;
    FloorAndRest(n, d);
    CeilIsFloor(n, d);
    var f := FloorDiv(n, d);
    TimesNext(f, d);
    if q >= CeilDiv(n, d) {
      TimesLe(CeilDiv(n, d), q, d);
    } else {
      TimesLe(q, f, d);
      if q < f { TimesLt(q, f, d); }
    }
  }

  lemma CeilDivIs(n: nat, d: nat, q: nat)
    requires d > 0 && Times(q, d) >= n && (q > 0 ==> Times(q - 1, d) < n)
    ensures CeilDiv(n, d) == q
  {
    hide Times, CeilDiv;
    CeilDivIsLeast(n, d, q);
    if q > 0 { CeilDivIsLeast(n, d, q - 1); }
  }

  lemma CeilDivOrdered(n: nat, m: nat, d: nat)
    requires d > 0 && n <= m
    ensures CeilDiv(n, d) <= CeilDiv(m, d)
  {
    hide Times, CeilDiv;
    CeilDivIsLeast(m, d, CeilDiv(m, d));
    CeilDivIsLeast(n, d, CeilDiv(m, d));
  }

  /** Whole multiples of d come out of the rounding. */
  lemma CeilDivShift(k: nat, n: nat, d: nat)
    requires d > 0
    ensures CeilDiv(Times(k, d) + n, d) == k + CeilDiv(n, d)
  {
    hide Times, CeilDiv;
    var q := CeilDiv(n, d);
    CeilDivIsLeast(n, d, q);
    TimesAdd(k, q, d);
    if q > 0 {
      CeilDivIsLeast(n, d, q - 1);
      TimesAdd(k, q - 1, d);
    } else if k > 0 {
      TimesLt(k - 1, k, d);
    }
    CeilDivIs(Times(k, d) + n, d, k + q);
  }

  /** Rounding n up and down, from what n - 1 leaves. */
  lemma FloorAndCeil(n: nat, d: nat, q: nat, r: nat)
    requires n > 0 && d > 0 && n - 1 == Times(q, d) + r && r < d
    ensures CeilDiv(n, d) == q + 1 && FloorDiv(n, d) == (if r == d - 1 then q + 1 else q)
    ensures Rest(n, d) == 0 <==> r == d - 1
  {
    hide Times, FloorDiv, Rest, CeilDiv;
    TimesNext(q, d);
    if r == d - 1 {
      FloorIs(n, d, q + 1, 0);
    } else {
      FloorIs(n, d, q, r + 1);
    }
    CeilIsFloor(n, d);
  }
}
