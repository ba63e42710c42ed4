/** The three places that turn a string category into an integer: the `_encoded` columns
    (training/src/features.py), the codes stored in Redis (training/scripts/load_features_to_redis.py)
    and the challenger's training codes (monitoring/common/encoding.py), on columns categorised by
    training/scripts/preprocess.py. */
module CategoryCodes {
  import opened Options

  /** A column of strings, some missing. */
  type Column = seq<Option<string>>

  // ---------- sorted distinct categories ----------

  /** Lexicographic order by code point. */
  predicate Less(a: string, b: string) {
    if b == [] then false
    else if a == [] then true
    else a[0] < b[0] || (a[0] == b[0] && Less(a[1..], b[1..]))
  }

  /** One string comes before another if it is a proper prefix of it, or has the smaller character where
      they first differ. */
  lemma {:induction false} LessExactly(a: string, b: string)
    ensures Less(a, b) <==> (a < b || exists k :: 0 <= k < |a| && DiffersFirstAt(a, b, k) && a[k] < b[k])
    decreases a
  {
    if a != [] && b != [] && a[0] == b[0] {
      LessExactly(a[1..], b[1..]);
      ProperPrefix(a, b);
      forall k ensures 0 <= k < |a| && DiffersFirstAt(a, b, k) <==> 0 <= k - 1 < |a[1..]| && DiffersFirstAt(a[1..], b[1..], k - 1) {
        DiffersLater(a, b, k);
      }
      if k :| 0 <= k < |a[1..]| && DiffersFirstAt(a[1..], b[1..], k) && a[1..][k] < b[1..][k] {
        assert 0 <= k + 1 < |a| && DiffersFirstAt(a, b, k + 1) && a[k + 1] < b[k + 1];
      }
      if k :| 0 <= k < |a| && DiffersFirstAt(a, b, k) && a[k] < b[k] {
        assert DiffersFirstAt(a[1..], b[1..], k - 1) && a[1..][k - 1] < b[1..][k - 1];
      }
    } else if a != [] && b != [] {
      assert DiffersFirstAt(a, b, 0);
    }
  }

  predicate DiffersFirstAt(a: string, b: string, k: int) {
    0 <= k < |a| && k < |b| && a[..k] == b[..k] && a[k] != b[k]
  }

  lemma ProperPrefix(a: string, b: string)
    requires a != [] && b != [] && a[0] == b[0]
    ensures a < b <==> a[1..] < b[1..]
  {
    assert a == [a[0]] + a[1..] && b == [b[0]] + b[1..];
  }

  lemma DiffersLater(a: string, b: string, k: int)
    requires a != [] && b != [] && a[0] == b[0]
    ensures DiffersFirstAt(a, b, k) <==> DiffersFirstAt(a[1..], b[1..], k - 1)
  {
    if 1 <= k < |a| && k < |b| {
      assert a[..k] == [a[0]] + a[1..][..k-1] && b[..k] == [b[0]] + b[1..][..k-1];
    }
  }

  lemma {:induction false} LessIrreflexive(a: string)
    ensures !Less(a, a)
    decreases a
  {
    if a != [] { LessIrreflexive(a[1..]); }
  }

  lemma {:induction false} LessTotal(a: string, b: string)
    ensures a == b || Less(a, b) || Less(b, a)
    ensures !(Less(a, b) && Less(b, a))
    decreases a
  {
    if a != [] && b != [] {
      LessTotal(a[1..], b[1..]);
      assert a == [a[0]] + a[1..] && b == [b[0]] + b[1..];
    }
  }

  lemma {:induction false} LessTransitive(a: string, b: string, c: string)
    requires Less(a, b) && Less(b, c)
    ensures Less(a, c)
    decreases a
  {
    if a != [] && a[0] == b[0] == c[0] { LessTransitive(a[1..], b[1..], c[1..]); }
  }

  predicate Increasing(xs: seq<string>) {
    forall i, j :: 0 <= i < j < |xs| ==> Less(xs[i], xs[j])
  }

  function Insert(x: string, xs: seq<string>): seq<string> {
    if xs == [] || Less(x, xs[0]) then [x] + xs
    else if x == xs[0] then xs
    else [xs[0]] + Insert(x, xs[1..])
  }

  /** `sorted(column.dropna().unique())`. */
  function Categories(col: Column): seq<string> {
    if col == [] then []
    else if col[|col|-1].None? then Categories(col[..|col|-1])
    else Insert(col[|col|-1].value, Categories(col[..|col|-1]))
  }

  lemma {:induction false} InsertMembers(x: string, xs: seq<string>)
    ensures forall v :: v in Insert(x, xs) <==> v == x || v in xs
    decreases xs
  {
    if xs != [] {
      InsertMembers(x, xs[1..]);
      assert xs == [xs[0]] + xs[1..];
    }
  }

  lemma {:induction false} InsertIncreases(x: string, xs: seq<string>)
    requires Increasing(xs)
    ensures Increasing(Insert(x, xs))
    decreases xs
  {
    if xs != [] {
      LessTotal(x, xs[0]);
      if Less(x, xs[0]) {
        forall j | 0 <= j < |xs| ensures Less(x, xs[j]) {
          if j > 0 { LessTransitive(x, xs[0], xs[j]); }
        }
      } else if x != xs[0] {
        InsertIncreases(x, xs[1..]);
        InsertMembers(x, xs[1..]);
        var r := Insert(x, xs[1..]);
        assert forall j :: 0 <= j < |r| ==> r[j] in r;
      }
    }
  }

  lemma {:induction false} CategoriesExactly(col: Column)
    ensures Increasing(Categories(col))
    ensures forall v :: v in Categories(col) <==> Some(v) in col
    decreases col
  {
    if col != [] {
      var init, last := col[..|col|-1], col[|col|-1];
      CategoriesExactly(init);
      if last.Some? {
        InsertIncreases(last.value, Categories(init));
        InsertMembers(last.value, Categories(init));
      }
      assert col == init + [last];
    }
  }

  // ---------- codes ----------

  /** `{category: position}`. */
  function Enumerate(cats: seq<string>): map<string, nat> {
    if cats == [] then map[] else Enumerate(cats[..|cats|-1])[cats[|cats|-1] := |cats| - 1]
  }

  lemma {:induction false} EnumerateExactly(cats: seq<string>)
    requires Increasing(cats)
    ensures forall v :: v in Enumerate(cats) <==> v in cats
    ensures forall i :: 0 <= i < |cats| ==> cats[i] in Enumerate(cats) && Enumerate(cats)[cats[i]] == i
    decreases cats
  {
    if cats != [] {
      var init, last := cats[..|cats|-1], cats[|cats|-1];
      EnumerateExactly(init);
      LessIrreflexive(last);
      assert forall i :: 0 <= i < |init| ==> Less(init[i], last);
      assert cats == init + [last];
    }
  }

  /** Looks a present text up; anything the mapping lacks is -1. */
  function Lookup(mapping: map<string, nat>, text: string): int {
    if text in mapping then mapping[text] else -1
  }

  const MISSING_TEXT := "nan"

  /** `_encoded`: the cell is turned into text first, so a missing cell reads as "nan". */
  function EncodedCode(mapping: map<string, nat>, cell: Option<string>): int {
    Lookup(mapping, if cell.Some? then cell.value else MISSING_TEXT)
  }

  /** Training: a missing cell stays missing and maps to -1. */
  function TrainingCode(mapping: map<string, nat>, cell: Option<string>): int {
    if cell.Some? then Lookup(mapping, cell.value) else -1
  }

  /** Redis: the position in the categories, -1 for a missing cell. */
  function StoredCode(cats: seq<string>, cell: Option<string>): int {
    if cell.None? then -1 else PositionOf(cats, cell.value)
  }

  function PositionOf(cats: seq<string>, v: string): int {
    if cats == [] then -1 else if cats[|cats|-1] == v then |cats| - 1 else PositionOf(cats[..|cats|-1], v)
  }

  lemma {:induction false} PositionIsLookup(cats: seq<string>, v: string)
    ensures PositionOf(cats, v) == Lookup(Enumerate(cats), v)
    decreases cats
  {
    if cats != [] && cats[|cats|-1] != v { PositionIsLookup(cats[..|cats|-1], v); }
  }

  // ---------- main results ----------

  /** A column's codes are a bijection between its distinct values and 0..k-1, in sorted order, and a
      missing cell is -1, in the store and in training alike. */
  lemma CodesAreBijective(col: Column, r: nat)
    requires r < |col|
    ensures var cats, code := Categories(col), StoredCode(Categories(col), col[r]);
            && Increasing(cats) && TrainingCode(Enumerate(cats), col[r]) == code
            && (col[r].Some? ==> 0 <= code < |cats| && cats[code] == col[r].value)
            && (col[r].None? ==> code == -1)
    ensures forall i :: 0 <= i < |Categories(col)| ==> StoredCode(Categories(col), Some(Categories(col)[i])) == i
  {
    var cats := Categories(col);
    CategoriesExactly(col);
    EnumerateExactly(cats);
    forall i | 0 <= i < |cats| ensures StoredCode(cats, Some(cats[i])) == i {
      PositionIsLookup(cats, cats[i]);
    }
    if col[r].Some? {
      assert col[r].value in cats;
      PositionIsLookup(cats, col[r].value);
    }
  }

  /** The three codes of a row agree, except exactly on a missing cell of a column that has a literal
      "nan" category: there the `_encoded` column gives that category's code. */
  lemma CodesAgreeExactly(col: Column, r: nat)
    requires r < |col|
    ensures var cats := Categories(col);
            var stored := StoredCode(cats, col[r]);
            && TrainingCode(Enumerate(cats), col[r]) == stored
            && (EncodedCode(Enumerate(cats), col[r]) == stored <==> !(col[r].None? && Some("nan") in col))
  {
    CodesAreBijective(col, r);
    CategoriesExactly(col);
    EnumerateExactly(Categories(col));
  }

  /** Encoding another frame with a training column's mapping gives every known value its training code
      and every other value, or none, -1. */
  lemma ReusedMappingKeepsCodes(trained: Column, cell: Option<string>)
    ensures var m := Enumerate(Categories(trained));
            && (cell.Some? && cell in trained ==> TrainingCode(m, cell) == StoredCode(Categories(trained), cell) >= 0)
            && (cell.None? || cell !in trained ==> TrainingCode(m, cell) == -1)
  {
    CategoriesExactly(trained);
    EnumerateExactly(Categories(trained));
    if cell.Some? {
      PositionIsLookup(Categories(trained), cell.value);
    }
  }

  // ---------- the methods ----------

  /** A frame's categorical columns, in order; the source skips the others. */
  datatype Categorical = Categorical(name: string, categories: seq<string>, cells: Column)

  predicate DistinctNames(df: seq<Categorical>) {
    forall i, j :: 0 <= i < j < |df| ==> df[i].name != df[j].name
  }

  function MapCodes(mapping: map<string, nat>, cells: Column): seq<int> {
    seq(|cells|, i requires 0 <= i < |cells| => TrainingCode(mapping, cells[i]))
  }

  /** The mapping a column is encoded with: its own categories in train mode, else the given one. */
  function MappingFor(c: Categorical, mappings: Option<map<string, map<string, nat>>>): map<string, nat> {
    match mappings
    case None => Enumerate(c.categories)
    case Some(ms) => if c.name in ms then ms[c.name] else map[]
  }

  /** The code of a cell: its value's position among the categories, the last one if it is listed twice; -1
      for a value that is not listed, or none. */
  predicate IsPosition(cats: seq<string>, cell: Option<string>, code: int) {
    if cell.None? || cell.value !in cats then code == -1
    else 0 <= code < |cats| && cats[code] == cell.value && forall p :: code < p < |cats| ==> cats[p] != cell.value
  }

  lemma {:induction false} TrainingCodeIsPosition(cats: seq<string>, cell: Option<string>)
    ensures IsPosition(cats, cell, TrainingCode(Enumerate(cats), cell))
    decreases cats
  {
    if cell.Some? && cats != [] {
      var init, last := cats[..|cats|-1], cats[|cats|-1];
      TrainingCodeIsPosition(init, cell);
      EnumeratedOnly(init, cell.value);
      assert cats == init + [last];
    }
  }

  lemma {:induction false} EnumeratedOnly(cats: seq<string>, v: string)
    ensures v in Enumerate(cats) <==> v in cats
    decreases cats
  {
    if cats != [] {
      EnumeratedOnly(cats[..|cats|-1], v);
      assert cats == cats[..|cats|-1] + [cats[|cats|-1]];
    }
  }

  /** `encode_categoricals`: in train mode it returns each column's mapping, otherwise the mappings it was
      given; either way every cell becomes its code under that column's mapping. */
  method EncodeCategoricals(df: seq<Categorical>, mappings: Option<map<string, map<string, nat>>>)
    returns (codes: seq<seq<int>>, out: map<string, map<string, nat>>)
    requires DistinctNames(df)
    ensures |codes| == |df| && forall i :: 0 <= i < |df| ==> codes[i] == MapCodes(MappingFor(df[i], mappings), df[i].cells)
    ensures forall i :: 0 <= i < |df| ==> |codes[i]| == |df[i].cells|
    ensures mappings.None? ==> forall i, r :: 0 <= i < |df| && 0 <= r < |df[i].cells| ==> IsPosition(df[i].categories, df[i].cells[r], codes[i][r])
    ensures mappings.Some? ==>
              forall i, r :: 0 <= i < |df| && 0 <= r < |df[i].cells| ==>
                var c := df[i];
                codes[i][r] == if c.name in mappings.value && c.cells[r].Some? && c.cells[r].value in mappings.value[c.name]
                               then mappings.value[c.name][c.cells[r].value] else -1
    ensures mappings.Some? ==> out == mappings.value
    ensures mappings.None? ==>
              && (forall i :: 0 <= i < |df| ==> df[i].name in out && out[df[i].name] == Enumerate(df[i].categories))
              && (forall n :: n in out ==> exists i :: 0 <= i < |df| && df[i].name == n)
  {
    codes := [];
    out := if mappings.None? then map[] else mappings.value;
    var i := 0;
    while i < |df|
      invariant 0 <= i <= |df| && |codes| == i
      invariant forall j :: 0 <= j < i ==> codes[j] == MapCodes(MappingFor(df[j], mappings), df[j].cells)
      invariant mappings.Some? ==> out == mappings.value
      invariant mappings.None? ==>
                  && (forall j :: 0 <= j < i ==> df[j].name in out && out[df[j].name] == Enumerate(df[j].categories))
                  && (forall n :: n in out ==> exists j :: 0 <= j < i && df[j].name == n)
    {
      var mapping;
      if mappings.None? {
        mapping := BuildMapping(df[i].categories);
        out := out[df[i].name := mapping];
      } else {
        mapping := if df[i].name in mappings.value then mappings.value[df[i].name] else map[];
      }
      codes := codes + [MapCodes(mapping, df[i].cells)];
      i := i + 1;
    }
    CodesCellByCell(df, mappings, codes);
  }

  lemma CodesCellByCell(df: seq<Categorical>, mappings: Option<map<string, map<string, nat>>>, codes: seq<seq<int>>)
    requires |codes| == |df| && forall i :: 0 <= i < |df| ==> codes[i] == MapCodes(MappingFor(df[i], mappings), df[i].cells)
    ensures forall i :: 0 <= i < |df| ==> |codes[i]| == |df[i].cells|
    ensures mappings.None? ==> forall i, r :: 0 <= i < |df| && 0 <= r < |df[i].cells| ==> IsPosition(df[i].categories, df[i].cells[r], codes[i][r])
    ensures mappings.Some? ==>
              forall i, r :: 0 <= i < |df| && 0 <= r < |df[i].cells| ==>
                var c := df[i];
                codes[i][r] == if c.name in mappings.value && c.cells[r].Some? && c.cells[r].value in mappings.value[c.name]
                               then mappings.value[c.name][c.cells[r].value] else -1
  {
    hide IsPosition, Enumerate;
    if mappings.None? {
      forall i, r | 0 <= i < |df| && 0 <= r < |df[i].cells| ensures IsPosition(df[i].categories, df[i].cells[r], codes[i][r]) {
        TrainingCodeIsPosition(df[i].categories, df[i].cells[r]);
      }
    }
  }

  /** A dict comprehension over `enumerate(categories)`. */
  method BuildMapping(cats: seq<string>) returns (mapping: map<string, nat>)
    ensures mapping == Enumerate(cats)
  {
    mapping := map[];
    var i := 0;
    while i < |cats|
      invariant 0 <= i <= |cats| && mapping == Enumerate(cats[..i])
    {
      assert cats[..i+1][..i] == cats[..i];
      mapping := mapping[cats[i] := i];
      i := i + 1;
    }
    assert cats[..i] == cats;
  }

  /** `build_categorical_encoder`, then `apply_categorical_encoder` on the same column: the `_encoded`
      values, which agree with the stored codes on every row unless "nan" is a category. */
  method EncodeColumn(cells: Column) returns (codes: seq<int>)
    ensures |codes| == |cells|
    ensures forall r :: 0 <= r < |cells| ==> codes[r] == EncodedCode(Enumerate(Categories(cells)), cells[r])
    ensures Some("nan") !in cells ==> forall r :: 0 <= r < |cells| ==> codes[r] == StoredCode(Categories(cells), cells[r])
  {
    var mapping := BuildMapping(Categories(cells));
    codes := [];
    for r := 0 to |cells|
      invariant |codes| == r
      invariant forall q :: 0 <= q < r ==> codes[q] == EncodedCode(mapping, cells[q])
      invariant Some(MISSING_TEXT) !in cells ==> forall q :: 0 <= q < r ==> codes[q] == StoredCode(Categories(cells), cells[q])
    {
      CodesAgreeExactly(cells, r);
      codes := codes + [EncodedCode(mapping, cells[r])];
    }
  }
}
