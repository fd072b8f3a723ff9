/** `_calculate_data_quality_score`: a weighted mix of completeness,
    uniqueness, per-column type consistency and per-column validity, each
    with a generous floor, plus two small bonuses, clamped to [0, 1]. The
    arithmetic is over exact reals. */
module Quality {
  import opened Wrappers
  import opened Text
  import opened Frames

  const CompletenessFloor: real := 0.8
  const UniquenessFloor: real := 0.9
  const ConsistencyFloor: real := 0.7
  const ValidityFloor: real := 0.9
  const TextValidityFloor: real := 0.95
  /** Values of a text column whose Python types are tallied. */
  const ConsistencySample: nat := 50
  /** Strings longer than this count against validity. */
  const MaxReasonableLength: nat := 10000
  const NameBonus: real := 0.02
  const TypeBonus: real := 0.03
  /** The score returned when a step raises. */
  const FallbackScore: real := 0.85

  function RMin(a: real, b: real): real
  {
    if a <= b then a else b
  }

  function RMax(a: real, b: real): real
  {
    if a >= b then a else b
  }

  function NMax(a: nat, b: nat): nat
  {
    if a >= b then a else b
  }

  /** `type(val).__name__` of a non-missing value. */
  datatype PyType = PyStr | PyInt | PyFloat | PyBool | PyTimestamp

  const AllTypes: seq<PyType> := [PyStr, PyInt, PyFloat, PyBool, PyTimestamp]

  function TypeOf(c: Cell): PyType
  {
    match c
    case Str(_) => PyStr
    case Int(_) => PyInt
    case Num(_) => PyFloat
    case Inf(_) => PyFloat
    case Bool(_) => PyBool
    case Date(_) => PyTimestamp
    case Null => PyFloat
  }

  /** How many values of s have Python type t. */
  function TypeCount(s: seq<Cell>, t: PyType): (n: nat)
    ensures n <= |s|
  {
    if s == [] then 0 else TypeCount(s[..|s| - 1], t) + (if TypeOf(s[|s| - 1]) == t then 1 else 0)
  }

  /** The largest of the tallies of the types in ts. */
  function MaxTypeCount(s: seq<Cell>, ts: seq<PyType>): (n: nat)
    ensures n <= |s|
    ensures forall k :: 0 <= k < |ts| ==> TypeCount(s, ts[k]) <= n
  {
    if ts == [] then 0 else NMax(MaxTypeCount(s, ts[..|ts| - 1]), TypeCount(s, ts[|ts| - 1]))
  }

  /** k out of n as a fraction. */
  function Share(k: nat, n: nat): real
    requires n > 0
  {
    k as real / n as real
  }

  /** The tally in a `type_counts` dictionary, 0 for a type not yet seen. */
  function Lookup(counts: map<PyType, nat>, t: PyType): nat
  {
    if t in counts then counts[t] else 0
  }

  /** The consistency of a text column from the share of its most common
      value type among the first 50 non-missing values. */
  function TextConsistency(vals: seq<Cell>): real
    requires vals != []
  {
    var sample := vals[..Min(ConsistencySample, |vals|)];
    var ratio := Share(MaxTypeCount(sample, AllTypes), |sample|);
    if ratio > 0.5 then RMin(1.0, ratio + 0.3) else RMax(ConsistencyFloor, ratio)
  }

  /** The tallying loop over the sample and the maximum over the tallies. */
  method TallyConsistency(vals: seq<Cell>) returns (score: real)
    requires vals != []
    ensures score == TextConsistency(vals)
  {
    var sample := vals[..Min(ConsistencySample, |vals|)];
    var counts: map<PyType, nat> := map[];
    var i := 0;
    while i < |sample|
      invariant 0 <= i <= |sample|
      invariant forall t :: Lookup(counts, t) == TypeCount(sample[..i], t)
    {
      var t := TypeOf(sample[i]);
      assert sample[..i + 1][..i] == sample[..i];
      counts := counts[t := Lookup(counts, t) + 1];
      i := i + 1;
    }
    assert sample[..i] == sample;
    var best := 0;
    var k := 0;
    while k < |AllTypes|
      invariant 0 <= k <= |AllTypes|
      invariant best == MaxTypeCount(sample, AllTypes[..k])
    {
      assert AllTypes[..k + 1][..k] == AllTypes[..k];
      best := NMax(best, Lookup(counts, AllTypes[k]));
      k := k + 1;
    }
    assert AllTypes[..k] == AllTypes;
    var ratio := Share(best, |sample|);
    if ratio > 0.5 {
      score := RMin(1.0, ratio + 0.3);
    } else {
      score := RMax(ConsistencyFloor, ratio);
    }
  }

  /** `is_numeric_dtype`: integers, floats and booleans. */
  predicate NumericDtype(d: Dtype)
  {
    d == Int64 || d == Float64 || d == BoolType || d == NullableInt
  }

  /** The type-consistency score of one column: an all-missing, numeric,
      datetime or categorical column is perfectly consistent. */
  function ColumnConsistency(d: Dtype, col: seq<Cell>): real
  {
    var vals := NonNull(col);
    if vals == [] || NumericDtype(d) || d == Datetime64 || d == Category then 1.0
    else TextConsistency(vals)
  }

  /** One pass of the consistency loop. */
  method ScoreColumnConsistency(d: Dtype, col: seq<Cell>) returns (s: real)
    ensures s == ColumnConsistency(d, col)
  {
    var vals := NonNull(col);
    if vals == [] || NumericDtype(d) || d == Datetime64 || d == Category {
      s := 1.0;
    } else {
      s := TallyConsistency(vals);
    }
  }

  function CountInf(s: seq<Cell>): (n: nat)
    ensures n <= |s|
  {
    if s == [] then 0 else CountInf(s[..|s| - 1]) + (if s[|s| - 1].Inf? then 1 else 0)
  }

  function CountLong(s: seq<Cell>): (n: nat)
    ensures n <= |s|
  {
    if s == [] then 0 else CountLong(s[..|s| - 1]) + (if s[|s| - 1].Str? && |s[|s| - 1].s| > MaxReasonableLength then 1 else 0)
  }

  /** The validity score of one column, or None where `np.issubdtype`
      raises on a nullable-integer dtype. Booleans are numeric to pandas but
      not a numpy number, so their infinite count is 0. */
  function ColumnValidity(lib: Lib, d: Dtype, col: seq<Cell>): Option<real>
  {
    var vals := NonNull(col);
    if vals == [] then Some(1.0)
    else if NumericDtype(d) then
      if d == NullableInt && lib.issubdtypeRejectsNullableInt then None
      else
        var inf := if d == BoolType then 0 else CountInf(vals);
        Some(RMax(ValidityFloor, 1.0 - Share(inf, |vals|)))
    else if d == Object then Some(RMax(TextValidityFloor, 1.0 - Share(CountLong(vals), |vals|)))
    else Some(1.0)
  }

  /** Which of the two per-column loops a score belongs to. */
  datatype Check = Consistency | Validity

  function Floor(c: Check): real
  {
    if c == Consistency then ConsistencyFloor else ValidityFloor
  }

  /** `df[col].dropna()` keeps a row. For a repeated label `df[col]` is the
      frame of every column so named, and dropna keeps the rows missing none
      of them. */
  predicate LabelRowsLeft(f: Frame, j: nat)
    requires f.Valid() && j < |f.labels|
  {
    exists i :: 0 <= i < |f.rows| &&
      forall k :: 0 <= k < |f.labels| && f.labels[k] == f.labels[j] ==> !f.rows[i][k].Null?
  }

  /** One column's score in one loop, or None where the loop raises: on a
      repeated label with rows left, `col_data.dtype` does not exist on a
      frame; in the validity loop, numpy may reject a nullable-integer dtype.
      A repeated label with no rows left scores 1 as an empty column. */
  function ScoreAt(lib: Lib, c: Check, f: Frame, j: nat): Option<real>
    requires f.Valid() && j < |f.labels|
  {
    if Repeated(f.labels, j) then (if LabelRowsLeft(f, j) then None else Some(1.0))
    else if c == Consistency then Some(ColumnConsistency(f.dtypes[j], f.Column(j)))
    else ColumnValidity(lib, f.dtypes[j], f.Column(j))
  }

  /** The scores of the first j columns in one loop, summed; None once one raises. */
  function ScoreSum(lib: Lib, c: Check, f: Frame, j: nat): Option<real>
    requires f.Valid() && j <= |f.labels|
  {
    if j == 0 then Some(0.0)
    else match ScoreSum(lib, c, f, j - 1)
      case None => None
      case Some(v) =>
        match ScoreAt(lib, c, f, j - 1)
        case None => None
        case Some(w) => Some(v + w)
  }

  function CountWhere(rows: seq<seq<Cell>>, p: Cell -> bool): nat
  {
    if rows == [] then 0 else CountWhere(rows[..|rows| - 1], p) + Count(rows[|rows| - 1], p)
  }

  predicate IsEmptyText(c: Cell)
  {
    c == Str("")
  }

  /** `(df == '').sum().sum()`, counted only when some column is `object`. */
  function EmptyStrings(f: Frame): nat
  {
    if Object in f.dtypes then CountWhere(f.rows, IsEmptyText) else 0
  }

  /** `select_dtypes(include=['number', 'datetime', 'category'])` is non-empty. */
  predicate HasProperTypes(f: Frame)
  {
    exists k :: 0 <= k < |f.dtypes| && f.dtypes[k] in {Int64, Float64, NullableInt, Datetime64, Category}
  }

  predicate HasGoodNames(lib: Lib, f: Frame)
  {
    forall k :: 0 <= k < |f.labels| ==> !GenericLabel(lib, f.labels[k])
  }

  function Bonus(lib: Lib, f: Frame): real
  {
    (if HasGoodNames(lib, f) then NameBonus else 0.0) + (if HasProperTypes(f) then TypeBonus else 0.0)
  }

  /** The weighted score of the four components with the bonus, clamped. */
  function Combine(c: real, u: real, k: real, v: real, bonus: real): real
  {
    RMax(0.0, RMin(1.0, c * 0.35 + u * 0.15 + k * 0.25 + v * 0.25 + bonus))
  }

  function Completeness(f: Frame): real
    requires !f.Empty()
  {
    RMax(CompletenessFloor, 1.0 - Share(CountWhere(f.rows, IsNull) + EmptyStrings(f), |f.rows| * |f.labels|))
  }

  function Uniqueness(f: Frame): real
    requires |f.rows| > 0
  {
    RMax(UniquenessFloor, 1.0 - Share(RowDuplicates(f), |f.rows|))
  }

  /** The weighted score of a table with cells, given its summed
      consistency and validity. */
  function Weighted(lib: Lib, f: Frame, consistency: real, validity: real): real
    requires f.Valid() && !f.Empty()
  {
    var m := |f.labels| as real;
    Combine(Completeness(f), Uniqueness(f), consistency / m, validity / m, Bonus(lib, f))
  }

  /** The score of a table. */
  function Score(lib: Lib, f: Frame): real
    requires f.Valid()
  {
    if f.Empty() then 0.0
    else match (ScoreSum(lib, Consistency, f, |f.labels|), ScoreSum(lib, Validity, f, |f.labels|))
      case (Some(k), Some(v)) => Weighted(lib, f, k, v)
      case _ => FallbackScore
  }

  /** One pass of either loop. */
  method ScoreColumn(lib: Lib, c: Check, f: Frame, j: nat) returns (s: Option<real>)
    requires f.Valid() && j < |f.labels|
    ensures s == ScoreAt(lib, c, f, j)
  {
    if Repeated(f.labels, j) {
      s := if LabelRowsLeft(f, j) then None else Some(1.0);
    } else if c == Consistency {
      var r := ScoreColumnConsistency(f.dtypes[j], f.Column(j));
      s := Some(r);
    } else {
      s := ColumnValidity(lib, f.dtypes[j], f.Column(j));
    }
  }

  /** The consistency loop or the validity loop, which stops at the first
      column that raises. */
  method SumScores(lib: Lib, c: Check, f: Frame) returns (total: Option<real>)
    requires f.Valid()
    ensures total == ScoreSum(lib, c, f, |f.labels|)
  {
    var sum := 0.0;
    var j := 0;
    while j < |f.labels|
      invariant 0 <= j <= |f.labels|
      invariant ScoreSum(lib, c, f, j) == Some(sum)
    {
      var w := ScoreColumn(lib, c, f, j);
      if w.None? {
        NoneAfter(lib, c, f, j + 1);
        return None;
      }
      sum := sum + w.value;
      j := j + 1;
    }
    total := Some(sum);
  }

  /** `_calculate_data_quality_score`: no cells scores 0, a raising step
      the fallback, anything else the weighted mix of the four components. */
  method QualityScore(lib: Lib, f: Frame) returns (score: real)
    requires f.Valid()
    ensures score == Score(lib, f)
  {
    var total := |f.rows| * |f.labels|;
    if total == 0 {
      return 0.0;
    }
    assert !f.Empty();
    var consistency := SumScores(lib, Consistency, f);
    if consistency.None? {
      return FallbackScore;
    }
    var validity := SumScores(lib, Validity, f);
    if validity.None? {
      return FallbackScore;
    }
    var m := |f.labels| as real;
    score := Combine(Completeness(f), Uniqueness(f), consistency.value / m, validity.value / m, Bonus(lib, f));
  }

  lemma {:induction false} NoneAfter(lib: Lib, c: Check, f: Frame, j: nat)
    requires f.Valid() && j <= |f.labels| && ScoreSum(lib, c, f, j).None?
    ensures ScoreSum(lib, c, f, |f.labels|).None?
    decreases |f.labels| - j
  {
    if j < |f.labels| {
      NoneAfter(lib, c, f, j + 1);
    }
  }

  /** A loop raises exactly when one of its columns does. */
  lemma {:induction false} ScoreSumNone(lib: Lib, c: Check, f: Frame, j: nat)
    requires f.Valid() && j <= |f.labels|
    ensures ScoreSum(lib, c, f, j).None? <==> exists k :: 0 <= k < j && ScoreAt(lib, c, f, k).None?
  {
    if j > 0 {
      ScoreSumNone(lib, c, f, j - 1);
    }
  }

  /** For a label that does not repeat, rows are left exactly when the
      column holds a value. */
  lemma SingleLabelRowsLeft(f: Frame, j: nat)
    requires f.Valid() && j < |f.labels| && !Repeated(f.labels, j)
    ensures LabelRowsLeft(f, j) <==> NonNull(f.Column(j)) != []
  {
    var col := f.Column(j);
    NonNullEmpty(col);
    if LabelRowsLeft(f, j) {
      var i :| 0 <= i < |f.rows| &&
        forall k :: 0 <= k < |f.labels| && f.labels[k] == f.labels[j] ==> !f.rows[i][k].Null?;
      assert !col[i].Null?;
    }
    if NonNull(col) != [] {
      var i :| 0 <= i < |col| && !col[i].Null?;
      forall k | 0 <= k < |f.labels| && f.labels[k] == f.labels[j]
        ensures !f.rows[i][k].Null?
      {
        assert k == j;
      }
    }
  }

  /** A column raises exactly when rows are left in it and either its label
      repeats or, in the validity loop, numpy rejects its nullable-integer
      dtype. */
  lemma ScoreAtRaises(lib: Lib, c: Check, f: Frame, j: nat)
    requires f.Valid() && j < |f.labels|
    ensures ScoreAt(lib, c, f, j).None? <==>
            LabelRowsLeft(f, j) &&
            (Repeated(f.labels, j) ||
             (c == Validity && f.dtypes[j] == NullableInt && lib.issubdtypeRejectsNullableInt))
  {
    if !Repeated(f.labels, j) {
      SingleLabelRowsLeft(f, j);
    }
  }

  /** A share k/n of a non-empty whole lies in [0, 1]. */
  lemma ShareBounds(k: nat, n: nat)
    requires 0 < n && k <= n
    ensures 0.0 <= Share(k, n) <= 1.0
    ensures k == n ==> Share(k, n) == 1.0
  {
    var r := Share(k, n);
    var m := n as real;
    assert r * m == k as real;
    assert 0.0 <= r by {
      assert r * m >= 0.0 && m > 0.0;
    }
    assert r <= 1.0 by {
      assert r * m <= 1.0 * m && m > 0.0;
    }
  }

  /** The consistency of any column lies in [0.7, 1]. */
  lemma ColumnConsistencyBounds(d: Dtype, col: seq<Cell>)
    ensures ConsistencyFloor <= ColumnConsistency(d, col) <= 1.0
  {
    var vals := NonNull(col);
    if vals != [] {
      var sample := vals[..Min(ConsistencySample, |vals|)];
      ShareBounds(MaxTypeCount(sample, AllTypes), |sample|);
    }
  }

  /** The validity of any column that does not raise lies in [0.9, 1]. */
  lemma ColumnValidityBounds(lib: Lib, d: Dtype, col: seq<Cell>)
    requires ColumnValidity(lib, d, col).Some?
    ensures ValidityFloor <= ColumnValidity(lib, d, col).value <= 1.0
  {
    var vals := NonNull(col);
    if vals != [] {
      ShareBounds(CountInf(vals), |vals|);
      ShareBounds(CountLong(vals), |vals|);
    }
  }

  /** Every column score that does not raise lies in [floor, 1]. */
  lemma ScoreAtBounds(lib: Lib, c: Check, f: Frame, j: nat)
    requires f.Valid() && j < |f.labels| && ScoreAt(lib, c, f, j).Some?
    ensures Floor(c) <= ScoreAt(lib, c, f, j).value <= 1.0
  {
    if !Repeated(f.labels, j) {
      ColumnConsistencyBounds(f.dtypes[j], f.Column(j));
      if c == Validity {
        ColumnValidityBounds(lib, f.dtypes[j], f.Column(j));
      }
    }
  }

  lemma {:induction false} ScoreSumBounds(lib: Lib, c: Check, f: Frame, j: nat)
    requires f.Valid() && j <= |f.labels| && ScoreSum(lib, c, f, j).Some?
    ensures Floor(c) * j as real <= ScoreSum(lib, c, f, j).value <= j as real
  {
    if j > 0 {
      ScoreSumBounds(lib, c, f, j - 1);
      ScoreAtBounds(lib, c, f, j - 1);
    }
  }

  /** The mean of m scores, each in [lo, 1], lies in [lo, 1]. */
  lemma MeanBounds(sum: real, m: nat, lo: real)
    requires m > 0 && lo * m as real <= sum <= m as real
    ensures lo <= sum / m as real <= 1.0
  {
    var n := m as real;
    var r := sum / n;
    assert r * n == sum;
    assert lo * n <= r * n <= 1.0 * n && n > 0.0;
  }

  /** With every component at or above its floor and at most 1, the score
      is at least 0.35 * 0.8 + 0.15 * 0.9 + 0.25 * 0.7 + 0.25 * 0.9 = 0.815. */
  lemma CombineBounds(c: real, u: real, k: real, v: real, bonus: real)
    requires CompletenessFloor <= c <= 1.0 && UniquenessFloor <= u <= 1.0
    requires ConsistencyFloor <= k <= 1.0 && ValidityFloor <= v <= 1.0
    requires 0.0 <= bonus
    ensures 0.815 <= Combine(c, u, k, v, bonus) <= 1.0
  {
  }

  lemma ShareNonNegative(k: nat, n: nat)
    requires 0 < n
    ensures 0.0 <= Share(k, n)
  {
  }

  /** Completeness lies in [0.8, 1] and uniqueness in [0.9, 1]. */
  lemma ComponentBounds(f: Frame)
    requires f.Valid() && !f.Empty()
    ensures CompletenessFloor <= Completeness(f) <= 1.0
    ensures UniquenessFloor <= Uniqueness(f) <= 1.0
  {
    assert |f.rows| * |f.labels| > 0;
    ShareNonNegative(CountWhere(f.rows, IsNull) + EmptyStrings(f), |f.rows| * |f.labels|);
    ShareBounds(RowDuplicates(f), |f.rows|);
  }

  /** A table without cells scores 0; any other table scores between 0.815
      and 1, the fallback 0.85 included. */
  lemma ScoreBounds(lib: Lib, f: Frame)
    requires f.Valid()
    ensures f.Empty() ==> Score(lib, f) == 0.0
    ensures !f.Empty() ==> 0.815 <= Score(lib, f) <= 1.0
  {
    var m := |f.labels|;
    if !f.Empty() && ScoreSum(lib, Consistency, f, m).Some? && ScoreSum(lib, Validity, f, m).Some? {
      var k, v := ScoreSum(lib, Consistency, f, m).value, ScoreSum(lib, Validity, f, m).value;
      assert 0.815 <= Weighted(lib, f, k, v) <= 1.0 by {
        WeightedBounds(lib, f, k, v);
      }
    }
  }

  /** The mean score of a loop that does not raise lies in [floor, 1]. */
  lemma SumMeanBounds(lib: Lib, c: Check, f: Frame, sum: real)
    requires f.Valid() && |f.labels| > 0 && ScoreSum(lib, c, f, |f.labels|) == Some(sum)
    ensures Floor(c) <= sum / |f.labels| as real <= 1.0
  {
    var m := |f.labels|;
    ScoreSumBounds(lib, c, f, m);
    if c == Consistency {
      MeanBounds(sum, m, ConsistencyFloor);
    } else {
      MeanBounds(sum, m, ValidityFloor);
    }
  }

  lemma WeightedBounds(lib: Lib, f: Frame, k: real, v: real)
    requires f.Valid() && !f.Empty()
    requires ScoreSum(lib, Consistency, f, |f.labels|) == Some(k)
    requires ScoreSum(lib, Validity, f, |f.labels|) == Some(v)
    ensures 0.815 <= Weighted(lib, f, k, v) <= 1.0
  {
    var m := |f.labels|;
    var c, u := Completeness(f), Uniqueness(f);
    var km, vm := k / m as real, v / m as real;
    var bonus := Bonus(lib, f);
    assert CompletenessFloor <= c <= 1.0 && UniquenessFloor <= u <= 1.0 by {
      ComponentBounds(f);
    }
    SumMeanBounds(lib, Consistency, f, k);
    SumMeanBounds(lib, Validity, f, v);
    assert 0.0 <= bonus;
    CombineBounds(c, u, km, vm, bonus);
    assert Weighted(lib, f, k, v) == Combine(c, u, km, vm, bonus);
  }

  /** A text column whose sampled values are all of one Python type is
      perfectly consistent. */
  lemma UniformColumnConsistent(vals: seq<Cell>, t: PyType)
    requires vals != [] && forall k :: 0 <= k < |vals| ==> TypeOf(vals[k]) == t
    ensures TextConsistency(vals) == 1.0
  {
    var sample := vals[..Min(ConsistencySample, |vals|)];
    TypeCountAll(sample, t);
    var k := match t case PyStr => 0 case PyInt => 1 case PyFloat => 2 case PyBool => 3 case PyTimestamp => 4;
    assert AllTypes[k] == t;
    assert MaxTypeCount(sample, AllTypes) == |sample|;
    ShareBounds(|sample|, |sample|);
  }

  lemma {:induction false} TypeCountAll(s: seq<Cell>, t: PyType)
    requires forall k :: 0 <= k < |s| ==> TypeOf(s[k]) == t
    ensures TypeCount(s, t) == |s|
  {
    if s != [] {
      TypeCountAll(s[..|s| - 1], t);
    }
  }

  /** A column that raises in either loop makes the table score the
      fallback 0.85. */
  lemma RaiseFallsBack(lib: Lib, c: Check, f: Frame, j: nat)
    requires f.Valid() && !f.Empty() && j < |f.labels| && ScoreAt(lib, c, f, j).None?
    ensures Score(lib, f) == FallbackScore
  {
    ScoreSumNone(lib, c, f, |f.labels|);
    assert ScoreSum(lib, c, f, |f.labels|).None?;
  }

  /** With no column raising in either loop, both sums exist and the table
      scores their weighted mix. */
  lemma NoRaiseWeighted(lib: Lib, f: Frame)
    requires f.Valid() && !f.Empty()
    requires forall c: Check, j :: 0 <= j < |f.labels| ==> ScoreAt(lib, c, f, j).Some?
    ensures ScoreSum(lib, Consistency, f, |f.labels|).Some? && ScoreSum(lib, Validity, f, |f.labels|).Some?
    ensures Score(lib, f) == Weighted(lib, f, ScoreSum(lib, Consistency, f, |f.labels|).value,
                                      ScoreSum(lib, Validity, f, |f.labels|).value)
  {
    ScoreSumNone(lib, Consistency, f, |f.labels|);
    ScoreSumNone(lib, Validity, f, |f.labels|);
  }

  /** A nullable-integer column that leaves rows after `dropna` (for a
      label that does not repeat: one holding a value) makes the validity
      check raise where numpy rejects that dtype, and the table then scores
      the fallback 0.85. */
  lemma NullableIntFallback(lib: Lib, f: Frame, j: nat)
    requires f.Valid() && j < |f.labels| && f.dtypes[j] == NullableInt
    requires LabelRowsLeft(f, j) && lib.issubdtypeRejectsNullableInt
    ensures Score(lib, f) == FallbackScore
  {
    if Repeated(f.labels, j) {
      RepeatedLabelFallback(lib, f, j);
    } else {
      ScoreAtRaises(lib, Validity, f, j);
      RaiseFallsBack(lib, Validity, f, j);
    }
  }

  /** A repeated label that leaves rows after `dropna` makes the
      consistency loop raise, and the table scores the fallback 0.85. */
  lemma RepeatedLabelFallback(lib: Lib, f: Frame, j: nat)
    requires f.Valid() && j < |f.labels| && Repeated(f.labels, j) && LabelRowsLeft(f, j)
    ensures Score(lib, f) == FallbackScore
  {
    assert |f.rows| > 0;
    RaiseFallsBack(lib, Consistency, f, j);
  }
}
