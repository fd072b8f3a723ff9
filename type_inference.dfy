/** Per-column type inference and conversion (`_is_numeric_column`,
    `_is_date_column`, `_is_boolean_column`, `_should_be_categorical` and
    `_enhance_data_types_improved` in app.py). */
module TypeInference {
  import opened Wrappers
  import opened Text
  import opened Frames

  /** Share of values that must parse, compared strictly (`>`). */
  const NumericShare: real := 0.8
  const DateShare: real := 0.7
  const BooleanShare: real := 0.8
  /** `_is_date_column` only looks at this many non-null values. */
  const DateSampleSize: nat := 20
  const CategoryRatio: real := 0.5
  const CategoryLimit: nat := 100

  /** The strings `replace([...], np.nan)` turns into missing before inference. */
  const PreparedNullTokens: seq<string> := ["", "nan", "NaN", "null", "NULL", "None"]

  /** The lower-case spellings `_is_boolean_column` accepts. */
  const BoolTokens: set<string> :=
    {"true", "false", "yes", "no", "y", "n", "1", "0", "on", "off", "enabled", "disabled"}

  /** `bool_mapping` of `_enhance_data_types_improved`. */
  function BoolValue(s: string): (r: Option<bool>)
    ensures r.Some? <==> s in BoolTokens
  {
    if s in {"true", "yes", "y", "1", "on", "enabled"} then Some(true)
    else if s in {"false", "no", "n", "0", "off", "disabled"} then Some(false)
    else None
  }

  /** One cell after `astype(str).str.strip()` and the null-token replacement. */
  function PrepareCell(lib: Lib, d: Dtype, c: Cell): (v: Option<string>)
    ensures v.Some? ==> Stripped(v.value) && v.value !in PreparedNullTokens
  {
    var t := Strip(Render(lib, d, c));
    StripSpec(Render(lib, d, c));
    if t in PreparedNullTokens then None else Some(t)
  }

  function Prepare(lib: Lib, d: Dtype, col: seq<Cell>): (vals: seq<Option<string>>)
    ensures |vals| == |col|
    ensures forall k :: 0 <= k < |col| ==> vals[k] == PrepareCell(lib, d, col[k])
  {
    seq(|col|, k requires 0 <= k < |col| => PrepareCell(lib, d, col[k]))
  }

  /** `dropna()` of a prepared column. */
  function Present(vals: seq<Option<string>>): (xs: seq<string>)
    ensures |xs| <= |vals|
  {
    if vals == [] then []
    else Present(vals[..|vals| - 1]) + (if vals[|vals| - 1].Some? then [vals[|vals| - 1].value] else [])
  }

  /** What `float()` is given: the value without ',', '$' and '%', stripped. */
  function NumericText(s: string): string
  {
    Strip(RemoveChar(RemoveChar(RemoveChar(s, ','), '$'), '%'))
  }

  /** How many of xs `float()` accepts after cleaning. */
  function FloatCount(lib: Lib, xs: seq<string>): (n: nat)
    ensures n <= |xs|
  {
    if xs == [] then 0
    else FloatCount(lib, xs[..|xs| - 1]) + (if lib.pyFloat(NumericText(xs[|xs| - 1])) then 1 else 0)
  }

  /** How many of xs `pd.to_datetime` accepts. */
  function DateCount(lib: Lib, xs: seq<string>): (n: nat)
    ensures n <= |xs|
  {
    if xs == [] then 0
    else DateCount(lib, xs[..|xs| - 1]) + (if lib.toDatetime(xs[|xs| - 1]).Some? then 1 else 0)
  }

  /** The decision `_is_numeric_column` makes. */
  predicate NumericColumn(lib: Lib, vals: seq<Option<string>>)
  {
    var xs := Present(vals);
    |xs| > 0 && FloatCount(lib, xs) as real > |xs| as real * NumericShare
  }

  /** The decision `_is_date_column` makes, on the first 20 non-null values. */
  predicate DateColumn(lib: Lib, vals: seq<Option<string>>)
  {
    var xs := Present(vals);
    var size := Min(DateSampleSize, |xs|);
    |xs| > 0 && DateCount(lib, xs[..size]) as real > size as real * DateShare
  }

  function LowerSet(xs: seq<string>): set<string>
  {
    set k | 0 <= k < |xs| :: Lower(xs[k])
  }

  /** The decision `_is_boolean_column` makes. */
  predicate BooleanColumn(vals: seq<Option<string>>)
  {
    var xs := Present(vals);
    |xs| > 0 && |LowerSet(xs)| <= 2 && LowerSet(xs) <= BoolTokens
  }

  function Uniques(xs: seq<string>): set<string>
  {
    set k | 0 <= k < |xs| :: xs[k]
  }

  /** The decision `_should_be_categorical` makes. */
  predicate CategoricalColumn(vals: seq<Option<string>>)
  {
    var xs := Present(vals);
    var u := |Uniques(xs)|;
    |xs| > 0 && (u as real) / (|xs| as real) < CategoryRatio && u < CategoryLimit && u > 1
  }

  /** The numeric test is strict: it holds exactly when more than four
      fifths of the non-null values parse, so exactly 80% (8 of 10, 4 of 5)
      is not enough. */
  lemma NumericThresholdStrict(lib: Lib, vals: seq<Option<string>>)
    ensures NumericColumn(lib, vals) <==>
            |Present(vals)| > 0 && 5 * FloatCount(lib, Present(vals)) > 4 * |Present(vals)|
    ensures 5 * FloatCount(lib, Present(vals)) == 4 * |Present(vals)| ==> !NumericColumn(lib, vals)
  {
  }

  /** The date test is strict on its sample of at most 20 values: exactly
      70% (7 of 10, 14 of 20) is not enough. */
  lemma DateThresholdStrict(lib: Lib, vals: seq<Option<string>>)
    ensures var size := Min(DateSampleSize, |Present(vals)|);
            DateColumn(lib, vals) <==>
            |Present(vals)| > 0 && 10 * DateCount(lib, Present(vals)[..size]) > 7 * size
    ensures var size := Min(DateSampleSize, |Present(vals)|);
            10 * DateCount(lib, Present(vals)[..size]) == 7 * size ==> !DateColumn(lib, vals)
  {
  }

  /** The boolean conversion is strict: the mapped values must be more than
      four fifths of all cells, nulls included, so exactly 80% fails. */
  lemma BooleanThresholdStrict(vals: seq<Option<string>>)
    ensures BooleanSucceeds(vals) <==> BooleanColumn(vals) && 5 * SomeCount(BoolValues(vals)) > 4 * |vals|
    ensures 5 * SomeCount(BoolValues(vals)) == 4 * |vals| ==> !BooleanSucceeds(vals)
  {
  }

  lemma {:induction false} PresentAppend(vals: seq<Option<string>>, i: nat)
    requires i < |vals|
    ensures Present(vals[..i + 1]) ==
            Present(vals[..i]) + (if vals[i].Some? then [vals[i].value] else [])
  {
    assert vals[..i + 1][..i] == vals[..i];
  }

  lemma FloatCountAppend(lib: Lib, xs: seq<string>, x: string)
    ensures FloatCount(lib, xs + [x]) == FloatCount(lib, xs) + (if lib.pyFloat(NumericText(x)) then 1 else 0)
  {
    assert (xs + [x])[..|xs|] == xs;
  }

  /** `_is_numeric_column`: counts the non-null values `float()` accepts
      after cleaning and answers whether they are strictly more than 80%. */
  method IsNumericColumn(lib: Lib, vals: seq<Option<string>>) returns (b: bool)
    ensures b == NumericColumn(lib, vals)
  {
    var present := 0;
    var numeric := 0;
    var i := 0;
    while i < |vals|
      invariant 0 <= i <= |vals|
      invariant present == |Present(vals[..i])|
      invariant numeric == FloatCount(lib, Present(vals[..i]))
    {
      PresentAppend(vals, i);
      if vals[i].None? {
        assert Present(vals[..i + 1]) == Present(vals[..i]);
      } else {
        FloatCountAppend(lib, Present(vals[..i]), vals[i].value);
        present := present + 1;
        if lib.pyFloat(NumericText(vals[i].value)) {
          numeric := numeric + 1;
        }
      }
      i := i + 1;
    }
    assert vals[..i] == vals;
    if present == 0 {
      return false;
    }
    b := numeric as real > present as real * NumericShare;
  }

  /** `_is_date_column`: counts, among the first min(20, n) non-null values,
      those `pd.to_datetime` accepts, and answers whether they are strictly
      more than 70% of that sample. */
  method IsDateColumn(lib: Lib, vals: seq<Option<string>>) returns (b: bool)
    ensures b == DateColumn(lib, vals)
  {
    var xs := Present(vals);
    if |xs| == 0 {
      return false;
    }
    var size := Min(DateSampleSize, |xs|);
    var count := 0;
    var i := 0;
    while i < size
      invariant 0 <= i <= size
      invariant count == DateCount(lib, xs[..i])
    {
      assert xs[..i + 1][..i] == xs[..i];
      if lib.toDatetime(xs[i]).Some? {
        count := count + 1;
      }
      i := i + 1;
    }
    b := count as real > size as real * DateShare;
  }

  /** The conversion `_enhance_data_types_improved` picks for one column. */
  datatype Conversion = Unchanged | ToInt | ToFloat | ToDate | ToBool | ToCategory | ToString

  /** dtypes the conversion leaves alone. */
  predicate AlreadyTyped(d: Dtype)
  {
    d == Int64 || d == Float64 || d == Datetime64 || d == BoolType
  }

  function SomeCount<T>(s: seq<Option<T>>): (n: nat)
    ensures n <= |s|
  {
    if s == [] then 0 else SomeCount(s[..|s| - 1]) + (if s[|s| - 1].Some? then 1 else 0)
  }

  /** `pd.to_numeric(col_data, errors='coerce')`. */
  function NumericValues(lib: Lib, vals: seq<Option<string>>): (ps: seq<Option<Number>>)
    ensures |ps| == |vals|
  {
    seq(|vals|, k requires 0 <= k < |vals| => if vals[k].Some? then lib.toNumeric(vals[k].value) else None)
  }

  /** `pd.to_datetime(col_data, errors='coerce')`. */
  function DateValues(lib: Lib, vals: seq<Option<string>>): (ps: seq<Option<int>>)
    ensures |ps| == |vals|
  {
    seq(|vals|, k requires 0 <= k < |vals| => if vals[k].Some? then lib.toDatetime(vals[k].value) else None)
  }

  /** `col_data.str.lower().map(bool_mapping)`. */
  function BoolValues(vals: seq<Option<string>>): (ps: seq<Option<bool>>)
    ensures |ps| == |vals|
  {
    seq(|vals|, k requires 0 <= k < |vals| => if vals[k].Some? then BoolValue(Lower(vals[k].value)) else None)
  }

  predicate Integral(r: real)
  {
    r == r.Floor as real
  }

  /** The int64 range of `astype(int)`. */
  const Int64Min: int := -0x8000_0000_0000_0000
  const Int64Limit: int := 0x8000_0000_0000_0000

  /** No parsed value is an infinity; `astype(int)` raises on one. */
  predicate AllFinite(ps: seq<Option<Number>>)
  {
    forall k :: 0 <= k < |ps| && ps[k].Some? ==> ps[k].value.Finite?
  }

  /** A finite value equals its int64 cast: it is integral and in the int64
      range (outside it the cast yields a different number). */
  predicate CastExact(r: real)
  {
    Integral(r) && Int64Min <= r.Floor < Int64Limit
  }

  /** `(non_null_data == non_null_data.astype(int)).all()` on finite values. */
  predicate AllIntegral(ps: seq<Option<Number>>)
  {
    forall k :: 0 <= k < |ps| && ps[k].Some? ==> ps[k].value.Finite? && CastExact(ps[k].value.r)
  }

  /** Strategy 1 converts: `_is_numeric_column` holds and more than 80% of all
      cells, nulls included, survive `pd.to_numeric`. */
  predicate NumericSucceeds(lib: Lib, vals: seq<Option<string>>)
  {
    NumericColumn(lib, vals) && SomeCount(NumericValues(lib, vals)) as real > |vals| as real * NumericShare
  }

  predicate DateSucceeds(lib: Lib, vals: seq<Option<string>>)
  {
    DateColumn(lib, vals) && SomeCount(DateValues(lib, vals)) as real > |vals| as real * DateShare
  }

  predicate BooleanSucceeds(vals: seq<Option<string>>)
  {
    BooleanColumn(vals) && SomeCount(BoolValues(vals)) as real > |vals| as real * BooleanShare
  }

  /** The strategies after the numeric one, in their fixed order. */
  function LaterStrategy(lib: Lib, vals: seq<Option<string>>): Conversion
  {
    if DateSucceeds(lib, vals) then ToDate
    else if BooleanSucceeds(vals) then ToBool
    else if CategoricalColumn(vals) then ToCategory
    else ToString
  }

  /** Strategies in their fixed order on the prepared values; the first
      that succeeds wins. An infinity makes the integer check of strategy 1
      raise, and the except clause passes on to strategy 2. */
  function Strategy(lib: Lib, vals: seq<Option<string>>): Conversion
  {
    var ps := NumericValues(lib, vals);
    if NumericSucceeds(lib, vals) && AllFinite(ps) then
      (if AllIntegral(ps) then ToInt else ToFloat)
    else LaterStrategy(lib, vals)
  }

  function Choose(lib: Lib, d: Dtype, col: seq<Cell>): Conversion
  {
    if AlreadyTyped(d) then Unchanged else Strategy(lib, Prepare(lib, d, col))
  }

  /** `astype('Int64')` of values that passed the integer check; an infinity
      never gets here, since the check raised on it. */
  function IntCells(ps: seq<Option<Number>>): (cells: seq<Cell>)
    ensures |cells| == |ps|
  {
    seq(|ps|, k requires 0 <= k < |ps| => if ps[k].Some? && ps[k].value.Finite? then Int(ps[k].value.r.Floor) else Null)
  }

  function FloatCell(p: Option<Number>): Cell
  {
    match p
    case None => Null
    case Some(Finite(r)) => Num(r)
    case Some(Infinite(positive)) => Inf(positive)
  }

  function FloatCells(ps: seq<Option<Number>>): (cells: seq<Cell>)
    ensures |cells| == |ps|
  {
    seq(|ps|, k requires 0 <= k < |ps| => FloatCell(ps[k]))
  }

  function DateCells(ps: seq<Option<int>>): (cells: seq<Cell>)
    ensures |cells| == |ps|
  {
    seq(|ps|, k requires 0 <= k < |ps| => if ps[k].Some? then Date(ps[k].value) else Null)
  }

  function BoolCells(ps: seq<Option<bool>>): (cells: seq<Cell>)
    ensures |cells| == |ps|
  {
    seq(|ps|, k requires 0 <= k < |ps| => if ps[k].Some? then Bool(ps[k].value) else Null)
  }

  function TextCells(vals: seq<Option<string>>): (cells: seq<Cell>)
    ensures |cells| == |vals|
  {
    seq(|vals|, k requires 0 <= k < |vals| => if vals[k].Some? then Str(vals[k].value) else Null)
  }

  /** The dtype and cells a conversion produces from the prepared values. A
      boolean map that leaves a missing value gives an object column, as
      pandas does. */
  function Apply(lib: Lib, d: Dtype, col: seq<Cell>, vals: seq<Option<string>>, c: Conversion): (r: (Dtype, seq<Cell>))
    requires |vals| == |col|
    ensures |r.1| == |col|
  {
    match c
    case Unchanged => (d, col)
    case ToInt => (NullableInt, IntCells(NumericValues(lib, vals)))
    case ToFloat => (Float64, FloatCells(NumericValues(lib, vals)))
    case ToDate => (Datetime64, DateCells(DateValues(lib, vals)))
    case ToBool =>
      var ps := BoolValues(vals);
      (if SomeCount(ps) == |ps| then BoolType else Object, BoolCells(ps))
    case ToCategory => (Category, TextCells(vals))
    case ToString => (StringType, TextCells(vals))
  }

  /** The dtype and cells column `col` has after `_enhance_data_types_improved`. */
  function Convert(lib: Lib, d: Dtype, col: seq<Cell>): (r: (Dtype, seq<Cell>))
    ensures |r.1| == |col|
  {
    Apply(lib, d, col, Prepare(lib, d, col), Choose(lib, d, col))
  }

  /** Strategies 2 to 5, for a column the numeric strategy did not convert. */
  method ChooseLater(lib: Lib, vals: seq<Option<string>>) returns (c: Conversion)
    ensures c == LaterStrategy(lib, vals)
  {
    var date := IsDateColumn(lib, vals);
    if date && SomeCount(DateValues(lib, vals)) as real > |vals| as real * DateShare {
      c := ToDate;
    } else if BooleanSucceeds(vals) {
      c := ToBool;
    } else if CategoricalColumn(vals) {
      c := ToCategory;
    } else {
      c := ToString;
    }
  }

  /** One column of `_enhance_data_types_improved`, calling the two
      counting tests as the source does and trying the strategies in order. */
  method ConvertColumn(lib: Lib, d: Dtype, col: seq<Cell>) returns (nd: Dtype, cells: seq<Cell>)
    ensures (nd, cells) == Convert(lib, d, col)
  {
    if AlreadyTyped(d) {
      return d, col;
    }
    var vals := Prepare(lib, d, col);
    var c := ChooseStrategy(lib, vals);
    var r := Apply(lib, d, col, vals, c);
    nd, cells := r.0, r.1;
  }

  /** The strategy tests of one column, in order. */
  method ChooseStrategy(lib: Lib, vals: seq<Option<string>>) returns (c: Conversion)
    ensures c == Strategy(lib, vals)
  {
    var ps := NumericValues(lib, vals);
    var numeric := IsNumericColumn(lib, vals);
    // `astype(int)` raises on an infinity and the except clause passes
    if numeric && SomeCount(ps) as real > |vals| as real * NumericShare && AllFinite(ps) {
      c := if AllIntegral(ps) then ToInt else ToFloat;
    } else {
      c := ChooseLater(lib, vals);
    }
  }

  /** The conversion of every column of f. */
  function Conversions(lib: Lib, f: Frame): (cs: seq<(Dtype, seq<Cell>)>)
    requires f.Valid()
    ensures |cs| == |f.labels| && forall k :: 0 <= k < |cs| ==> |cs[k].1| == |f.rows|
  {
    seq(|f.labels|, k requires 0 <= k < |f.labels| => Convert(lib, f.dtypes[k], f.Column(k)))
  }

  /** The frame after the first j columns have been converted. */
  function EnhancedUpTo(lib: Lib, f: Frame, j: nat): (g: Frame)
    requires f.Valid() && j <= |f.labels|
    ensures g.Valid() && g.labels == f.labels && |g.rows| == |f.rows|
  {
    SetColumns(f, Conversions(lib, f), j)
  }

  /** The result of the step: every column converted, or the input itself
      when a label repeats, since `enhanced_df[col]` is then a DataFrame,
      its `.dtype` raises and the except clause returns the input. */
  function Enhanced(lib: Lib, f: Frame): (g: Frame)
    requires f.Valid()
    ensures g.Valid() && g.labels == f.labels && |g.rows| == |f.rows|
  {
    if Distinct(f.labels) then EnhancedUpTo(lib, f, |f.labels|) else f
  }

  /** `_enhance_data_types_improved`: converts the columns of a copy one at a
      time, left to right, and gives up on the copy at the first repeated
      label. */
  method EnhanceDataTypes(lib: Lib, f: Frame) returns (g: Frame)
    requires f.Valid()
    ensures g == Enhanced(lib, f)
  {
    ghost var cs := Conversions(lib, f);
    g := f;
    var j := 0;
    while j < |f.labels|
      invariant 0 <= j <= |f.labels|
      invariant j <= FirstRepeated(f.labels, 0)
      invariant g == SetColumns(f, cs, j)
    {
      if Repeated(f.labels, j) {
        RepeatedNotDistinct(f.labels, j);
        return f;
      }
      var d, cells := ConvertColumn(lib, f.dtypes[j], f.Column(j));
      assert (d, cells) == cs[j];
      g := SetColumn(g, j, d, cells);
      j := j + 1;
    }
    NoRepeatedDistinct(f.labels);
  }

  /** The pass over the first j columns: the labels and the number of rows
      stay, column k below j is exactly the conversion of column k, and the
      columns from j on are untouched. */
  lemma EnhancedColumns(lib: Lib, f: Frame, j: nat)
    requires f.Valid() && j <= |f.labels|
    ensures EnhancedUpTo(lib, f, j).labels == f.labels
    ensures |EnhancedUpTo(lib, f, j).rows| == |f.rows|
    ensures forall k :: 0 <= k < j ==>
              EnhancedUpTo(lib, f, j).dtypes[k] == Convert(lib, f.dtypes[k], f.Column(k)).0
              && EnhancedUpTo(lib, f, j).Column(k) == Convert(lib, f.dtypes[k], f.Column(k)).1
    ensures forall k :: j <= k < |f.labels| ==>
              EnhancedUpTo(lib, f, j).dtypes[k] == f.dtypes[k]
              && EnhancedUpTo(lib, f, j).Column(k) == f.Column(k)
  {
    SetColumnsSpec(f, Conversions(lib, f), j);
  }

  /** With distinct labels every column is converted on its own; with a
      repeated label nothing is. */
  lemma EnhancedSpec(lib: Lib, f: Frame)
    requires f.Valid()
    ensures Enhanced(lib, f).labels == f.labels && |Enhanced(lib, f).rows| == |f.rows|
    ensures !Distinct(f.labels) ==> Enhanced(lib, f) == f
    ensures Distinct(f.labels) ==> forall k :: 0 <= k < |f.labels| ==>
              Enhanced(lib, f).dtypes[k] == Convert(lib, f.dtypes[k], f.Column(k)).0
              && Enhanced(lib, f).Column(k) == Convert(lib, f.dtypes[k], f.Column(k)).1
  {
    if Distinct(f.labels) {
      EnhancedColumns(lib, f, |f.labels|);
    }
  }

  /** A column whose dtype is already int64, float64, datetime64 or bool is
      left exactly as it was. */
  lemma TypedColumnsSkipped(lib: Lib, f: Frame, k: nat)
    requires f.Valid() && k < |f.labels| && AlreadyTyped(f.dtypes[k])
    ensures Enhanced(lib, f).dtypes[k] == f.dtypes[k]
    ensures Enhanced(lib, f).Column(k) == f.Column(k)
  {
    EnhancedSpec(lib, f);
  }

  /** The cell kinds a dtype holds, besides missing values. */
  predicate Conforms(d: Dtype, c: Cell)
  {
    c.Null? ||
    match d
    case Int64 => c.Int?
    case NullableInt => c.Int?
    case Float64 => c.Num? || c.Inf?
    case Datetime64 => c.Date?
    case BoolType => c.Bool?
    case Category => c.Str?
    case StringType => c.Str?
    case Object => true
  }

  /** Every converted column holds only values of its new dtype or missing
      values; an object column made by the boolean strategy holds only
      booleans, and a bool column holds no missing value. */
  lemma ConvertedCellsConform(lib: Lib, d: Dtype, col: seq<Cell>)
    requires !AlreadyTyped(d)
    ensures var r := Convert(lib, d, col);
            forall k :: 0 <= k < |col| ==> Conforms(r.0, r.1[k])
    ensures var r := Convert(lib, d, col);
            r.0 == Object ==> forall k :: 0 <= k < |col| ==> r.1[k].Null? || r.1[k].Bool?
    ensures var r := Convert(lib, d, col);
            r.0 == BoolType ==> forall k :: 0 <= k < |col| ==> r.1[k].Bool?
  {
    ApplyConforms(lib, d, col, Prepare(lib, d, col), Choose(lib, d, col));
  }

  lemma ApplyConforms(lib: Lib, d: Dtype, col: seq<Cell>, vals: seq<Option<string>>, c: Conversion)
    requires |vals| == |col| && c != Unchanged
    ensures var r := Apply(lib, d, col, vals, c);
            forall k :: 0 <= k < |col| ==> Conforms(r.0, r.1[k])
    ensures var r := Apply(lib, d, col, vals, c);
            r.0 == Object ==> forall k :: 0 <= k < |col| ==> r.1[k].Null? || r.1[k].Bool?
    ensures var r := Apply(lib, d, col, vals, c);
            r.0 == BoolType ==> forall k :: 0 <= k < |col| ==> r.1[k].Bool?
  {
    if c == ToBool {
      var ps := BoolValues(vals);
      if SomeCount(ps) == |ps| {
        AllSome(ps);
      }
    }
  }

  lemma {:induction false} AllSome<T>(s: seq<Option<T>>)
    requires SomeCount(s) == |s|
    ensures forall k :: 0 <= k < |s| ==> s[k].Some?
  {
    if s != [] {
      AllSome(s[..|s| - 1]);
      forall k | 0 <= k < |s| - 1 ensures s[k].Some? {
        assert s[..|s| - 1][k] == s[k];
      }
    }
  }

  /** When the numeric strategy succeeds on finite values it yields nullable
      Int64 exactly when every parsed value equals its int64 cast, and
      float64 otherwise, keeping each parsed value and leaving a missing value
      where parsing failed; no later strategy is consulted. An infinity makes
      the integer check raise, and the later strategies decide instead. */
  lemma NumericFirst(lib: Lib, d: Dtype, col: seq<Cell>)
    requires !AlreadyTyped(d) && NumericSucceeds(lib, Prepare(lib, d, col))
    ensures var ps := NumericValues(lib, Prepare(lib, d, col));
            AllFinite(ps) ==> Convert(lib, d, col).0 == (if AllIntegral(ps) then NullableInt else Float64)
    ensures var ps := NumericValues(lib, Prepare(lib, d, col));
            AllFinite(ps) ==> forall k :: 0 <= k < |col| ==>
              (ps[k].None? ==> Convert(lib, d, col).1[k] == Null)
              && (ps[k].Some? ==> Convert(lib, d, col).1[k] == (if AllIntegral(ps) then Int(ps[k].value.r.Floor) else Num(ps[k].value.r)))
    ensures var ps := NumericValues(lib, Prepare(lib, d, col));
            AllIntegral(ps) ==> forall k :: 0 <= k < |col| && ps[k].Some? ==>
              Convert(lib, d, col).1[k] == Int(ps[k].value.r.Floor) && ps[k].value.r == ps[k].value.r.Floor as real
    ensures var ps := NumericValues(lib, Prepare(lib, d, col));
            !AllFinite(ps) ==> Choose(lib, d, col) == LaterStrategy(lib, Prepare(lib, d, col))
  {
  }

  lemma {:induction false} PresentAll(vals: seq<Option<string>>)
    requires forall k :: 0 <= k < |vals| ==> vals[k].Some?
    ensures |Present(vals)| == |vals|
    ensures forall k :: 0 <= k < |vals| ==> Present(vals)[k] == vals[k].value
  {
    if vals != [] {
      PresentAll(vals[..|vals| - 1]);
    }
  }

  lemma {:induction false} FloatCountAll(lib: Lib, xs: seq<string>)
    requires forall k :: 0 <= k < |xs| ==> lib.pyFloat(NumericText(xs[k]))
    ensures FloatCount(lib, xs) == |xs|
  {
    if xs != [] {
      FloatCountAll(lib, xs[..|xs| - 1]);
    }
  }

  lemma {:induction false} SomeCountAll<T>(s: seq<Option<T>>)
    requires forall k :: 0 <= k < |s| ==> s[k].Some?
    ensures SomeCount(s) == |s|
  {
    if s != [] {
      SomeCountAll(s[..|s| - 1]);
    }
  }

  /** A column of nine copies of one number and one infinity (nine "1" and
      one "inf", say) passes the numeric test, but the integer check raises
      on the infinity. When no value parses as a date and the infinity is no
      boolean word, the two distinct values among ten make it a category
      column rather than an integer one. */
  lemma InfinityFallsThrough(lib: Lib, col: seq<Cell>, a: string, b: string)
    requires |col| == 10 && (forall k :: 0 <= k < 9 ==> col[k] == Str(a)) && col[9] == Str(b)
    requires Stripped(a) && Stripped(b) && a !in PreparedNullTokens && b !in PreparedNullTokens && a != b
    requires lib.pyFloat(NumericText(a)) && lib.pyFloat(NumericText(b))
    requires lib.toNumeric(a).Some? && lib.toNumeric(a).value.Finite? && lib.toNumeric(b).Some? && lib.toNumeric(b).value.Infinite?
    requires lib.toDatetime(a).None? && lib.toDatetime(b).None? && Lower(b) !in BoolTokens
    ensures Choose(lib, Object, col) == ToCategory
    ensures Convert(lib, Object, col).0 == Category
  {
    OnesAndInfPrepared(lib, col, a, b);
    assert Strategy(lib, OnesAndInf(a, b)) == ToCategory by {
      OnesAndInfNumeric(lib, a, b);
      OnesAndInfLater(lib, a, b);
    }
  }

  /** The prepared values of that column. */
  function OnesAndInf(a: string, b: string): (vals: seq<Option<string>>)
    ensures |vals| == 10
  {
    seq(10, k requires 0 <= k < 10 => if k < 9 then Some(a) else Some(b))
  }

  lemma OnesAndInfPrepared(lib: Lib, col: seq<Cell>, a: string, b: string)
    requires |col| == 10 && (forall k :: 0 <= k < 9 ==> col[k] == Str(a)) && col[9] == Str(b)
    requires Stripped(a) && Stripped(b) && a !in PreparedNullTokens && b !in PreparedNullTokens
    ensures Prepare(lib, Object, col) == OnesAndInf(a, b)
  {
    var vals := Prepare(lib, Object, col);
    PrepareText(lib, a);
    PrepareText(lib, b);
    forall k | 0 <= k < 10
      ensures vals[k] == OnesAndInf(a, b)[k]
    {
      assert vals[k] == PrepareCell(lib, Object, col[k]);
    }
  }

  /** Text that is already stripped and spells no missing value is prepared as itself. */
  lemma PrepareText(lib: Lib, s: string)
    requires Stripped(s) && s !in PreparedNullTokens
    ensures PrepareCell(lib, Object, Str(s)) == Some(s)
  {
    StripOfStripped(s);
  }

  lemma OnesAndInfPresent(a: string, b: string)
    ensures |Present(OnesAndInf(a, b))| == 10
    ensures forall k :: 0 <= k < 10 ==> Present(OnesAndInf(a, b))[k] == (if k < 9 then a else b)
  {
    PresentAll(OnesAndInf(a, b));
  }

  lemma OnesAndInfNumeric(lib: Lib, a: string, b: string)
    requires lib.pyFloat(NumericText(a)) && lib.pyFloat(NumericText(b))
    requires lib.toNumeric(a).Some? && lib.toNumeric(b).Some? && lib.toNumeric(b).value.Infinite?
    ensures NumericSucceeds(lib, OnesAndInf(a, b))
    ensures !AllFinite(NumericValues(lib, OnesAndInf(a, b)))
  {
    var vals := OnesAndInf(a, b);
    OnesAndInfPresent(a, b);
    var xs := Present(vals);
    FloatCountAll(lib, xs);
    SomeCountAll(NumericValues(lib, vals));
    assert NumericValues(lib, vals)[9] == lib.toNumeric(b);
  }

  /** Neither the date nor the boolean strategy applies, the category one does. */
  lemma OnesAndInfLater(lib: Lib, a: string, b: string)
    requires lib.toDatetime(a).None? && lib.toDatetime(b).None? && Lower(b) !in BoolTokens && a != b
    ensures LaterStrategy(lib, OnesAndInf(a, b)) == ToCategory
  {
    var vals := OnesAndInf(a, b);
    OnesAndInfPresent(a, b);
    var xs := Present(vals);
    assert !DateSucceeds(lib, vals) by {
      DateCountNone(lib, xs[..10]);
    }
    assert !BooleanSucceeds(vals) by {
      assert Lower(xs[9]) in LowerSet(xs);
    }
    assert CategoricalColumn(vals) by {
      assert Uniques(xs) == {a, b} by {
        assert xs[0] in Uniques(xs) && xs[9] in Uniques(xs);
      }
    }
  }

  /** No value of xs parses as a date. */
  lemma {:induction false} DateCountNone(lib: Lib, xs: seq<string>)
    requires forall k :: 0 <= k < |xs| ==> lib.toDatetime(xs[k]).None?
    ensures DateCount(lib, xs) == 0
  {
    if xs != [] {
      DateCountNone(lib, xs[..|xs| - 1]);
    }
  }

  /** A column whose every value survives preparation, passes `float()` and
      converts to an integral number becomes a nullable Int64 column holding
      those integers. */
  lemma IntegralColumnBecomesInteger(lib: Lib, d: Dtype, col: seq<Cell>)
    requires !AlreadyTyped(d) && |col| > 0
    requires forall k :: 0 <= k < |col| ==>
               var v := PrepareCell(lib, d, col[k]);
               v.Some? && lib.pyFloat(NumericText(v.value))
               && lib.toNumeric(v.value).Some? && lib.toNumeric(v.value).value.Finite?
               && CastExact(lib.toNumeric(v.value).value.r)
    ensures Convert(lib, d, col).0 == NullableInt
    ensures forall k :: 0 <= k < |col| ==>
              Convert(lib, d, col).1[k] == Int(lib.toNumeric(PrepareCell(lib, d, col[k]).value).value.r.Floor)
  {
    var vals := Prepare(lib, d, col);
    IntChosen(lib, d, col);
    IntConverted(lib, d, col);
    forall k | 0 <= k < |col|
      ensures Convert(lib, d, col).1[k] == Int(lib.toNumeric(PrepareCell(lib, d, col[k]).value).value.r.Floor)
    {
      assert vals[k] == PrepareCell(lib, d, col[k]);
    }
  }

  lemma IntChosen(lib: Lib, d: Dtype, col: seq<Cell>)
    requires !AlreadyTyped(d) && |col| > 0
    requires forall k :: 0 <= k < |col| ==>
               var v := PrepareCell(lib, d, col[k]);
               v.Some? && lib.pyFloat(NumericText(v.value))
               && lib.toNumeric(v.value).Some? && lib.toNumeric(v.value).value.Finite?
               && CastExact(lib.toNumeric(v.value).value.r)
    ensures Choose(lib, d, col) == ToInt
  {
    IntegralValuesParse(lib, Prepare(lib, d, col));
  }

  lemma IntConverted(lib: Lib, d: Dtype, col: seq<Cell>)
    requires Choose(lib, d, col) == ToInt
    ensures Convert(lib, d, col) == (NullableInt, IntCells(NumericValues(lib, Prepare(lib, d, col))))
  {
  }

  lemma IntegralValuesParse(lib: Lib, vals: seq<Option<string>>)
    requires |vals| > 0
    requires forall k :: 0 <= k < |vals| ==>
               vals[k].Some? && lib.pyFloat(NumericText(vals[k].value))
               && lib.toNumeric(vals[k].value).Some? && lib.toNumeric(vals[k].value).value.Finite?
               && CastExact(lib.toNumeric(vals[k].value).value.r)
    ensures NumericSucceeds(lib, vals)
    ensures AllFinite(NumericValues(lib, vals)) && AllIntegral(NumericValues(lib, vals))
  {
    PresentAll(vals);
    FloatCountAll(lib, Present(vals));
    assert |vals| as real > |vals| as real * NumericShare;
    var ps := NumericValues(lib, vals);
    SomeCountAll(ps);
    forall k | 0 <= k < |ps| && ps[k].Some?
      ensures ps[k].value.Finite? && CastExact(ps[k].value.r)
    {
      assert ps[k] == lib.toNumeric(vals[k].value);
    }
  }

  /** A column of the strings "0" and "1" passes the numeric test before the
      boolean one is tried, so it becomes a nullable Int64 column, not a bool
      column. */
  lemma ZeroOneColumnBecomesInteger(lib: Lib, col: seq<Cell>)
    requires |col| > 0
    requires forall k :: 0 <= k < |col| ==> col[k] == Str("0") || col[k] == Str("1")
    requires lib.pyFloat("0") && lib.pyFloat("1")
    requires lib.toNumeric("0") == Some(Finite(0.0)) && lib.toNumeric("1") == Some(Finite(1.0))
    ensures Convert(lib, Object, col).0 == NullableInt
    ensures forall k :: 0 <= k < |col| ==>
              Convert(lib, Object, col).1[k] == (if col[k] == Str("1") then Int(1) else Int(0))
  {
    assert CastExact(1.0) && CastExact(0.0);
    ZeroOneText();
    ZeroOnePrepared(lib, col);
    IntegralColumnBecomesInteger(lib, Object, col);
  }

  lemma ZeroOneText()
    ensures NumericText("0") == "0" && NumericText("1") == "1"
  {
    assert "0"[1..] == [] && "1"[1..] == [];
    assert RemoveChar("0", ',') == "0" && RemoveChar("1", ',') == "1";
    assert RemoveChar("0", '$') == "0" && RemoveChar("1", '$') == "1";
    assert RemoveChar("0", '%') == "0" && RemoveChar("1", '%') == "1";
    assert Strip("0") == "0" && Strip("1") == "1";
  }

  lemma ZeroOnePrepared(lib: Lib, col: seq<Cell>)
    requires forall k :: 0 <= k < |col| ==> col[k] == Str("0") || col[k] == Str("1")
    ensures forall k :: 0 <= k < |col| ==> PrepareCell(lib, Object, col[k]) == Some(col[k].s)
  {
    assert Strip("0") == "0" && Strip("1") == "1";
  }

  /** A column that is not numeric and not a date, whose values are all
      present and are spellings of at most two boolean words, becomes a
      bool column holding the mapped truth values. */
  lemma BooleanConversion(lib: Lib, d: Dtype, col: seq<Cell>)
    requires !AlreadyTyped(d)
    requires var vals := Prepare(lib, d, col);
             !NumericSucceeds(lib, vals) && !DateSucceeds(lib, vals) && BooleanColumn(vals)
    requires forall k :: 0 <= k < |col| ==> PrepareCell(lib, d, col[k]).Some?
    ensures Convert(lib, d, col).0 == BoolType
    ensures forall k :: 0 <= k < |col| ==>
              var v := BoolValue(Lower(PrepareCell(lib, d, col[k]).value));
              v.Some? && Convert(lib, d, col).1[k] == Bool(v.value)
  {
    var vals := Prepare(lib, d, col);
    var ps := BoolValues(vals);
    BoolChosen(lib, d, col);
    BoolConverted(lib, d, col);
    forall k | 0 <= k < |col|
      ensures var v := BoolValue(Lower(PrepareCell(lib, d, col[k]).value));
              v.Some? && Convert(lib, d, col).1[k] == Bool(v.value)
    {
      assert ps[k] == BoolValue(Lower(vals[k].value));
    }
  }

  /** Under the same conditions the boolean strategy is the one chosen, and
      every value maps. */
  lemma BoolChosen(lib: Lib, d: Dtype, col: seq<Cell>)
    requires !AlreadyTyped(d)
    requires var vals := Prepare(lib, d, col);
             !NumericSucceeds(lib, vals) && !DateSucceeds(lib, vals) && BooleanColumn(vals)
    requires forall k :: 0 <= k < |col| ==> PrepareCell(lib, d, col[k]).Some?
    ensures Choose(lib, d, col) == ToBool
    ensures forall k :: 0 <= k < |col| ==> BoolValues(Prepare(lib, d, col))[k].Some?
  {
    var vals := Prepare(lib, d, col);
    BoolValuesAllSome(vals);
    SomeCountAll(BoolValues(vals));
  }

  /** Once the boolean strategy is chosen and every value maps, the column
      becomes a bool column of the mapped values. */
  lemma BoolConverted(lib: Lib, d: Dtype, col: seq<Cell>)
    requires Choose(lib, d, col) == ToBool
    requires forall k :: 0 <= k < |col| ==> BoolValues(Prepare(lib, d, col))[k].Some?
    ensures Convert(lib, d, col) == (BoolType, BoolCells(BoolValues(Prepare(lib, d, col))))
  {
    SomeCountAll(BoolValues(Prepare(lib, d, col)));
  }

  /** In a boolean column without missing values every value maps. */
  lemma BoolValuesAllSome(vals: seq<Option<string>>)
    requires forall k :: 0 <= k < |vals| ==> vals[k].Some?
    requires BooleanColumn(vals)
    ensures forall k :: 0 <= k < |vals| ==> BoolValues(vals)[k].Some?
  {
    PresentAll(vals);
    var xs := Present(vals);
    forall k | 0 <= k < |vals| ensures BoolValues(vals)[k].Some? {
      assert Lower(xs[k]) in LowerSet(xs);
    }
  }

  /** `_should_be_categorical` needs at least two distinct values making up
      less than half of the values, so it never holds with fewer than five
      non-null values. */
  lemma CategoricalNeedsFiveValues(vals: seq<Option<string>>)
    requires CategoricalColumn(vals)
    ensures |Present(vals)| >= 5
  {
    var xs := Present(vals);
    RatioBelow(|Uniques(xs)| as real, |xs| as real, CategoryRatio);
  }

  /** A ratio below c means a numerator below c times the denominator. */
  lemma RatioBelow(u: real, n: real, c: real)
    requires n > 0.0 && u / n < c
    ensures u < c * n
  {
    var r := u / n;
    assert r * n == u;
    assert r * n < c * n;
  }

  /** `_is_date_column` decides on the first twenty non-null values alone. */
  lemma DateSampleOnly(lib: Lib, a: seq<Option<string>>, b: seq<Option<string>>)
    requires |Present(a)| >= DateSampleSize && |Present(b)| >= DateSampleSize
    requires Present(a)[..DateSampleSize] == Present(b)[..DateSampleSize]
    ensures DateColumn(lib, a) == DateColumn(lib, b)
  {
  }
}
