/** The table helpers of utils.py: the frame check, per-column type
    detection, cleaning suggestions, column selection, number formatting
    and CSV separator detection. */
module Utils {
  import opened Wrappers
  import opened Text
  import opened Frames

  // ---------------------------------------------------------------------
  // validate_dataframe

  const ValidMessage: string := "DataFrame is valid"
  const NoneMessage: string := "DataFrame is None"
  const EmptyMessage: string := "DataFrame is empty"

  function RowsMessage(n: int, minRows: int): string
  {
    "DataFrame has " + IntToString(n) + " rows, minimum " + IntToString(minRows) + " required"
  }

  function ColumnsMessage(n: int, minCols: int): string
  {
    "DataFrame has " + IntToString(n) + " columns, minimum " + IntToString(minCols) + " required"
  }

  /** `validate_dataframe`: the four checks in order, each with its message. */
  function ValidateDataFrame(f: Option<Frame>, minRows: int, minCols: int): (r: (bool, string))
  {
    if f.None? then (false, NoneMessage)
    else if f.value.Empty() then (false, EmptyMessage)
    else if |f.value.rows| < minRows then (false, RowsMessage(|f.value.rows|, minRows))
    else if |f.value.labels| < minCols then (false, ColumnsMessage(|f.value.labels|, minCols))
    else (true, ValidMessage)
  }

  /** The frame is accepted exactly when it is present, not empty and has at
      least the required rows and columns, and only then does the message
      say it is valid; each failure has its own message, which appears
      exactly when its check is the first to fail. */
  lemma ValidateDataFrameSpec(f: Option<Frame>, minRows: int, minCols: int)
    ensures ValidateDataFrame(f, minRows, minCols).0 <==>
              f.Some? && !f.value.Empty() && |f.value.rows| >= minRows && |f.value.labels| >= minCols
    ensures ValidateDataFrame(f, minRows, minCols).1 == ValidMessage <==> ValidateDataFrame(f, minRows, minCols).0
    ensures ValidateDataFrame(f, minRows, minCols).1 == NoneMessage <==> f.None?
    ensures ValidateDataFrame(f, minRows, minCols).1 == EmptyMessage <==> f.Some? && f.value.Empty()
    ensures f.Some? ==>
              (ValidateDataFrame(f, minRows, minCols).1 == RowsMessage(|f.value.rows|, minRows) <==>
               !f.value.Empty() && |f.value.rows| < minRows)
    ensures f.Some? ==>
              (ValidateDataFrame(f, minRows, minCols).1 == ColumnsMessage(|f.value.labels|, minCols) <==>
               !f.value.Empty() && |f.value.rows| >= minRows && |f.value.labels| < minCols)
  {
    if f.Some? {
      var g := f.value;
      MessagesDistinct(|g.rows|, minRows, |g.labels|, minCols);
    }
  }

  /** The five messages are pairwise different, whatever the counts. */
  lemma MessagesDistinct(n: int, minRows: int, m: int, minCols: int)
    ensures |{ValidMessage, NoneMessage, EmptyMessage}| == 3
    ensures RowsMessage(n, minRows) !in {ValidMessage, NoneMessage, EmptyMessage, ColumnsMessage(m, minCols)}
    ensures ColumnsMessage(m, minCols) !in {ValidMessage, NoneMessage, EmptyMessage}
  {
    var rows, cols := RowsMessage(n, minRows), ColumnsMessage(m, minCols);
    assert ValidMessage[13] != NoneMessage[13] && ValidMessage[13] != EmptyMessage[13];
    assert NoneMessage[13] != EmptyMessage[13];
    assert rows[10] == 'h' && cols[10] == 'h';
    assert ValidMessage[10] == 'i' && NoneMessage[10] == 'i' && EmptyMessage[10] == 'i';
    CountMessagesDiffer(n, minRows, m, minCols);
  }

  /** The count in a message ends at the first blank after its prefix, so a
      rows message is never a columns message. */
  lemma CountMessagesDiffer(n: int, minRows: int, m: int, minCols: int)
    ensures RowsMessage(n, minRows) != ColumnsMessage(m, minCols)
  {
    var p := "DataFrame has ";
    var x, y := " rows, minimum " + IntToString(minRows) + " required", " columns, minimum " + IntToString(minCols) + " required";
    assert RowsMessage(n, minRows) == p + IntToString(n) + x;
    assert ColumnsMessage(m, minCols) == p + IntToString(m) + y;
    assert x[0] == ' ' && y[0] == ' ' && x[1] != y[1];
    BlankEndsCount(p, IntToString(n), x, IntToString(m), y);
  }

  /** Two texts made of one prefix, a run without blanks and a tail
      starting with a blank differ when their tails differ in the second
      character. */
  lemma BlankEndsCount(p: string, a: string, x: string, c: string, y: string)
    requires forall k :: 0 <= k < |a| ==> a[k] != ' '
    requires forall k :: 0 <= k < |c| ==> c[k] != ' '
    requires |x| > 1 && |y| > 1 && x[0] == ' ' && y[0] == ' ' && x[1] != y[1]
    ensures p + a + x != p + c + y
  {
    var s, t := p + a + x, p + c + y;
    if |a| == |c| {
      assert s[|p| + |a| + 1] == x[1] && t[|p| + |c| + 1] == y[1];
    } else if |a| < |c| {
      assert s[|p| + |a|] == ' ' && t[|p| + |a|] == c[|a|];
    } else {
      assert t[|p| + |c|] == ' ' && s[|p| + |c|] == a[|c|];
    }
  }

  // ---------------------------------------------------------------------
  // detect_column_types

  datatype Semantic = Numeric | DateType | Categorical | TextType | Other

  /** The metadata kept for a column; the float statistics are not modelled. */
  datatype ColumnInfo = ColumnInfo(
    dtype: Dtype,
    nullCount: nat,
    nullPercentage: real,
    uniqueCount: nat,
    uniquePercentage: real,
    semantic: Semantic)

  /** Only this many non-missing values are tried as dates. */
  const DateProbe: nat := 100

  /** Below this unique percentage an object column is categorical. */
  const CategoricalPercentage: real := 50.0

  /** `series.nunique()`: distinct non-missing values. */
  function UniqueCount(col: seq<Cell>): nat
  {
    |KeepFirst(NonNull(col))|
  }

  function NullCount(col: seq<Cell>): nat
  {
    Count(col, IsNull)
  }

  /** `pd.to_datetime(col.dropna().head(100), errors='raise')` does not raise. */
  predicate DateProbeSucceeds(lib: Lib, col: seq<Cell>)
  {
    var vals := NonNull(col);
    forall k :: 0 <= k < Min(DateProbe, |vals|) ==> lib.datetimeAccepts(vals[k])
  }

  /** The semantic type of a column of `len(df)` = n > 0 rows. */
  function SemanticOf(lib: Lib, d: Dtype, col: seq<Cell>): Semantic
    requires |col| > 0
  {
    if d == Int64 || d == Float64 then Numeric
    else if d == Object then
      if DateProbeSucceeds(lib, col) then DateType
      else if (UniqueCount(col) * 100) as real / |col| as real < CategoricalPercentage then Categorical
      else TextType
    else if d == Datetime64 then DateType
    else Other
  }

  function InfoOf(lib: Lib, d: Dtype, col: seq<Cell>): ColumnInfo
    requires |col| > 0
  {
    ColumnInfo(d, NullCount(col), (NullCount(col) * 100) as real / |col| as real,
               UniqueCount(col), (UniqueCount(col) * 100) as real / |col| as real,
               SemanticOf(lib, d, col))
  }

  /** Column j makes the source raise: a repeated label makes `df[col]` a
      frame without a single dtype, and with no rows the unique percentage
      divides an integer by zero. */
  predicate Raises(f: Frame, j: nat)
    requires j < |f.labels|
  {
    |f.rows| == 0 || Repeated(f.labels, j)
  }

  /** The first column at or after j that raises, or the column count. */
  function FirstRaising(f: Frame, j: nat): (k: nat)
    requires j <= |f.labels|
    ensures j <= k <= |f.labels|
    ensures k < |f.labels| ==> Raises(f, k)
    ensures forall i :: j <= i < k ==> !Raises(f, i)
    decreases |f.labels| - j
  {
    if j == |f.labels| then j
    else if Raises(f, j) then j
    else FirstRaising(f, j + 1)
  }

  /** `detect_column_types`: the information of every column in column
      order, or the position of the column at which it raises. */
  function ColumnTypes(lib: Lib, f: Frame): Result<seq<(Cell, ColumnInfo)>, nat>
    requires f.Valid()
  {
    var k := FirstRaising(f, 0);
    if k < |f.labels| then Err(k)
    else Ok(seq(|f.labels|, j requires 0 <= j < |f.labels| => (f.labels[j], InfoOf(lib, f.dtypes[j], f.Column(j)))))
  }

  lemma FirstRaisingAt(f: Frame, j: nat)
    requires j <= |f.labels| && forall i :: 0 <= i < j ==> !Raises(f, i)
    requires j == |f.labels| || Raises(f, j)
    ensures FirstRaising(f, 0) == j
  {
  }

  /** `detect_column_types`: fills the dictionary one column at a time. */
  method DetectColumnTypes(lib: Lib, f: Frame) returns (r: Result<seq<(Cell, ColumnInfo)>, nat>)
    requires f.Valid()
    ensures r == ColumnTypes(lib, f)
  {
    var info: seq<(Cell, ColumnInfo)> := [];
    var j := 0;
    while j < |f.labels|
      invariant 0 <= j <= |f.labels|
      invariant forall i :: 0 <= i < j ==> !Raises(f, i)
      invariant j > 0 ==> |f.rows| > 0
      invariant info == seq(j, i requires 0 <= i < j => (f.labels[i], InfoOf(lib, f.dtypes[i], f.Column(i))))
    {
      if Raises(f, j) {
        FirstRaisingAt(f, j);
        return Err(j);
      }
      info := info + [(f.labels[j], InfoOf(lib, f.dtypes[j], f.Column(j)))];
      j := j + 1;
    }
    FirstRaisingAt(f, j);
    assert |f.labels| > 0 ==> |f.rows| > 0 by {
      if |f.labels| > 0 {
        assert !Raises(f, 0);
      }
    }
    assert info == ColumnTypes(lib, f).value;
    r := Ok(info);
  }

  /** Detection fails exactly for a table with columns that has no rows or
      repeats a label. */
  lemma ColumnTypesFail(lib: Lib, f: Frame)
    requires f.Valid()
    ensures ColumnTypes(lib, f).Err? <==> |f.labels| > 0 && (|f.rows| == 0 || !Distinct(f.labels))
  {
    var k := FirstRaising(f, 0);
    if |f.labels| > 0 && |f.rows| == 0 {
      assert Raises(f, 0);
    }
    if |f.labels| > 0 && !Distinct(f.labels) {
      var i, j :| 0 <= i < j < |f.labels| && f.labels[i] == f.labels[j];
      assert Raises(f, i);
    }
  }

  /** The semantic type follows the dtype: int64 and float64 are numeric,
      datetime is a date, an object column is a date when its probe parses,
      and nullable integers, booleans, categories and strings are "other". */
  lemma SemanticSpec(lib: Lib, d: Dtype, col: seq<Cell>)
    requires |col| > 0
    ensures SemanticOf(lib, d, col) == Numeric <==> d == Int64 || d == Float64
    ensures SemanticOf(lib, d, col) == Other <==> d in {BoolType, NullableInt, Category, StringType}
    ensures d == Object && DateProbeSucceeds(lib, col) ==> SemanticOf(lib, d, col) == DateType
    ensures SemanticOf(lib, d, col) in {Categorical, TextType} ==> d == Object && !DateProbeSucceeds(lib, col)
  {
  }

  /** An object column with no value at all passes the empty date probe and is
      reported as a date. */
  lemma AllMissingObjectIsDate(lib: Lib, col: seq<Cell>)
    requires |col| > 0 && forall k :: 0 <= k < |col| ==> col[k].Null?
    ensures SemanticOf(lib, Object, col) == DateType
  {
    NonNullOfMissing(col);
  }

  lemma {:induction false} NonNullOfMissing(col: seq<Cell>)
    requires forall k :: 0 <= k < |col| ==> col[k].Null?
    ensures NonNull(col) == []
  {
    if col != [] {
      NonNullOfMissing(col[..|col| - 1]);
    }
  }

  /** Both percentages lie in [0, 100]. */
  lemma PercentagesBounded(lib: Lib, d: Dtype, col: seq<Cell>)
    requires |col| > 0
    ensures 0.0 <= InfoOf(lib, d, col).nullPercentage <= 100.0
    ensures 0.0 <= InfoOf(lib, d, col).uniquePercentage <= 100.0
  {
    var n := |col|;
    KeepFirstSpec(NonNull(col));
    assert UniqueCount(col) <= n;
    PercentBound(NullCount(col), n);
    PercentBound(UniqueCount(col), n);
  }

  lemma PercentBound(k: nat, n: nat)
    requires 0 < n && k <= n
    ensures 0.0 <= (k * 100) as real / n as real <= 100.0
  {
    assert (k * 100) as real <= (n * 100) as real;
  }

  // ---------------------------------------------------------------------
  // suggest_data_cleaning

  datatype Suggestion =
    | HighNulls(column: Cell)
    | ModerateNulls(column: Cell)
    | DuplicateRows(count: nat)
    | ConstantColumn(column: Cell)
    | PotentialDate(column: Cell)

  /** Why the suggestions could not be made: detection raised at a column,
      or a text column's label is not a string and has no `lower()`. */
  datatype SuggestFailure = DetectionFailed(column: nat) | LabelNotText(name: Cell)

  const HighNullPercentage: real := 50.0
  const ModerateNullPercentage: real := 10.0
  const DateWords: seq<string> := ["date", "time", "created", "updated"]

  function NullSuggestion(c: Cell, info: ColumnInfo): seq<Suggestion>
  {
    if info.nullPercentage > HighNullPercentage then [HighNulls(c)]
    else if info.nullPercentage > ModerateNullPercentage then [ModerateNulls(c)]
    else []
  }

  function NullPass(infos: seq<(Cell, ColumnInfo)>): seq<Suggestion>
  {
    if infos == [] then []
    else NullPass(infos[..|infos| - 1]) + NullSuggestion(infos[|infos| - 1].0, infos[|infos| - 1].1)
  }

  function ConstantPass(infos: seq<(Cell, ColumnInfo)>): seq<Suggestion>
  {
    if infos == [] then []
    else ConstantPass(infos[..|infos| - 1])
         + (if infos[|infos| - 1].1.uniqueCount == 1 then [ConstantColumn(infos[|infos| - 1].0)] else [])
  }

  /** The date pass; a text column whose label is not a string raises. */
  function DatePass(infos: seq<(Cell, ColumnInfo)>): Result<seq<Suggestion>, Cell>
  {
    if infos == [] then Ok([])
    else
      match DatePass(infos[..|infos| - 1])
      case Err(c) => Err(c)
      case Ok(ds) =>
        var (c, info) := infos[|infos| - 1];
        if info.semantic != TextType then Ok(ds)
        else if !c.Str? then Err(c)
        else if ContainsAny(Lower(c.s), DateWords) then Ok(ds + [PotentialDate(c)])
        else Ok(ds)
  }

  /** The suggestions from the column information and the duplicate-row
      count: the null pass, the duplicate check, the constant pass and the
      date pass, in that order. */
  function SuggestionsFrom(infos: seq<(Cell, ColumnInfo)>, d: nat): Result<seq<Suggestion>, SuggestFailure>
  {
    match DatePass(infos)
    case Err(c) => Err(LabelNotText(c))
    case Ok(ds) => Ok(NullPass(infos) + (if d > 0 then [DuplicateRows(d)] else []) + ConstantPass(infos) + ds)
  }

  /** `suggest_data_cleaning`. */
  function Suggestions(lib: Lib, f: Frame): Result<seq<Suggestion>, SuggestFailure>
    requires f.Valid()
  {
    match ColumnTypes(lib, f)
    case Err(j) => Err(DetectionFailed(j))
    case Ok(infos) => SuggestionsFrom(infos, RowDuplicates(f))
  }

  /** The null pass of `suggest_data_cleaning`. */
  method SuggestNulls(infos: seq<(Cell, ColumnInfo)>) returns (suggestions: seq<Suggestion>)
    ensures suggestions == NullPass(infos)
  {
    suggestions := [];
    var j := 0;
    while j < |infos|
      invariant 0 <= j <= |infos|
      invariant suggestions == NullPass(infos[..j])
    {
      assert infos[..j + 1][..j] == infos[..j];
      suggestions := suggestions + NullSuggestion(infos[j].0, infos[j].1);
      j := j + 1;
    }
    assert infos[..j] == infos;
  }

  /** The constant-column pass of `suggest_data_cleaning`. */
  method SuggestConstants(infos: seq<(Cell, ColumnInfo)>) returns (constants: seq<Suggestion>)
    ensures constants == ConstantPass(infos)
  {
    constants := [];
    var j := 0;
    while j < |infos|
      invariant 0 <= j <= |infos|
      invariant constants == ConstantPass(infos[..j])
    {
      assert infos[..j + 1][..j] == infos[..j];
      if infos[j].1.uniqueCount == 1 {
        constants := constants + [ConstantColumn(infos[j].0)];
      }
      j := j + 1;
    }
    assert infos[..j] == infos;
  }

  /** The date pass of `suggest_data_cleaning`, which stops at the first
      text column whose label has no `lower()`. */
  method SuggestDates(infos: seq<(Cell, ColumnInfo)>) returns (r: Result<seq<Suggestion>, Cell>)
    ensures r == DatePass(infos)
  {
    var dates: seq<Suggestion> := [];
    var j := 0;
    while j < |infos|
      invariant 0 <= j <= |infos|
      invariant DatePass(infos[..j]) == Ok(dates)
    {
      assert infos[..j + 1][..j] == infos[..j];
      var (c, info) := infos[j];
      if info.semantic == TextType {
        if !c.Str? {
          DatePassStaysFailed(infos, j + 1);
          return Err(c);
        }
        if ContainsAny(Lower(c.s), DateWords) {
          dates := dates + [PotentialDate(c)];
        }
      }
      j := j + 1;
    }
    assert infos[..j] == infos;
    r := Ok(dates);
  }

  /** The four passes, appending to one list. */
  method SuggestFromInfos(infos: seq<(Cell, ColumnInfo)>, d: nat) returns (r: Result<seq<Suggestion>, SuggestFailure>)
    ensures r == SuggestionsFrom(infos, d)
  {
    var suggestions := SuggestNulls(infos);
    if d > 0 {
      suggestions := suggestions + [DuplicateRows(d)];
    } else {
      assert suggestions == NullPass(infos) + [];
    }
    var constants := SuggestConstants(infos);
    suggestions := suggestions + constants;
    var dates := SuggestDates(infos);
    if dates.Err? {
      return Err(LabelNotText(dates.error));
    }
    r := Ok(suggestions + dates.value);
  }

  /** `suggest_data_cleaning`: detection first, whose failure is passed on. */
  method SuggestDataCleaning(lib: Lib, f: Frame) returns (r: Result<seq<Suggestion>, SuggestFailure>)
    requires f.Valid()
    ensures r == Suggestions(lib, f)
  {
    var detected := DetectColumnTypes(lib, f);
    if detected.Err? {
      return Err(DetectionFailed(detected.error));
    }
    r := SuggestFromInfos(detected.value, RowDuplicates(f));
  }

  /** Once the date pass fails on a prefix it fails on the whole list. */
  lemma {:induction false} DatePassStaysFailed(infos: seq<(Cell, ColumnInfo)>, j: nat)
    requires j <= |infos| && DatePass(infos[..j]).Err?
    ensures DatePass(infos).Err? && DatePass(infos).error == DatePass(infos[..j]).error
    decreases |infos| - j
  {
    if j < |infos| {
      assert infos[..j + 1][..j] == infos[..j];
      DatePassStaysFailed(infos, j + 1);
    } else {
      assert infos[..j] == infos;
    }
  }

  /** The null pass gives at most one suggestion per column, only "high"
      and "moderate" ones, and one for every column over the matching
      threshold. */
  lemma {:induction false} NullPassComplete(infos: seq<(Cell, ColumnInfo)>)
    ensures |NullPass(infos)| <= |infos|
    ensures forall s :: s in NullPass(infos) ==> s.HighNulls? || s.ModerateNulls?
    ensures forall k :: 0 <= k < |infos| && infos[k].1.nullPercentage > HighNullPercentage ==>
              HighNulls(infos[k].0) in NullPass(infos)
    ensures forall k :: 0 <= k < |infos| && ModerateNullPercentage < infos[k].1.nullPercentage <= HighNullPercentage ==>
              ModerateNulls(infos[k].0) in NullPass(infos)
  {
    if infos != [] {
      var init := infos[..|infos| - 1];
      NullPassComplete(init);
      forall k | 0 <= k < |infos| - 1
        ensures infos[k] == init[k]
      {
      }
    }
  }

  /** Every suggestion of the null pass names a column over its threshold. */
  lemma {:induction false} NullPassSound(infos: seq<(Cell, ColumnInfo)>)
    ensures forall s :: s in NullPass(infos) && s.HighNulls? ==>
              exists k :: 0 <= k < |infos| && infos[k].0 == s.column && infos[k].1.nullPercentage > HighNullPercentage
    ensures forall s :: s in NullPass(infos) && s.ModerateNulls? ==>
              exists k :: 0 <= k < |infos| && infos[k].0 == s.column
                          && ModerateNullPercentage < infos[k].1.nullPercentage <= HighNullPercentage
  {
    if infos != [] {
      var init := infos[..|infos| - 1];
      NullPassSound(init);
      forall s | s in NullPass(infos) && s.HighNulls?
        ensures exists k :: 0 <= k < |infos| && infos[k].0 == s.column && infos[k].1.nullPercentage > HighNullPercentage
      {
        if s in NullPass(init) {
          var k :| 0 <= k < |init| && init[k].0 == s.column && init[k].1.nullPercentage > HighNullPercentage;
          assert infos[k] == init[k];
        } else {
          assert infos[|infos| - 1].0 == s.column;
        }
      }
      forall s | s in NullPass(infos) && s.ModerateNulls?
        ensures exists k :: 0 <= k < |infos| && infos[k].0 == s.column
                            && ModerateNullPercentage < infos[k].1.nullPercentage <= HighNullPercentage
      {
        if s in NullPass(init) {
          var k :| 0 <= k < |init| && init[k].0 == s.column
                   && ModerateNullPercentage < init[k].1.nullPercentage <= HighNullPercentage;
          assert infos[k] == init[k];
        } else {
          assert infos[|infos| - 1].0 == s.column;
        }
      }
    }
  }

  /** The null pass gives at most one suggestion per column: a "high" one
      for a column over 50% missing, a "moderate" one for one over 10% and
      at most 50%, and nothing otherwise. */
  lemma NullPassSpec(infos: seq<(Cell, ColumnInfo)>)
    ensures |NullPass(infos)| <= |infos|
    ensures forall s :: s in NullPass(infos) ==> s.HighNulls? || s.ModerateNulls?
    ensures forall k :: 0 <= k < |infos| && infos[k].1.nullPercentage > HighNullPercentage ==>
              HighNulls(infos[k].0) in NullPass(infos)
    ensures forall k :: 0 <= k < |infos| && ModerateNullPercentage < infos[k].1.nullPercentage <= HighNullPercentage ==>
              ModerateNulls(infos[k].0) in NullPass(infos)
    ensures forall s :: s in NullPass(infos) && s.HighNulls? ==>
              exists k :: 0 <= k < |infos| && infos[k].0 == s.column && infos[k].1.nullPercentage > HighNullPercentage
    ensures forall s :: s in NullPass(infos) && s.ModerateNulls? ==>
              exists k :: 0 <= k < |infos| && infos[k].0 == s.column
                          && ModerateNullPercentage < infos[k].1.nullPercentage <= HighNullPercentage
  {
    NullPassComplete(infos);
    NullPassSound(infos);
  }

  /** A constant-column suggestion is made exactly for each column with a
      single distinct value. */
  lemma {:induction false} ConstantPassSpec(infos: seq<(Cell, ColumnInfo)>)
    ensures forall s :: s in ConstantPass(infos) ==> s.ConstantColumn?
    ensures forall k :: 0 <= k < |infos| && infos[k].1.uniqueCount == 1 ==> ConstantColumn(infos[k].0) in ConstantPass(infos)
    ensures forall s :: s in ConstantPass(infos) ==>
              exists k :: 0 <= k < |infos| && infos[k].0 == s.column && infos[k].1.uniqueCount == 1
  {
    if infos != [] {
      var init := infos[..|infos| - 1];
      ConstantPassSpec(init);
      forall s | s in ConstantPass(infos)
        ensures exists k :: 0 <= k < |infos| && infos[k].0 == s.column && infos[k].1.uniqueCount == 1
      {
        if s in ConstantPass(init) {
          var k :| 0 <= k < |init| && init[k].0 == s.column && init[k].1.uniqueCount == 1;
          assert infos[k] == init[k];
        }
      }
      forall k | 0 <= k < |infos| - 1
        ensures infos[k] == init[k]
      {
      }
    }
  }

  /** The date pass's test: a text column whose lower-cased label holds one
      of the date words. */
  predicate SuggestsDate(e: (Cell, ColumnInfo))
  {
    e.1.semantic == TextType && e.0.Str? && ContainsAny(Lower(e.0.s), DateWords)
  }

  /** The date pass only ever suggests dates. */
  lemma {:induction false} DatePassKinds(infos: seq<(Cell, ColumnInfo)>)
    requires DatePass(infos).Ok?
    ensures forall s :: s in DatePass(infos).value ==> s.PotentialDate?
  {
    if infos != [] {
      DatePassKinds(infos[..|infos| - 1]);
    }
  }

  /** When the date pass succeeds, every text column has a string label,
      and a potential_date suggestion appears for a column exactly when the
      column passes the test. */
  lemma {:induction false} DatePassSpec(infos: seq<(Cell, ColumnInfo)>)
    requires DatePass(infos).Ok?
    ensures forall k :: 0 <= k < |infos| && infos[k].1.semantic == TextType ==> infos[k].0.Str?
    ensures forall k :: 0 <= k < |infos| && SuggestsDate(infos[k]) ==> PotentialDate(infos[k].0) in DatePass(infos).value
    ensures forall s :: s in DatePass(infos).value ==>
              exists k :: 0 <= k < |infos| && s == PotentialDate(infos[k].0) && SuggestsDate(infos[k])
  {
    if infos != [] {
      var init := infos[..|infos| - 1];
      DatePassSpec(init);
      var ds := DatePass(infos).value;
      forall k | 0 <= k < |infos| - 1
        ensures infos[k] == init[k]
      {
      }
      forall s | s in ds
        ensures exists k :: 0 <= k < |infos| && s == PotentialDate(infos[k].0) && SuggestsDate(infos[k])
      {
        if s in DatePass(init).value {
          var k :| 0 <= k < |init| && s == PotentialDate(init[k].0) && SuggestsDate(init[k]);
          assert infos[k] == init[k];
        } else {
          assert s == PotentialDate(infos[|infos| - 1].0);
        }
      }
    }
  }

  /** The date pass raises exactly when some text column's label is not a
      string (`col.lower()`), and it raises with the first such label. */
  lemma {:induction false} DatePassSucceeds(infos: seq<(Cell, ColumnInfo)>)
    ensures DatePass(infos).Ok? <==>
            forall k :: 0 <= k < |infos| && infos[k].1.semantic == TextType ==> infos[k].0.Str?
    ensures DatePass(infos).Err? ==>
              exists k :: 0 <= k < |infos| && infos[k].1.semantic == TextType && !infos[k].0.Str?
                && DatePass(infos).error == infos[k].0
                && forall j :: 0 <= j < k && infos[j].1.semantic == TextType ==> infos[j].0.Str?
  {
    if infos != [] {
      var init := infos[..|infos| - 1];
      DatePassSucceeds(init);
      assert forall k :: 0 <= k < |init| ==> init[k] == infos[k];
      if DatePass(init).Err? {
        var k :| 0 <= k < |init| && init[k].1.semantic == TextType && !init[k].0.Str?
                 && DatePass(init).error == init[k].0
                 && forall j :: 0 <= j < k && init[j].1.semantic == TextType ==> init[j].0.Str?;
        assert infos[k] == init[k];
      }
    }
  }

  /** A duplicate-rows suggestion appears exactly when some row repeats an
      earlier one, and then it carries that count. */
  lemma DuplicatesSuggested(infos: seq<(Cell, ColumnInfo)>, d: nat)
    requires SuggestionsFrom(infos, d).Ok?
    ensures DuplicateRows(d) in SuggestionsFrom(infos, d).value <==> d > 0
    ensures forall s :: s in SuggestionsFrom(infos, d).value && s.DuplicateRows? ==> s.count == d > 0
  {
    var ds := DatePass(infos).value;
    var dup := if d > 0 then [DuplicateRows(d)] else [];
    NullPassSpec(infos);
    ConstantPassSpec(infos);
    DatePassKinds(infos);
    assert SuggestionsFrom(infos, d).value == NullPass(infos) + dup + ConstantPass(infos) + ds;
  }

  /** On a whole table the duplicate suggestion carries `duplicated().sum()`
      and appears exactly when that count is positive; a table without
      columns, empty to pandas, gets no suggestion at all, however many rows
      it has. */
  lemma TableDuplicatesSuggested(lib: Lib, f: Frame)
    requires f.Valid()
    ensures Suggestions(lib, f).Ok? ==>
              (DuplicateRows(RowDuplicates(f)) in Suggestions(lib, f).value <==> RowDuplicates(f) > 0)
    ensures |f.labels| == 0 ==> Suggestions(lib, f) == Ok([])
  {
    if Suggestions(lib, f).Ok? {
      DuplicatesSuggested(ColumnTypes(lib, f).value, RowDuplicates(f));
    }
    if |f.labels| == 0 {
      FirstRaisingAt(f, 0);
      assert ColumnTypes(lib, f) == Ok([]);
      var none: seq<(Cell, ColumnInfo)> := [];
      var empty: seq<Suggestion> := [];
      assert ColumnTypes(lib, f).value == none;
      assert DatePass(none) == Ok(empty) && NullPass(none) == empty && ConstantPass(none) == empty;
      assert Suggestions(lib, f) == SuggestionsFrom(none, 0);
      assert NullPass(none) + [] + ConstantPass(none) + empty == empty;
      assert SuggestionsFrom(none, 0) == Ok(empty);
    }
  }

  predicate NullKind(s: Suggestion)
  {
    s.HighNulls? || s.ModerateNulls?
  }

  /** The null suggestions come first and no null suggestion follows them. */
  lemma NullsFirst(infos: seq<(Cell, ColumnInfo)>, d: nat)
    requires SuggestionsFrom(infos, d).Ok?
    ensures var s := SuggestionsFrom(infos, d).value;
            var n := |NullPass(infos)|;
            n <= |s| && s[..n] == NullPass(infos) && forall i :: n <= i < |s| ==> !NullKind(s[i])
  {
    var ds := DatePass(infos).value;
    var dup := if d > 0 then [DuplicateRows(d)] else [];
    var rest := dup + ConstantPass(infos) + ds;
    var s := SuggestionsFrom(infos, d).value;
    assert s == NullPass(infos) + rest;
    ConstantPassSpec(infos);
    DatePassKinds(infos);
    assert forall x :: x in rest ==> !NullKind(x);
    forall i | |NullPass(infos)| <= i < |s|
      ensures !NullKind(s[i])
    {
      assert s[i] == rest[i - |NullPass(infos)|];
    }
  }

  // ---------------------------------------------------------------------
  // safe_column_selection

  /** `[col for col in columns if col in df.columns]`. */
  function SafeColumnSelection(labels: seq<Cell>, columns: seq<Cell>): seq<Cell>
  {
    if columns == [] then []
    else SafeColumnSelection(labels, columns[..|columns| - 1])
         + (if columns[|columns| - 1] in labels then [columns[|columns| - 1]] else [])
  }

  /** Each requested name that exists is kept as often as it was asked
      for, and nothing else is. */
  lemma {:induction false} SafeColumnSelectionCounts(labels: seq<Cell>, columns: seq<Cell>, x: Cell)
    ensures multiset(SafeColumnSelection(labels, columns))[x] == if x in labels then multiset(columns)[x] else 0
  {
    if columns != [] {
      var init := columns[..|columns| - 1];
      var last := columns[|columns| - 1];
      SafeColumnSelectionCounts(labels, init, x);
      assert columns == init + [last];
      assert multiset(columns) == multiset(init) + multiset{last};
    }
  }

  /** Asking only for existing names gives the request back, in order. */
  lemma {:induction false} SafeColumnSelectionKeeps(labels: seq<Cell>, columns: seq<Cell>)
    requires forall k :: 0 <= k < |columns| ==> columns[k] in labels
    ensures SafeColumnSelection(labels, columns) == columns
  {
    if columns != [] {
      SafeColumnSelectionKeeps(labels, columns[..|columns| - 1]);
      assert columns == columns[..|columns| - 1] + [columns[|columns| - 1]];
    }
  }

  /** Every selected name was requested and exists. */
  lemma {:induction false} SafeColumnSelectionMembers(labels: seq<Cell>, columns: seq<Cell>)
    ensures forall x :: x in SafeColumnSelection(labels, columns) ==> x in columns && x in labels
  {
    if columns != [] {
      SafeColumnSelectionMembers(labels, columns[..|columns| - 1]);
    }
  }

  // ---------------------------------------------------------------------
  // format_number

  /** The scale `format_number` picks; the digits it then prints are not modelled. */
  datatype Formatted = NotAvailable | Scaled(value: real, suffix: string)

  function ScaleOf(suffix: string): real
  {
    if suffix == "B" then 1000000000.0
    else if suffix == "M" then 1000000.0
    else if suffix == "K" then 1000.0
    else 1.0
  }

  function Abs(x: real): real
  {
    if x < 0.0 then -x else x
  }

  /** `format_number` up to the rendering of the digits; None is a missing number. */
  function FormatNumber(x: Option<real>): Formatted
  {
    if x.None? then NotAvailable
    else if Abs(x.value) >= 1000000000.0 then Scaled(x.value / 1000000000.0, "B")
    else if Abs(x.value) >= 1000000.0 then Scaled(x.value / 1000000.0, "M")
    else if Abs(x.value) >= 1000.0 then Scaled(x.value / 1000.0, "K")
    else Scaled(x.value, "")
  }

  /** Scaling back gives the number, and the printed figure is at least 1
      in magnitude once a suffix is used and below 1000 unless the suffix is
      "B"; the suffix is one of B, M, K or none, so the largest fitting
      unit is chosen. */
  lemma FormatNumberSpec(x: real)
    ensures FormatNumber(Some(x)).Scaled?
    ensures FormatNumber(Some(x)).value * ScaleOf(FormatNumber(Some(x)).suffix) == x
    ensures FormatNumber(Some(x)).suffix != "" ==> Abs(FormatNumber(Some(x)).value) >= 1.0
    ensures FormatNumber(Some(x)).suffix != "B" ==> Abs(FormatNumber(Some(x)).value) < 1000.0
    ensures FormatNumber(Some(x)).suffix in {"B", "M", "K", ""}
    ensures FormatNumber(None) == NotAvailable
  {
  }

  /** The three figures of the utilities test: 1234.56 is 1.23456 thousand,
      1234567 is 1.234567 million, 1234567890 is 1.23456789 billion. */
  lemma FormatNumberExamples()
    ensures FormatNumber(Some(1234.56)) == Scaled(1.23456, "K")
    ensures FormatNumber(Some(1234567.0)) == Scaled(1.234567, "M")
    ensures FormatNumber(Some(1234567890.0)) == Scaled(1.23456789, "B")
  {
  }

  // ---------------------------------------------------------------------
  // auto_detect_separators

  const Separators: seq<char> := [',', ';', '\t', '|']
  const DefaultSeparator: char := ','

  /** `auto_detect_separators`, given the path and the first line read from
      it; None stands for a read that raised. The counts go into a
      dictionary in list order, and `max` with the count as key keeps the
      first of equal counts. */
  method AutoDetectSeparator(path: string, firstLine: Option<string>) returns (sep: char)
    ensures !EndsWith(Lower(path), ".csv") || firstLine.None? ==> sep == DefaultSeparator
    ensures EndsWith(Lower(path), ".csv") && firstLine.Some? ==>
              exists k :: 0 <= k < |Separators| && sep == Separators[k]
                && (forall l :: 0 <= l < |Separators| ==> CountChar(firstLine.value, Separators[l]) <= CountChar(firstLine.value, sep))
                && (forall l :: 0 <= l < k ==> CountChar(firstLine.value, Separators[l]) < CountChar(firstLine.value, sep))
  {
    if !EndsWith(Lower(path), ".csv") {
      return DefaultSeparator;
    }
    if firstLine.None? {
      return DefaultSeparator;
    }
    var line := firstLine.value;
    var counts: map<char, nat> := map[];
    var i := 0;
    while i < |Separators|
      invariant 0 <= i <= |Separators|
      invariant forall l :: 0 <= l < i ==> Separators[l] in counts && counts[Separators[l]] == CountChar(line, Separators[l])
    {
      counts := counts[Separators[i] := CountChar(line, Separators[i])];
      i := i + 1;
    }
    var best := 0;
    var k := 1;
    while k < |Separators|
      invariant 1 <= k <= |Separators| && 0 <= best < k
      invariant forall l :: 0 <= l < k ==> counts[Separators[l]] <= counts[Separators[best]]
      invariant forall l :: 0 <= l < best ==> counts[Separators[l]] < counts[Separators[best]]
    {
      if counts[Separators[k]] > counts[Separators[best]] {
        best := k;
      }
      k := k + 1;
    }
    sep := Separators[best];
  }
}
