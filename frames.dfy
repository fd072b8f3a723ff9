/** The data model of a pandas DataFrame as the pipeline sees it: column
    labels, one dtype per column and rectangular rows of cells. Library
    behaviour that the model cannot see (Python's float(), pandas'
    to_numeric and to_datetime, str() of a float or a Timestamp, the Unicode
    character classes) is passed in as a `Lib` value. */
module Frames {
  import opened Wrappers
  import opened Text

  /** One cell. `Null` stands for NaN, None, NaT and pd.NA alike. */
  datatype Cell =
    | Null
    | Str(s: string)
    | Int(i: int)
    | Num(r: real)
    | Inf(positive: bool)
    | Bool(b: bool)
    | Date(t: int)

  /** The column dtypes that occur: numpy int64, float64, datetime64[ns],
      bool and object, and pandas' nullable Int64, category and string. */
  datatype Dtype = Int64 | Float64 | Datetime64 | BoolType | Object | NullableInt | Category | StringType

  /** A float64 value `pd.to_numeric` produces: finite, or an infinity. */
  datatype Number = Finite(r: real) | Infinite(positive: bool)

  /** Behaviour of code outside the repository, as parameters. */
  datatype Lib = Lib(
    /** float(s) succeeds */
    pyFloat: string -> bool,
    /** pd.to_numeric(s, errors='coerce') on one string; None is NaN */
    toNumeric: string -> Option<Number>,
    /** pd.to_datetime on one string, as a timestamp; None is a parse failure */
    toDatetime: string -> Option<int>,
    /** pd.to_datetime(errors='raise') accepts this non-null raw value */
    datetimeAccepts: Cell -> bool,
    /** str() of a float */
    realText: real -> string,
    /** str() of a Timestamp */
    dateText: int -> string,
    /** str.isalnum() of a character outside ASCII */
    unicodeAlnum: char -> bool,
    /** str.isdigit() of a character outside ASCII */
    unicodeDigit: char -> bool,
    /** np.issubdtype raises on pandas' nullable Int64 dtype */
    issubdtypeRejectsNullableInt: bool)

  datatype Frame = Frame(labels: seq<Cell>, dtypes: seq<Dtype>, rows: seq<seq<Cell>>)
  {
    /** A DataFrame is rectangular: one dtype per label, one cell per label in every row. */
    predicate Valid()
    {
      |dtypes| == |labels| && forall i :: 0 <= i < |rows| ==> |rows[i]| == |labels|
    }

    /** DataFrame.empty: no rows or no columns. */
    predicate Empty()
    {
      |rows| == 0 || |labels| == 0
    }

    function Column(j: nat): (c: seq<Cell>)
      requires Valid() && j < |labels|
      ensures |c| == |rows|
      ensures forall i :: 0 <= i < |rows| ==> c[i] == rows[i][j]
    {
      seq(|rows|, i requires 0 <= i < |rows| => rows[i][j])
    }
  }

  /** What `astype(str)` writes for a missing value of a column of dtype d. */
  function NullText(d: Dtype): string
  {
    match d
    case Datetime64 => "NaT"
    case NullableInt => "<NA>"
    case StringType => "<NA>"
    case _ => "nan"
  }

  /** str() of a cell held in a column of dtype d. */
  function Render(lib: Lib, d: Dtype, c: Cell): string
  {
    match c
    case Null => NullText(d)
    case Str(s) => s
    case Int(i) => IntToString(i)
    case Num(r) => lib.realText(r)
    case Inf(positive) => if positive then "inf" else "-inf"
    case Bool(b) => if b then "True" else "False"
    case Date(t) => lib.dateText(t)
  }

  /** str() of a column label. */
  function LabelText(lib: Lib, c: Cell): string
  {
    Render(lib, Object, c)
  }

  /** str.isalnum() of one character. */
  predicate IsAlnum(lib: Lib, c: char)
  {
    IsAsciiAlnum(c) || (c as int >= 128 && lib.unicodeAlnum(c))
  }

  /** str.isdigit() of a whole string: non-empty and every character a digit. */
  predicate IsDigits(lib: Lib, s: string)
  {
    s != [] && forall k :: 0 <= k < |s| ==> IsAsciiDigit(s[k]) || (s[k] as int >= 128 && lib.unicodeDigit(s[k]))
  }

  /** A label pandas or a spreadsheet reader generates: "Unnamed: n" or a bare position. */
  predicate GenericLabel(lib: Lib, c: Cell)
  {
    StartsWith(LabelText(lib, c), "Unnamed") || IsDigits(lib, LabelText(lib, c))
  }

  function Min(a: nat, b: nat): nat
  {
    if a <= b then a else b
  }

  predicate IsNull(c: Cell)
  {
    c.Null?
  }

  function Count<T>(s: seq<T>, p: T -> bool): (n: nat)
    ensures n <= |s|
  {
    if s == [] then 0 else Count(s[..|s| - 1], p) + (if p(s[|s| - 1]) then 1 else 0)
  }

  lemma {:induction false} CountAppend<T>(s: seq<T>, t: seq<T>, p: T -> bool)
    ensures Count(s + t, p) == Count(s, p) + Count(t, p)
    decreases |t|
  {
    if t == [] {
      assert s + t == s;
    } else {
      assert (s + t)[..|s + t| - 1] == s + t[..|t| - 1];
      CountAppend(s, t[..|t| - 1], p);
    }
  }

  /** `series.dropna()` on a sequence of cells, in order. */
  function NonNull(s: seq<Cell>): (r: seq<Cell>)
    ensures |r| <= |s|
    ensures forall k :: 0 <= k < |r| ==> r[k] != Null && r[k] in s
  {
    if s == [] then [] else NonNull(s[..|s| - 1]) + (if s[|s| - 1].Null? then [] else [s[|s| - 1]])
  }

  /** A sequence of cells has no value exactly when every cell is missing. */
  lemma {:induction false} NonNullEmpty(s: seq<Cell>)
    ensures NonNull(s) == [] <==> forall k :: 0 <= k < |s| ==> s[k].Null?
  {
    if s != [] {
      NonNullEmpty(s[..|s| - 1]);
      if NonNull(s) == [] {
        forall k | 0 <= k < |s| ensures s[k].Null? {
          if k < |s| - 1 {
            assert s[..|s| - 1][k] == s[k];
          }
        }
      }
    }
  }

  predicate Distinct<T(==)>(s: seq<T>)
  {
    forall i, j :: 0 <= i < j < |s| ==> s[i] != s[j]
  }

  /** The element at position j occurs at another position too. For column
      labels this is what makes `df[col]` a DataFrame rather than a Series. */
  predicate Repeated<T(==)>(s: seq<T>, j: nat)
    requires j < |s|
  {
    exists i :: 0 <= i < |s| && i != j && s[i] == s[j]
  }

  /** A sequence is free of duplicates exactly when no position is repeated. */
  lemma DistinctNoneRepeated<T>(s: seq<T>)
    ensures Distinct(s) <==> forall j :: 0 <= j < |s| ==> !Repeated(s, j)
  {
    if !Distinct(s) {
      var i, j :| 0 <= i < j < |s| && s[i] == s[j];
      assert Repeated(s, i);
    }
  }

  /** The first repeated position at or after j, or |s| when there is none. */
  function FirstRepeated<T(==)>(s: seq<T>, j: nat): (k: nat)
    requires j <= |s|
    ensures j <= k <= |s|
    ensures k < |s| ==> Repeated(s, k)
    ensures forall i :: j <= i < k ==> !Repeated(s, i)
    decreases |s| - j
  {
    if j == |s| then j else if Repeated(s, j) then j else FirstRepeated(s, j + 1)
  }

  /** Without a repeated position the sequence is free of duplicates. */
  lemma NoRepeatedDistinct<T>(s: seq<T>)
    requires FirstRepeated(s, 0) == |s|
    ensures Distinct(s)
  {
    DistinctNoneRepeated(s);
  }

  lemma RepeatedNotDistinct<T>(s: seq<T>, j: nat)
    requires j < |s| && Repeated(s, j)
    ensures !Distinct(s)
  {
    DistinctNoneRepeated(s);
  }

  /** A sequence with a repeated element has a first one. */
  lemma FirstRepeatedFound<T>(s: seq<T>)
    requires !Distinct(s)
    ensures FirstRepeated(s, 0) < |s|
  {
    if FirstRepeated(s, 0) == |s| {
      NoRepeatedDistinct(s);
    }
  }

  /** `duplicated().sum()`: how many elements equal an earlier one. */
  function DuplicateCount<T(==)>(s: seq<T>): (n: nat)
    ensures n <= |s|
  {
    if s == [] then 0
    else DuplicateCount(s[..|s| - 1]) + (if s[|s| - 1] in s[..|s| - 1] then 1 else 0)
  }

  /** `s[~s.duplicated()]` / `drop_duplicates()`: the first occurrence of each element, in order. */
  function KeepFirst<T(==)>(s: seq<T>): (r: seq<T>)
    ensures forall i :: 0 <= i < |r| ==> r[i] in s
  {
    if s == [] then []
    else KeepFirst(s[..|s| - 1]) + (if s[|s| - 1] in s[..|s| - 1] then [] else [s[|s| - 1]])
  }

  /** Position of the first occurrence of x in s. */
  function FirstIndex<T(==)>(s: seq<T>, x: T): (k: nat)
    requires x in s
    ensures k < |s| && s[k] == x && x !in s[..k]
  {
    if s[0] == x then 0 else 1 + FirstIndex(s[1..], x)
  }

  lemma {:induction false} FirstIndexInPrefix<T>(s: seq<T>, n: nat, x: T)
    requires n <= |s| && x in s[..n]
    ensures FirstIndex(s, x) == FirstIndex(s[..n], x)
  {
    var b := FirstIndex(s[..n], x);
    assert s[b] == x;
  }

  /** Removing later duplicates keeps exactly the first occurrences: every
      element survives once, no duplicate remains, the survivors keep their
      original order, and the count removed is `duplicated().sum()`. */
  lemma KeepFirstSpec<T>(s: seq<T>)
    ensures forall x :: x in KeepFirst(s) ==> x in s
    ensures forall x :: x in s ==> x in KeepFirst(s)
    ensures Distinct(KeepFirst(s))
    ensures |KeepFirst(s)| + DuplicateCount(s) == |s|
    ensures forall i, j :: 0 <= i < j < |KeepFirst(s)| ==>
              FirstIndex(s, KeepFirst(s)[i]) < FirstIndex(s, KeepFirst(s)[j])
  {
    KeepFirstMembers(s);
    KeepFirstDistinct(s);
    KeepFirstOrder(s);
  }

  lemma {:induction false} KeepFirstMembers<T>(s: seq<T>)
    ensures forall x :: x in KeepFirst(s) ==> x in s
    ensures forall x :: x in s ==> x in KeepFirst(s)
  {
    if s != [] {
      var init := s[..|s| - 1];
      var last := s[|s| - 1];
      KeepFirstMembers(init);
      var ri := KeepFirst(init);
      var r := KeepFirst(s);
      assert r == ri + (if last in init then [] else [last]);
      forall x | x in r ensures x in s {
        if x in ri {
          var k :| 0 <= k < |init| && init[k] == x;
          assert s[k] == x;
        }
      }
      forall x | x in s ensures x in r {
        if x != last || last in init {
          var k :| 0 <= k < |s| && s[k] == x;
          if k < |s| - 1 {
            assert init[k] == x;
          } else {
            assert x in init;
          }
        }
      }
    }
  }

  lemma {:induction false} KeepFirstDistinct<T>(s: seq<T>)
    ensures Distinct(KeepFirst(s))
    ensures |KeepFirst(s)| + DuplicateCount(s) == |s|
  {
    if s != [] {
      var init := s[..|s| - 1];
      var last := s[|s| - 1];
      KeepFirstDistinct(init);
      KeepFirstMembers(init);
      var ri := KeepFirst(init);
      if last !in init {
        assert KeepFirst(s) == ri + [last];
        assert last !in ri;
      } else {
        assert KeepFirst(s) == ri;
      }
    }
  }

  lemma {:induction false} KeepFirstOrder<T>(s: seq<T>)
    ensures forall i, j :: 0 <= i < j < |KeepFirst(s)| ==>
              FirstIndex(s, KeepFirst(s)[i]) < FirstIndex(s, KeepFirst(s)[j])
  {
    if s != [] {
      var init := s[..|s| - 1];
      var last := s[|s| - 1];
      KeepFirstOrder(init);
      KeepFirstMembers(init);
      KeepFirstMembers(s);
      var ri := KeepFirst(init);
      forall x | x in ri ensures FirstIndex(s, x) == FirstIndex(init, x) {
        FirstIndexInPrefix(s, |s| - 1, x);
      }
      if last !in init {
        assert KeepFirst(s) == ri + [last];
        assert FirstIndex(s, last) == |s| - 1;
        forall i | 0 <= i < |ri| ensures FirstIndex(s, ri[i]) < |s| - 1 {
          assert ri[i] in init;
        }
      } else {
        assert KeepFirst(s) == ri;
      }
    }
  }

  /** No duplicates means nothing to count and nothing to remove. */
  lemma {:induction false} NoDuplicatesSpec<T>(s: seq<T>)
    ensures DuplicateCount(s) == 0 <==> Distinct(s)
    ensures Distinct(s) ==> KeepFirst(s) == s
  {
    if s != [] {
      var init := s[..|s| - 1];
      NoDuplicatesSpec(init);
      if Distinct(s) {
        assert Distinct(init);
        assert s[|s| - 1] !in init;
        assert s == init + [s[|s| - 1]];
      }
      if DuplicateCount(s) == 0 {
        assert Distinct(init);
        forall i, j | 0 <= i < j < |s| ensures s[i] != s[j] {
          if j == |s| - 1 {
            assert init[i] == s[i];
          } else {
            assert init[i] == s[i] && init[j] == s[j];
          }
        }
      }
    }
  }

  /** `df.duplicated().sum()` on a whole table. pandas treats a frame
      without columns as empty and marks none of its rows, although every
      one of them is the empty row. */
  function RowDuplicates(f: Frame): (n: nat)
    ensures n <= |f.rows|
  {
    if |f.labels| == 0 then 0 else DuplicateCount(f.rows)
  }

  /** A frame with the same labels and dtypes and the given rows. */
  function WithRows(f: Frame, rows: seq<seq<Cell>>): (g: Frame)
    requires f.Valid() && forall i :: 0 <= i < |rows| ==> |rows[i]| == |f.labels|
    ensures g.Valid() && g.labels == f.labels && g.dtypes == f.dtypes && g.rows == rows
  {
    Frame(f.labels, f.dtypes, rows)
  }

  /** `df[col] = cells` with a new dtype, at column position j. */
  function SetColumn(f: Frame, j: nat, d: Dtype, cells: seq<Cell>): (g: Frame)
    requires f.Valid() && j < |f.labels| && |cells| == |f.rows|
    ensures g.Valid() && g.labels == f.labels && |g.rows| == |f.rows|
    ensures g.dtypes == f.dtypes[j := d]
    ensures g.Column(j) == cells
    ensures forall k :: 0 <= k < |f.labels| && k != j ==> g.Column(k) == f.Column(k)
  {
    var rows := seq(|f.rows|, i requires 0 <= i < |f.rows| => f.rows[i][j := cells[i]]);
    Frame(f.labels, f.dtypes[j := d], rows)
  }

  /** A column-by-column pass over a copy: columns 0 .. j-1 have been
      assigned, column k receiving dtype cs[k].0 and cells cs[k].1. */
  function SetColumns(f: Frame, cs: seq<(Dtype, seq<Cell>)>, j: nat): (g: Frame)
    requires f.Valid() && j <= |f.labels| && |cs| == |f.labels|
    requires forall k :: 0 <= k < |cs| ==> |cs[k].1| == |f.rows|
    ensures g.Valid() && g.labels == f.labels && |g.rows| == |f.rows|
  {
    if j == 0 then f else SetColumn(SetColumns(f, cs, j - 1), j - 1, cs[j - 1].0, cs[j - 1].1)
  }

  /** After the pass has reached column j, every column below j holds its
      assigned dtype and cells and every other column is as it was. */
  lemma {:induction false} SetColumnsSpec(f: Frame, cs: seq<(Dtype, seq<Cell>)>, j: nat)
    requires f.Valid() && j <= |f.labels| && |cs| == |f.labels|
    requires forall k :: 0 <= k < |cs| ==> |cs[k].1| == |f.rows|
    ensures forall k :: 0 <= k < j ==>
              SetColumns(f, cs, j).dtypes[k] == cs[k].0 && SetColumns(f, cs, j).Column(k) == cs[k].1
    ensures forall k :: j <= k < |f.labels| ==>
              SetColumns(f, cs, j).dtypes[k] == f.dtypes[k] && SetColumns(f, cs, j).Column(k) == f.Column(k)
  {
    if j > 0 {
      SetColumnsSpec(f, cs, j - 1);
    }
  }
}
