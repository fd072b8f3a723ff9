/** ExcelReader's file check (`validate_file`) and its basic cleaning
    (`clean_data`). Opening the workbook, and the median and mode used to fill
    missing values, are computed by pandas and enter as parameters. */
module ExcelReader {
  import opened Wrappers
  import opened Text
  import opened Frames
  import Duplicates

  /** `self.supported_formats`. */
  const SupportedFormats: seq<string> := [".xlsx", ".xls"]

  /** `validate_file`: the lower-cased path must end in a supported
      extension, and only then is the workbook opened; `opens` says whether
      `pd.ExcelFile(file_path)` succeeds. */
  function ValidateFile(path: string, opens: bool): bool
  {
    if !(EndsWith(Lower(path), SupportedFormats[0]) || EndsWith(Lower(path), SupportedFormats[1])) then false
    else opens
  }

  /** Any-case ".xlsx" and ".xls" names are valid exactly when the workbook
      opens; a path whose last character is no 's' or 'x' is refused whether
      or not it would open. */
  lemma ValidateFileSpec(stem: string, path: string, opens: bool)
    ensures forall ext :: Lower(ext) == ".xlsx" || Lower(ext) == ".xls" ==> ValidateFile(stem + ext, opens) == opens
    ensures ValidateFile(stem + ".XLSX", opens) == opens
    ensures ValidateFile(stem + ".xls", opens) == opens
    ensures path != [] && path[|path| - 1] !in "sSxX" ==> !ValidateFile(path, opens)
  {
    forall ext | Lower(ext) == ".xlsx" || Lower(ext) == ".xls"
      ensures ValidateFile(stem + ext, opens) == opens
    {
      LowerAppend(stem, ext);
      EndsWithAppended(Lower(stem), Lower(ext));
    }
    assert ValidateFile(stem + ".XLSX", opens) == opens by {
      LowerAppend(stem, ".XLSX");
      assert Lower(".XLSX") == SupportedFormats[0];
      EndsWithAppended(Lower(stem), SupportedFormats[0]);
    }
    assert ValidateFile(stem + ".xls", opens) == opens by {
      LowerAppend(stem, ".xls");
      assert Lower(".xls") == SupportedFormats[1];
      EndsWithAppended(Lower(stem), SupportedFormats[1]);
    }
    if path != [] && path[|path| - 1] !in "sSxX" {
      var low := Lower(path);
      LowerLast(path);
      assert low[|low| - 1] != 's' && low[|low| - 1] != 'x';
    }
  }

  predicate HasNull(row: seq<Cell>)
  {
    exists k :: 0 <= k < |row| && row[k].Null?
  }

  /** `dropna()`: the rows without a missing value, in order. */
  function DropNullRows(rows: seq<seq<Cell>>): (r: seq<seq<Cell>>)
    ensures |r| <= |rows|
    ensures forall i :: 0 <= i < |r| ==> r[i] in rows && !HasNull(r[i])
  {
    if rows == [] then []
    else DropNullRows(rows[..|rows| - 1]) + (if HasNull(rows[|rows| - 1]) then [] else [rows[|rows| - 1]])
  }

  /** `dropna()` keeps each row without a missing value as often as it
      occurs, and no other row. */
  lemma {:induction false} DropNullRowsCounts(rows: seq<seq<Cell>>)
    ensures forall row :: multiset(DropNullRows(rows))[row] == if HasNull(row) then 0 else multiset(rows)[row]
  {
    if rows != [] {
      assert rows == rows[..|rows| - 1] + [rows[|rows| - 1]];
      DropNullRowsCounts(rows[..|rows| - 1]);
    }
  }

  /** Every row without a missing value survives `dropna()`. */
  lemma {:induction false} DropNullRowsKeeps(rows: seq<seq<Cell>>, row: seq<Cell>)
    requires row in rows && !HasNull(row)
    ensures row in DropNullRows(rows)
  {
    var init := rows[..|rows| - 1];
    if row != rows[|rows| - 1] {
      var i :| 0 <= i < |rows| && rows[i] == row;
      assert init[i] == row;
      DropNullRowsKeeps(init, row);
    }
  }

  /** Dropping rows keeps the order of the survivors: rows that come in
      order of their first occurrence in s stay in that order. */
  lemma {:induction false} DropNullRowsOrdered(s: seq<seq<Cell>>, rows: seq<seq<Cell>>)
    requires forall x :: x in rows ==> x in s
    requires forall i, j :: 0 <= i < j < |rows| ==> FirstIndex(s, rows[i]) < FirstIndex(s, rows[j])
    ensures forall i, j :: 0 <= i < j < |DropNullRows(rows)| ==>
              FirstIndex(s, DropNullRows(rows)[i]) < FirstIndex(s, DropNullRows(rows)[j])
  {
    if rows != [] {
      var init := rows[..|rows| - 1];
      var last := rows[|rows| - 1];
      assert forall i :: 0 <= i < |init| ==> init[i] == rows[i];
      DropNullRowsOrdered(s, init);
      var d := DropNullRows(init);
      if !HasNull(last) {
        forall i | 0 <= i < |d|
          ensures FirstIndex(s, d[i]) < FirstIndex(s, last)
        {
          var p :| 0 <= p < |init| && init[p] == d[i];
          assert rows[p] == d[i];
        }
        assert DropNullRows(rows) == d + [last];
      }
    }
  }

  /** The fill values pandas computes for a column: its median and its
      first mode, None when the median is NaN or there is no mode. */
  datatype FillValues = FillValues(median: seq<Cell> -> Option<Cell>, mode: seq<Cell> -> Option<Cell>)

  /** The value a column of dtype d is filled with. */
  function FillValue(fv: FillValues, d: Dtype, col: seq<Cell>): Option<Cell>
  {
    if d == Int64 || d == Float64 then fv.median(col) else fv.mode(col)
  }

  /** `fillna(v)` on one column. */
  function FillColumn(col: seq<Cell>, v: Option<Cell>): (r: seq<Cell>)
    ensures |r| == |col|
  {
    seq(|col|, i requires 0 <= i < |col| => if col[i].Null? && v.Some? then v.value else col[i])
  }

  /** Every column of f, filled. */
  function FilledColumnsOf(fv: FillValues, f: Frame): (cs: seq<(Dtype, seq<Cell>)>)
    requires f.Valid()
    ensures |cs| == |f.labels| && forall k :: 0 <= k < |cs| ==> |cs[k].1| == |f.rows|
  {
    seq(|f.labels|, k requires 0 <= k < |f.labels| =>
          (f.dtypes[k], FillColumn(f.Column(k), FillValue(fv, f.dtypes[k], f.Column(k)))))
  }

  /** The fill applied to the columns below j. */
  function FilledUpTo(fv: FillValues, f: Frame, j: nat): (g: Frame)
    requires f.Valid() && j <= |f.labels|
    ensures g.Valid() && g.labels == f.labels && |g.rows| == |f.rows|
  {
    SetColumns(f, FilledColumnsOf(fv, f), j)
  }

  /** What `clean_data` returns: duplicates dropped on request, then the
      missing values dropped, filled or kept. When filling meets a repeated
      label, `cleaned_df[col]` is a frame without a `dtype` and the call
      raises; the error carries the position of that column. */
  function Cleaned(fv: FillValues, f: Frame, removeDuplicates: bool, handleNulls: string): (r: Result<Frame, nat>)
    requires f.Valid()
    ensures r.Ok? ==> r.value.Valid() && r.value.labels == f.labels
    ensures r.Err? <==> handleNulls == "fill" && !Distinct(f.labels)
    ensures r.Err? ==> r.error < |f.labels| && Repeated(f.labels, r.error)
  {
    var a := if removeDuplicates then Duplicates.Deduplicated(f) else f;
    if handleNulls == "drop" then
      assert forall i :: 0 <= i < |DropNullRows(a.rows)| ==> DropNullRows(a.rows)[i] in a.rows;
      Ok(WithRows(a, DropNullRows(a.rows)))
    else if handleNulls == "fill" then
      if Distinct(a.labels) then Ok(FilledUpTo(fv, a, |a.labels|))
      else
        var k := FirstRepeated(a.labels, 0);
        FirstRepeatedFound(a.labels);
        Err(k)
    else Ok(a)
  }

  /** `clean_data`: works on its own copy, which it rebinds stage by stage
      and, when filling, updates one column at a time until a repeated label
      makes it raise. */
  method CleanData(fv: FillValues, df: Frame, removeDuplicates: bool, handleNulls: string)
    returns (r: Result<Frame, nat>)
    requires df.Valid()
    ensures r == Cleaned(fv, df, removeDuplicates, handleNulls)
  {
    var cleaned := df;
    if removeDuplicates {
      cleaned := Duplicates.Deduplicated(cleaned);
    }
    if handleNulls == "drop" {
      var rows := DropNullRows(cleaned.rows);
      assert forall i :: 0 <= i < |rows| ==> rows[i] in cleaned.rows;
      cleaned := WithRows(cleaned, rows);
    } else if handleNulls == "fill" {
      var start := cleaned;
      ghost var cs := FilledColumnsOf(fv, start);
      var j := 0;
      while j < |cleaned.labels|
        invariant 0 <= j <= |start.labels| && cleaned.labels == start.labels
        invariant j <= FirstRepeated(start.labels, 0)
        invariant cleaned == SetColumns(start, cs, j)
      {
        if Repeated(start.labels, j) {
          RepeatedNotDistinct(start.labels, j);
          return Err(j);
        }
        var col := start.Column(j);
        assert (start.dtypes[j], FillColumn(col, FillValue(fv, start.dtypes[j], col))) == cs[j];
        cleaned := SetColumn(cleaned, j, start.dtypes[j], FillColumn(col, FillValue(fv, start.dtypes[j], col)));
        j := j + 1;
      }
      NoRepeatedDistinct(start.labels);
    }
    r := Ok(cleaned);
  }

  /** The fill works column by column: column k of the result is column k
      filled with its own value, and the dtypes stay. */
  lemma FilledColumns(fv: FillValues, f: Frame, j: nat)
    requires f.Valid() && j <= |f.labels|
    ensures FilledUpTo(fv, f, j).dtypes == f.dtypes
    ensures forall k :: 0 <= k < j ==>
              FilledUpTo(fv, f, j).Column(k) == FillColumn(f.Column(k), FillValue(fv, f.dtypes[k], f.Column(k)))
    ensures forall k :: j <= k < |f.labels| ==> FilledUpTo(fv, f, j).Column(k) == f.Column(k)
  {
    var g := FilledUpTo(fv, f, j);
    SetColumnsSpec(f, FilledColumnsOf(fv, f), j);
    assert |g.dtypes| == |f.dtypes|;
  }

  /** With duplicate removal every row of the input is there; when the
      table has columns no two rows of the result are equal and the survivors
      are first occurrences in their original order, and a table without
      columns, empty to pandas, comes back whole. */
  lemma CleanedWithoutDuplicates(fv: FillValues, f: Frame)
    requires f.Valid()
    ensures Cleaned(fv, f, true, "keep").Ok?
    ensures var g := Cleaned(fv, f, true, "keep").value;
            (forall row :: row in f.rows <==> row in g.rows)
            && (|f.labels| > 0 ==>
                  Distinct(g.rows)
                  && (forall i, j :: 0 <= i < j < |g.rows| ==> FirstIndex(f.rows, g.rows[i]) < FirstIndex(f.rows, g.rows[j])))
            && (|f.labels| == 0 ==> g == f)
  {
    Duplicates.DeduplicatedSpec(f);
  }

  /** Dropping missing values leaves no row with one, keeps every row that
      had none, with or without duplicate removal, and never adds rows; after
      duplicate removal on a table with columns the rows are distinct and in
      first-occurrence order. */
  lemma CleanedDropsNulls(fv: FillValues, f: Frame, removeDuplicates: bool)
    requires f.Valid()
    ensures Cleaned(fv, f, removeDuplicates, "drop").Ok?
    ensures var g := Cleaned(fv, f, removeDuplicates, "drop").value;
            |g.rows| <= |f.rows|
            && (forall i :: 0 <= i < |g.rows| ==> !HasNull(g.rows[i]))
            && (forall row :: row in f.rows && !HasNull(row) ==> row in g.rows)
    ensures removeDuplicates && |f.labels| > 0 ==>
            var g := Cleaned(fv, f, true, "drop").value;
            Distinct(g.rows)
            && (forall i, j :: 0 <= i < j < |g.rows| ==> FirstIndex(f.rows, g.rows[i]) < FirstIndex(f.rows, g.rows[j]))
  {
    var a := if removeDuplicates then Duplicates.Deduplicated(f) else f;
    Duplicates.DeduplicatedSpec(f);
    assert forall row :: row in f.rows ==> row in a.rows;
    forall row | row in f.rows && !HasNull(row)
      ensures row in DropNullRows(a.rows)
    {
      DropNullRowsKeeps(a.rows, row);
    }
    if removeDuplicates && |f.labels| > 0 {
      assert Cleaned(fv, f, true, "drop").value.rows == DropNullRows(KeepFirst(f.rows));
      DropNullRowsOfFirsts(f.rows);
    }
  }

  /** Dropping rows with a missing value from the first occurrences leaves
      distinct rows in first-occurrence order. */
  lemma DropNullRowsOfFirsts(rows: seq<seq<Cell>>)
    ensures var g := DropNullRows(KeepFirst(rows));
            Distinct(g)
            && (forall i, j :: 0 <= i < j < |g| ==> FirstIndex(rows, g[i]) < FirstIndex(rows, g[j]))
  {
    KeepFirstSpec(rows);
    DropNullRowsOrdered(rows, KeepFirst(rows));
    var g := DropNullRows(KeepFirst(rows));
    forall i, j | 0 <= i < j < |g|
      ensures g[i] != g[j]
    {
      assert FirstIndex(rows, g[i]) < FirstIndex(rows, g[j]);
    }
  }

  /** Filling succeeds exactly when no label repeats, with or without
      duplicate removal first. It then keeps every row of the (de-duplicated)
      table a, every label and every present value, and a missing value
      becomes the column's fill value, computed on a, when it has one. */
  lemma CleanedFillsNulls(fv: FillValues, f: Frame, removeDuplicates: bool, i: nat, k: nat)
    requires f.Valid() && k < |f.labels|
    ensures Cleaned(fv, f, removeDuplicates, "fill").Ok? <==> Distinct(f.labels)
    ensures var a := if removeDuplicates then Duplicates.Deduplicated(f) else f;
            Distinct(f.labels) && i < |a.rows| ==>
            var g := Cleaned(fv, f, removeDuplicates, "fill").value;
            var v := FillValue(fv, a.dtypes[k], a.Column(k));
            |g.rows| == |a.rows| && g.labels == f.labels && g.dtypes == f.dtypes
            && (!a.rows[i][k].Null? ==> g.rows[i][k] == a.rows[i][k])
            && (a.rows[i][k].Null? && v.Some? ==> g.rows[i][k] == v.value)
            && (a.rows[i][k].Null? && v.None? ==> g.rows[i][k].Null?)
  {
    var a := if removeDuplicates then Duplicates.Deduplicated(f) else f;
    if Distinct(f.labels) && i < |a.rows| {
      FilledColumns(fv, a, |a.labels|);
      var g := Cleaned(fv, f, removeDuplicates, "fill").value;
      assert g == FilledUpTo(fv, a, |a.labels|);
      assert g.Column(k)[i] == g.rows[i][k];
    }
  }

  /** Filling a table whose labels repeat raises at the first column whose
      label repeats, before which no label does. */
  lemma CleanedRaisesOnRepeatedLabel(fv: FillValues, f: Frame, removeDuplicates: bool)
    requires f.Valid() && !Distinct(f.labels)
    ensures var r := Cleaned(fv, f, removeDuplicates, "fill");
            r.Err? && r.error < |f.labels| && Repeated(f.labels, r.error)
            && forall j :: 0 <= j < r.error ==> !Repeated(f.labels, j)
  {
    FirstRepeatedFound(f.labels);
  }

  /** Without duplicate removal and with a policy other than "drop" or
      "fill", the table comes back as it was; removing duplicates alone never
      adds rows. */
  lemma CleanedKeeps(fv: FillValues, f: Frame, handleNulls: string)
    requires f.Valid() && handleNulls != "drop" && handleNulls != "fill"
    ensures Cleaned(fv, f, false, handleNulls) == Ok(f)
    ensures Cleaned(fv, f, true, handleNulls).Ok? && |Cleaned(fv, f, true, handleNulls).value.rows| <= |f.rows|
  {
  }
}
