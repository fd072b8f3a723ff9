/** The upload gate, `_apply_comprehensive_processing` and the check on its
    result. Processing drops the rows and then the columns that hold nothing,
    reconciles the headers, converts the column types, standardises text and
    removes a modest number of duplicate rows, in that order. */
module Pipeline {
  import opened Wrappers
  import opened Text
  import opened Frames
  import Headers
  import TypeInference
  import Standardize
  import Duplicates

  /** MAX_FILE_SIZE_MB in bytes. */
  const MaxFileBytes: nat := 100 * 1024 * 1024

  /** EXCEL_FORMATS. */
  const ExcelFormats: seq<string> := [".xlsx", ".xls"]

  /** What `_validate_uploaded_file` decides; the two refusals carry the
      message the source shows. */
  datatype UploadVerdict = Accepted | TooLarge | BadFormat

  /** `_validate_uploaded_file`: the size is checked before the name, whose
      lower-cased form must end in one of the Excel extensions. */
  function ValidateUploadedFile(size: int, name: string): (v: UploadVerdict)
  {
    if size > MaxFileBytes then TooLarge
    else if !(EndsWith(Lower(name), ExcelFormats[0]) || EndsWith(Lower(name), ExcelFormats[1])) then BadFormat
    else Accepted
  }

  /** The extension check ignores case: a name ending in any casing of
      ".xlsx" or ".xls" passes when the file is small enough, and a file over
      100 MB is refused for its size whatever its name. */
  lemma UploadGate(size: int, stem: string)
    ensures forall ext :: (Lower(ext) == ".xlsx" || Lower(ext) == ".xls") && size <= MaxFileBytes ==>
              ValidateUploadedFile(size, stem + ext) == Accepted
    ensures size <= MaxFileBytes ==> ValidateUploadedFile(size, stem + ".XLSX") == Accepted
    ensures size <= MaxFileBytes ==> ValidateUploadedFile(size, stem + ".xls") == Accepted
    ensures size > MaxFileBytes ==> ValidateUploadedFile(size, stem) == TooLarge
  {
    forall ext | (Lower(ext) == ".xlsx" || Lower(ext) == ".xls") && size <= MaxFileBytes
      ensures ValidateUploadedFile(size, stem + ext) == Accepted
    {
      LowerAppend(stem, ext);
      EndsWithAppended(Lower(stem), Lower(ext));
    }
    assert EndsWith(Lower(stem + ".XLSX"), ExcelFormats[0]) by {
      LowerAppend(stem, ".XLSX");
      assert Lower(".XLSX") == ExcelFormats[0];
      EndsWithAppended(Lower(stem), ExcelFormats[0]);
    }
    assert EndsWith(Lower(stem + ".xls"), ExcelFormats[1]) by {
      LowerAppend(stem, ".xls");
      assert Lower(".xls") == ExcelFormats[1];
      EndsWithAppended(Lower(stem), ExcelFormats[1]);
    }
  }

  /** A name whose last character is not an 's' or 'x' in either case is refused. */
  lemma UploadRefusesOtherNames(size: int, name: string)
    requires size <= MaxFileBytes && name != [] && name[|name| - 1] !in "sSxX"
    ensures ValidateUploadedFile(size, name) == BadFormat
  {
    var low := Lower(name);
    LowerLast(name);
    assert low[|low| - 1] != 's' && low[|low| - 1] != 'x';
  }

  predicate AllNull(row: seq<Cell>)
  {
    forall k :: 0 <= k < |row| ==> row[k].Null?
  }

  /** `dropna(how='all')` on the rows. */
  function DropEmptyRows(rows: seq<seq<Cell>>): (r: seq<seq<Cell>>)
    ensures |r| <= |rows|
    ensures forall i :: 0 <= i < |r| ==> r[i] in rows && !AllNull(r[i])
    ensures forall row :: multiset(r)[row] == if AllNull(row) then 0 else multiset(rows)[row]
  {
    if rows == [] then []
    else
      assert rows == rows[..|rows| - 1] + [rows[|rows| - 1]];
      DropEmptyRows(rows[..|rows| - 1]) + (if AllNull(rows[|rows| - 1]) then [] else [rows[|rows| - 1]])
  }

  /** Every row holding a value survives the row drop. */
  lemma {:induction false} DropEmptyRowsKeeps(rows: seq<seq<Cell>>, row: seq<Cell>)
    requires row in rows && !AllNull(row)
    ensures row in DropEmptyRows(rows)
  {
    var init := rows[..|rows| - 1];
    if row != rows[|rows| - 1] {
      var i :| 0 <= i < |rows| && rows[i] == row;
      assert init[i] == row;
      DropEmptyRowsKeeps(init, row);
    }
  }

  predicate ColumnAllNull(f: Frame, j: nat)
    requires f.Valid() && j < |f.labels|
  {
    forall i :: 0 <= i < |f.rows| ==> f.rows[i][j].Null?
  }

  /** The positions below j of the columns that hold a value, in order. */
  function KeptColumns(f: Frame, j: nat): (idx: seq<nat>)
    requires f.Valid() && j <= |f.labels|
    ensures |idx| <= j
    ensures forall k :: 0 <= k < |idx| ==> idx[k] < j && !ColumnAllNull(f, idx[k])
    ensures forall k, l :: 0 <= k < l < |idx| ==> idx[k] < idx[l]
  {
    if j == 0 then []
    else KeptColumns(f, j - 1) + (if ColumnAllNull(f, j - 1) then [] else [j - 1])
  }

  lemma {:induction false} KeptColumnsComplete(f: Frame, j: nat, c: nat)
    requires f.Valid() && c < j <= |f.labels| && !ColumnAllNull(f, c)
    ensures c in KeptColumns(f, j)
  {
    var prev := KeptColumns(f, j - 1);
    var last: seq<nat> := if ColumnAllNull(f, j - 1) then [] else [j - 1];
    assert KeptColumns(f, j) == prev + last;
    if c < j - 1 {
      KeptColumnsComplete(f, j - 1, c);
      var k :| 0 <= k < |prev| && prev[k] == c;
      assert (prev + last)[k] == c;
    } else {
      assert (prev + last)[|prev|] == c;
    }
  }

  /** The frame made of the columns at the given positions. */
  function SelectColumns(f: Frame, idx: seq<nat>): (g: Frame)
    requires f.Valid() && forall k :: 0 <= k < |idx| ==> idx[k] < |f.labels|
    ensures g.Valid() && |g.labels| == |idx| && |g.rows| == |f.rows|
    ensures forall k :: 0 <= k < |idx| ==>
              g.labels[k] == f.labels[idx[k]] && g.dtypes[k] == f.dtypes[idx[k]] && g.Column(k) == f.Column(idx[k])
  {
    Frame(seq(|idx|, k requires 0 <= k < |idx| => f.labels[idx[k]]),
          seq(|idx|, k requires 0 <= k < |idx| => f.dtypes[idx[k]]),
          seq(|f.rows|, i requires 0 <= i < |f.rows| => seq(|idx|, k requires 0 <= k < |idx| => f.rows[i][idx[k]])))
  }

  /** `df.dropna(how='all').dropna(axis=1, how='all')`. */
  function DropEmpty(f: Frame): (g: Frame)
    requires f.Valid()
    ensures g.Valid()
  {
    var rows := DropEmptyRows(f.rows);
    assert forall i :: 0 <= i < |rows| ==> rows[i] in f.rows;
    var h := WithRows(f, rows);
    SelectColumns(h, KeptColumns(h, |h.labels|))
  }

  /** After the drop no row and no column is entirely missing, every row
      that held a value is still there, every column that then holds a value
      is still there in its place in the order, and nothing grew. */
  lemma DropEmptySpec(f: Frame)
    requires f.Valid()
    ensures var g := DropEmpty(f);
            |g.rows| <= |f.rows| && |g.labels| <= |f.labels|
            && (forall i :: 0 <= i < |g.rows| ==> !AllNull(g.rows[i]))
            && (forall k :: 0 <= k < |g.labels| ==> !ColumnAllNull(g, k))
    ensures var h := WithRows(f, DropEmptyRows(f.rows));
            (forall row :: row in f.rows && !AllNull(row) ==> row in h.rows)
            && (forall c :: 0 <= c < |f.labels| && !ColumnAllNull(h, c) ==> c in KeptColumns(h, |f.labels|))
  {
    var rows := DropEmptyRows(f.rows);
    assert forall i :: 0 <= i < |rows| ==> rows[i] in f.rows;
    var h := WithRows(f, rows);
    DropEmptyRowsHold(f);
    DropEmptyColumnsHold(f);
    forall row | row in f.rows && !AllNull(row)
      ensures row in h.rows
    {
      DropEmptyRowsKeeps(f.rows, row);
    }
    forall c | 0 <= c < |f.labels| && !ColumnAllNull(h, c)
      ensures c in KeptColumns(h, |f.labels|)
    {
      KeptColumnsComplete(h, |f.labels|, c);
    }
  }

  /** No row left by the drop is entirely missing. */
  lemma DropEmptyRowsHold(f: Frame)
    requires f.Valid()
    ensures forall i :: 0 <= i < |DropEmpty(f).rows| ==> !AllNull(DropEmpty(f).rows[i])
  {
    var rows := DropEmptyRows(f.rows);
    assert forall i :: 0 <= i < |rows| ==> rows[i] in f.rows;
    var h := WithRows(f, rows);
    var idx := KeptColumns(h, |h.labels|);
    var g := DropEmpty(f);
    assert g == SelectColumns(h, idx);
    forall i | 0 <= i < |g.rows|
      ensures !AllNull(g.rows[i])
    {
      var c :| 0 <= c < |h.rows[i]| && !h.rows[i][c].Null?;
      KeptColumnsComplete(h, |h.labels|, c);
      var k :| 0 <= k < |idx| && idx[k] == c;
      assert g.Column(k)[i] == h.Column(c)[i];
    }
  }

  /** No column left by the drop is entirely missing. */
  lemma DropEmptyColumnsHold(f: Frame)
    requires f.Valid()
    ensures forall k :: 0 <= k < |DropEmpty(f).labels| ==> !ColumnAllNull(DropEmpty(f), k)
  {
    var rows := DropEmptyRows(f.rows);
    assert forall i :: 0 <= i < |rows| ==> rows[i] in f.rows;
    var h := WithRows(f, rows);
    var idx := KeptColumns(h, |h.labels|);
    var g := DropEmpty(f);
    assert g == SelectColumns(h, idx);
    forall k | 0 <= k < |g.labels|
      ensures !ColumnAllNull(g, k)
    {
      var i :| 0 <= i < |h.rows| && !h.rows[i][idx[k]].Null?;
      assert g.Column(k)[i] == h.Column(idx[k])[i];
    }
  }

  /** The five processing steps as one function. */
  function Processed(lib: Lib, f: Frame): (g: Frame)
    requires f.Valid()
    ensures g.Valid()
  {
    var a := DropEmpty(f);
    var b := Headers.FixHeaders(lib, a);
    var c := TypeInference.Enhanced(lib, b);
    var d := Standardize.Standardized(lib, c);
    Duplicates.HandleDuplicatesSpec(d);
    Duplicates.HandleDuplicates(d).0
  }

  /** `_apply_comprehensive_processing`. */
  method ApplyComprehensiveProcessing(lib: Lib, f: Frame) returns (g: Frame)
    requires f.Valid()
    ensures g == Processed(lib, f)
  {
    var a := DropEmpty(f);
    var b := Headers.DetectAndFixHeaders(lib, a);
    var c := TypeInference.EnhanceDataTypes(lib, b);
    var d := Standardize.CleanAndStandardize(lib, c);
    Duplicates.HandleDuplicatesSpec(d);
    g := Duplicates.HandleDuplicates(d).0;
  }

  /** Processing never adds rows or columns: header promotion removes one
      row, type conversion and standardisation keep every row, duplicate
      handling only removes. */
  lemma ProcessingShrinks(lib: Lib, f: Frame)
    requires f.Valid()
    ensures |Processed(lib, f).rows| <= |f.rows|
    ensures |Processed(lib, f).labels| <= |f.labels|
  {
    DropEmptySpec(f);
    var a := DropEmpty(f);
    Headers.RowsAfterHeaders(lib, a);
    var b := Headers.FixHeaders(lib, a);
    var c := TypeInference.Enhanced(lib, b);
    Duplicates.HandleDuplicatesSpec(Standardize.Standardized(lib, c));
  }

  /** When the reconciled headers still repeat a label, `df[col]` yields a
      frame rather than a column, the type pass and the standardisation pass
      each give their input back from their handler, and only the duplicate
      handling changes the table. */
  lemma RepeatedLabelsSkipConversion(lib: Lib, f: Frame)
    requires f.Valid()
    requires !Distinct(Headers.FixHeaders(lib, DropEmpty(f)).labels)
    ensures Processed(lib, f) == Duplicates.HandleDuplicates(Headers.FixHeaders(lib, DropEmpty(f))).0
  {
    var b := Headers.FixHeaders(lib, DropEmpty(f));
    TypeInference.EnhancedSpec(lib, b);
    Standardize.StandardizedSpec(lib, b);
  }

  /** `_validate_processed_data`: its three checks, in the source's order. */
  function ValidateProcessedData(f: Option<Frame>): (ok: bool)
  {
    if f.None? || f.value.Empty() then false
    else if |f.value.rows| < 1 then false
    else if |f.value.labels| < 1 then false
    else true
  }

  /** The check passes exactly for a table that is present and not empty;
      the row and column checks after the emptiness check never decide. */
  lemma ValidateProcessedDataSpec(f: Option<Frame>)
    ensures ValidateProcessedData(f) <==> f.Some? && |f.value.rows| > 0 && |f.value.labels| > 0
  {
  }
}
