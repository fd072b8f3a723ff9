/** `_handle_duplicates_intelligently`: exact duplicate rows are dropped,
    keeping first occurrences, only while they are fewer than a fifth of the
    rows; with more the table is kept whole and a warning is raised. The
    notices the source shows on screen are returned as a report. */
module Duplicates {
  import opened Frames

  /** Duplicates are dropped only while they are strictly fewer than this share of the rows. */
  const DropShare: real := 0.2

  /** What the step tells the user. */
  datatype Report =
    | NoDuplicates
    | Removed(removed: nat)
    | TooMany(found: nat)

  /** `df[~df.duplicated()]` / `drop_duplicates()`: the rows of f without
      later repeats. A frame without columns is empty to pandas, which
      returns it whole. */
  function Deduplicated(f: Frame): (g: Frame)
    requires f.Valid()
    ensures g.Valid() && g.labels == f.labels && g.dtypes == f.dtypes
    ensures |g.rows| + RowDuplicates(f) == |f.rows|
  {
    if |f.labels| == 0 then f
    else
      KeepFirstSpec(f.rows);
      var rows := KeepFirst(f.rows);
      assert forall i :: 0 <= i < |rows| ==> rows[i] in f.rows;
      WithRows(f, rows)
  }

  /** Dropping duplicates keeps every row once and in first-occurrence
      order when the frame has columns, and keeps a frame without columns
      whole. */
  lemma DeduplicatedSpec(f: Frame)
    requires f.Valid()
    ensures var g := Deduplicated(f);
            (forall row :: row in f.rows <==> row in g.rows)
            && (|f.labels| > 0 ==>
                  Distinct(g.rows)
                  && (forall i, j :: 0 <= i < j < |g.rows| ==> FirstIndex(f.rows, g.rows[i]) < FirstIndex(f.rows, g.rows[j])))
            && (|f.labels| == 0 ==> g == f)
  {
    KeepFirstSpec(f.rows);
  }

  /** The table the step returns and the report it gives. */
  function HandleDuplicates(f: Frame): (r: (Frame, Report))
    requires f.Valid()
  {
    var n := |f.rows|;
    var d := RowDuplicates(f);
    if n == 0 || d == 0 then (f, NoDuplicates)
    else if (d as real) < (n as real) * DropShare then (Deduplicated(f), Removed(d))
    else (f, TooMany(d))
  }

  /** Rows go exactly when there are some duplicates but fewer than a fifth
      of the rows. When they go, the result has the same labels and dtypes,
      keeps the first occurrence of every row in the original order, holds no
      two equal rows, and the report names the number removed; otherwise the
      table comes back unchanged and the report says whether duplicates were
      found. A frame without columns has no duplicates to pandas. The row
      count never grows. */
  lemma HandleDuplicatesSpec(f: Frame)
    requires f.Valid()
    ensures var (g, rep) := HandleDuplicates(f);
            var d := RowDuplicates(f);
            g.Valid() && g.labels == f.labels && g.dtypes == f.dtypes && |g.rows| <= |f.rows|
            && (|g.rows| < |f.rows| <==> 0 < d && (d as real) < (|f.rows| as real) * DropShare)
            && (|g.rows| < |f.rows| ==>
                  rep == Removed(|f.rows| - |g.rows|)
                  && Distinct(g.rows)
                  && (forall row :: row in f.rows <==> row in g.rows)
                  && (forall i, j :: 0 <= i < j < |g.rows| ==> FirstIndex(f.rows, g.rows[i]) < FirstIndex(f.rows, g.rows[j])))
            && (|g.rows| == |f.rows| ==> g == f && (rep == NoDuplicates <==> d == 0))
            && (|f.labels| == 0 ==> HandleDuplicates(f) == (f, NoDuplicates))
  {
    DeduplicatedSpec(f);
    NoDuplicatesSpec(f.rows);
  }

  /** Twenty duplicates among a hundred rows are too many: nothing is dropped. */
  lemma FifthIsTooMany(f: Frame)
    requires f.Valid() && |f.rows| == 100 && RowDuplicates(f) == 20
    ensures HandleDuplicates(f) == (f, TooMany(20))
  {
  }

  /** The example of the accuracy tests: one repeated row among eleven is
      under a fifth, so it is removed and no duplicate remains. */
  lemma OneInElevenRemoved(f: Frame)
    requires f.Valid() && |f.rows| == 11 && RowDuplicates(f) == 1
    ensures HandleDuplicates(f).1 == Removed(1)
    ensures |HandleDuplicates(f).0.rows| == 10 && Distinct(HandleDuplicates(f).0.rows)
  {
    HandleDuplicatesSpec(f);
  }
}
