/** `_clean_and_standardize_data`: text columns are rendered, stripped and
    their spellings of "missing" turned into real missing values; columns
    that were `object` before the step also get three mis-decoded UTF-8
    punctuation sequences repaired. A text column left with nothing but
    missing values becomes `float64`. Numeric columns are inspected for
    outliers but never changed, and every other column is left alone. */
module Standardize {
  import opened Text
  import opened Frames

  /** The spellings of a missing value the step recognises, after stripping. */
  const MissingTokens: seq<string> := ["N/A", "n/a", "NA", "NULL", "null", "Null", "None", "none", "NONE", "", " ", "  "]

  /** The start all three mis-decoded sequences share: U+00E2 followed by U+20AC. */
  const Mangled: string := "\U{E2}\U{20AC}"

  /** A right single quotation mark read as Windows-1252. */
  const MangledApostrophe: string := Mangled + "\U{2122}"

  /** A left double quotation mark read as Windows-1252. */
  const MangledOpenQuote: string := Mangled + "\U{153}"

  /** The three replacements, in the order the step applies them. */
  function FixEncoding(s: string): string
  {
    ReplaceAll(ReplaceAll(ReplaceAll(s, MangledApostrophe, "'"), MangledOpenQuote, "\""), Mangled, "\"")
  }

  /** The dtypes the step treats as text. */
  predicate IsText(d: Dtype)
  {
    d == Object || d == StringType
  }

  /** One cell of a text column of dtype d: `astype(str).str.strip()`, then
      the missing spellings replaced by NaN, then, for an `object` column,
      the encoding repairs (which pass NaN through). */
  function StandardCell(lib: Lib, d: Dtype, c: Cell): Cell
  {
    var s := Strip(Render(lib, d, c));
    if s in MissingTokens then Null
    else if d == Object then Str(FixEncoding(s))
    else Str(s)
  }

  predicate AllMissing(cells: seq<Cell>)
  {
    forall k :: 0 <= k < |cells| ==> cells[k].Null?
  }

  /** The dtype a text column has after `replace`: `object`, except that
      pandas before 3.0 downcasts a non-empty column whose every value is now
      NaN to `float64`. The `.str` accessor of the encoding repair then
      raises, the inner except passes, and the cells stay missing. */
  function StandardDtype(cells: seq<Cell>): Dtype
  {
    if |cells| > 0 && AllMissing(cells) then Float64 else Object
  }

  /** The dtype and cells of one column after the step. A text column comes
      out as `object`, or as `float64` when nothing but missing values is
      left, whatever text dtype it had. */
  function StandardColumn(lib: Lib, d: Dtype, col: seq<Cell>): (r: (Dtype, seq<Cell>))
    ensures |r.1| == |col|
  {
    if IsText(d) then
      var cells := seq(|col|, k requires 0 <= k < |col| => StandardCell(lib, d, col[k]));
      (StandardDtype(cells), cells)
    else (d, col)
  }

  /** The standardisation of every column of f. */
  function StandardColumns(lib: Lib, f: Frame): (cs: seq<(Dtype, seq<Cell>)>)
    requires f.Valid()
    ensures |cs| == |f.labels| && forall k :: 0 <= k < |cs| ==> |cs[k].1| == |f.rows|
  {
    seq(|f.labels|, k requires 0 <= k < |f.labels| => StandardColumn(lib, f.dtypes[k], f.Column(k)))
  }

  function StandardizedUpTo(lib: Lib, f: Frame, j: nat): (g: Frame)
    requires f.Valid() && j <= |f.labels|
    ensures g.Valid() && g.labels == f.labels && |g.rows| == |f.rows|
  {
    SetColumns(f, StandardColumns(lib, f), j)
  }

  /** The result of the step: every column standardised, or the input
      itself when a label repeats, since `cleaned_df[col]` is then a
      DataFrame, its `.dtype` raises and the except clause returns the input. */
  function Standardized(lib: Lib, f: Frame): (g: Frame)
    requires f.Valid()
    ensures g.Valid() && g.labels == f.labels && |g.rows| == |f.rows|
  {
    if Distinct(f.labels) then StandardizedUpTo(lib, f, |f.labels|) else f
  }

  /** `_clean_and_standardize_data`: cleans a copy one column at a time and
      gives up on the copy at the first repeated label. */
  method CleanAndStandardize(lib: Lib, f: Frame) returns (g: Frame)
    requires f.Valid()
    ensures g == Standardized(lib, f)
  {
    ghost var cs := StandardColumns(lib, f);
    g := f;
    var j := 0;
    while j < |f.labels|
      invariant 0 <= j <= |f.labels|
      invariant j <= FirstRepeated(f.labels, 0)
      invariant g == SetColumns(f, cs, j)
    {
      if Repeated(f.labels, j) {
        RepeatedNotDistinct(f.labels, j);
        return f;
      }
      var d := f.dtypes[j];
      var col := f.Column(j);
      if IsText(d) {
        var cells := seq(|col|, k requires 0 <= k < |col| => StandardCell(lib, d, col[k]));
        assert (StandardDtype(cells), cells) == cs[j];
        g := SetColumn(g, j, StandardDtype(cells), cells);
      } else {
        assert (d, col) == cs[j];
        g := SetColumn(g, j, d, col);
      }
      j := j + 1;
    }
    NoRepeatedDistinct(f.labels);
  }

  /** The pass over the first j columns: labels and row count stay, column k
      below j is the standardisation of column k, the others are untouched. */
  lemma StandardizedColumns(lib: Lib, f: Frame, j: nat)
    requires f.Valid() && j <= |f.labels|
    ensures StandardizedUpTo(lib, f, j).labels == f.labels
    ensures |StandardizedUpTo(lib, f, j).rows| == |f.rows|
    ensures forall k :: 0 <= k < j ==>
              StandardizedUpTo(lib, f, j).dtypes[k] == StandardColumn(lib, f.dtypes[k], f.Column(k)).0
              && StandardizedUpTo(lib, f, j).Column(k) == StandardColumn(lib, f.dtypes[k], f.Column(k)).1
    ensures forall k :: j <= k < |f.labels| ==>
              StandardizedUpTo(lib, f, j).dtypes[k] == f.dtypes[k]
              && StandardizedUpTo(lib, f, j).Column(k) == f.Column(k)
  {
    SetColumnsSpec(f, StandardColumns(lib, f), j);
  }

  /** With distinct labels every column is standardised on its own; with a
      repeated label the table comes back unchanged. */
  lemma StandardizedSpec(lib: Lib, f: Frame)
    requires f.Valid()
    ensures Standardized(lib, f).labels == f.labels && |Standardized(lib, f).rows| == |f.rows|
    ensures !Distinct(f.labels) ==> Standardized(lib, f) == f
    ensures Distinct(f.labels) ==> forall k :: 0 <= k < |f.labels| ==>
              Standardized(lib, f).dtypes[k] == StandardColumn(lib, f.dtypes[k], f.Column(k)).0
              && Standardized(lib, f).Column(k) == StandardColumn(lib, f.dtypes[k], f.Column(k)).1
  {
    if Distinct(f.labels) {
      StandardizedColumns(lib, f, |f.labels|);
    }
  }

  /** Only text columns change: every other column keeps its dtype and
      every one of its cells, and, when no label repeats, every text column
      becomes `object`, or `float64` exactly when it has rows and all of
      them are now missing. */
  lemma NonTextColumnsKept(lib: Lib, f: Frame, k: nat)
    requires f.Valid() && k < |f.labels|
    ensures Standardized(lib, f).labels == f.labels
    ensures |Standardized(lib, f).rows| == |f.rows|
    ensures !IsText(f.dtypes[k]) ==>
              Standardized(lib, f).dtypes[k] == f.dtypes[k] && Standardized(lib, f).Column(k) == f.Column(k)
    ensures IsText(f.dtypes[k]) && Distinct(f.labels) ==>
              (Standardized(lib, f).dtypes[k] == Object || Standardized(lib, f).dtypes[k] == Float64)
              && (Standardized(lib, f).dtypes[k] == Float64 <==>
                  |f.rows| > 0 && forall i :: 0 <= i < |f.rows| ==> Standardized(lib, f).rows[i][k].Null?)
  {
    StandardizedSpec(lib, f);
    var g := Standardized(lib, f);
    if IsText(f.dtypes[k]) && Distinct(f.labels) {
      assert forall i :: 0 <= i < |f.rows| ==> g.Column(k)[i] == g.rows[i][k];
    }
  }

  /** A non-empty text column holding only "N/A" ends up all missing and,
      through the downcast, `float64`. */
  lemma OnlyMissingSpellingsBecomeFloat(lib: Lib, d: Dtype, col: seq<Cell>)
    requires IsText(d) && |col| > 0 && forall k :: 0 <= k < |col| ==> col[k] == Str("N/A")
    ensures StandardColumn(lib, d, col).0 == Float64
    ensures forall k :: 0 <= k < |col| ==> StandardColumn(lib, d, col).1[k] == Null
  {
    assert Strip("N/A") == "N/A" by { StripNonBlank("N/A"); StripOfStripped("N/A"); }
  }

  /** A text cell becomes missing exactly when its stripped rendering is one
      of the missing spellings; otherwise it is text that is stripped, is
      none of those spellings and, in a `string` column, is exactly the
      stripped rendering. */
  lemma TextCellOutcome(lib: Lib, d: Dtype, c: Cell)
    requires IsText(d)
    ensures StandardCell(lib, d, c).Null? <==> Strip(Render(lib, d, c)) in MissingTokens
    ensures StandardCell(lib, d, c).Null? || StandardCell(lib, d, c).Str?
    ensures d == StringType && StandardCell(lib, d, c).Str? ==>
              Stripped(StandardCell(lib, d, c).s) && StandardCell(lib, d, c).s !in MissingTokens
  {
    StripSpec(Render(lib, d, c));
  }

  /** Missing values are not among the recognised spellings once rendered:
      a missing value in a `string` column comes out as the text "<NA>". */
  lemma MissingStringBecomesText(lib: Lib)
    ensures StandardCell(lib, StringType, Null) == Str("<NA>")
  {
    assert Strip("<NA>") == "<NA>" by { StripNonBlank("<NA>"); StripOfStripped("<NA>"); }
    assert "<NA>" !in MissingTokens by { NotMissing("<NA>"); }
  }

  /** The same in an `object` column, whose missing value reads "nan". */
  lemma MissingObjectBecomesText(lib: Lib)
    ensures StandardCell(lib, Object, Null) == Str("nan")
  {
    NanStripped();
    NanKept();
    assert Render(lib, Object, Null) == "nan";
  }

  lemma NanStripped()
    ensures Strip("nan") == "nan" && "nan" !in MissingTokens
  {
    StripNonBlank("nan");
    StripOfStripped("nan");
    NotMissing("nan");
  }

  lemma NanKept()
    ensures FixEncoding("nan") == "nan"
  {
    NotContainsChar("nan", Mangled, '\U{E2}');
    EncodingKeepsCleanText("nan");
  }

  /** A string of length 3 or 4 that holds a lower-case 'a' or a '<' is no missing spelling. */
  lemma NotMissing(s: string)
    requires 3 <= |s| <= 4 && ('<' in s || s[1] == 'a')
    ensures s !in MissingTokens
  {
  }

  /** After the repair no mis-decoded sequence is left. */
  lemma EncodingRepaired(s: string)
    ensures !Contains(FixEncoding(s), Mangled)
    ensures !Contains(FixEncoding(s), MangledApostrophe)
    ensures !Contains(FixEncoding(s), MangledOpenQuote)
  {
    var t := ReplaceAll(ReplaceAll(s, MangledApostrophe, "'"), MangledOpenQuote, "\"");
    assert Mangled == ['\U{E2}', '\U{20AC}'];
    ReplacedPairGone(t, '\U{E2}', '\U{20AC}', "\"");
    if Contains(FixEncoding(s), MangledApostrophe) {
      ContainsPrefixPattern(FixEncoding(s), Mangled, "\U{2122}");
    }
    if Contains(FixEncoding(s), MangledOpenQuote) {
      ContainsPrefixPattern(FixEncoding(s), Mangled, "\U{153}");
    }
  }

  /** Text without a mis-decoded sequence is not changed by the repair. */
  lemma EncodingKeepsCleanText(s: string)
    requires !Contains(s, Mangled)
    ensures FixEncoding(s) == s
  {
    if Contains(s, MangledApostrophe) {
      ContainsPrefixPattern(s, Mangled, "\U{2122}");
    }
    if Contains(s, MangledOpenQuote) {
      ContainsPrefixPattern(s, Mangled, "\U{153}");
    }
    ReplaceAbsent(s, MangledApostrophe, "'");
    ReplaceAbsent(s, MangledOpenQuote, "\"");
    ReplaceAbsent(s, Mangled, "\"");
  }

  /** Repairing twice is repairing once. */
  lemma EncodingIdempotent(s: string)
    ensures FixEncoding(FixEncoding(s)) == FixEncoding(s)
  {
    EncodingRepaired(s);
    EncodingKeepsCleanText(FixEncoding(s));
  }
}
