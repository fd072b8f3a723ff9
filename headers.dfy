/** Header reconciliation (`_detect_and_fix_headers_enhanced` in app.py):
    score row 0, promote it to labels when the score reaches 4 (sanitising
    and de-duplicating the new labels), then rename labels that are still
    generic. */
module Headers {
  import opened Wrappers
  import opened Text
  import opened Frames

  /** Words whose presence in a row-0 cell counts one point each. */
  const HeaderKeywords: seq<string> := ["id", "name", "date", "time", "total", "amount", "qty", "quantity", "price"]
  /** Text cells must exceed this share of the columns to score 3 points. */
  const TextShare: real := 0.6
  /** Generic labels must exceed this share of the columns to score 2 points. */
  const GenericShare: real := 0.5
  const PromotionScore: nat := 4
  const MaxLabelLength: nat := 50
  /** Strategy 2 looks at the first five rows of a column. */
  const SampleRows: nat := 5

  /** `isinstance(val, str) and len(str(val)) > 0` */
  predicate IsTextValue(c: Cell)
  {
    c.Str? && |c.s| > 0
  }

  /** `is_numeric_dtype(type(val)) and not pd.isna(val)`: Python int, float
      and bool values (booleans are numeric to pandas). */
  predicate IsNumericValue(c: Cell)
  {
    c.Int? || c.Num? || c.Inf? || c.Bool?
  }

  predicate HasKeyword(lib: Lib, d: Dtype, c: Cell)
  {
    ContainsAny(Lower(Render(lib, d, c)), HeaderKeywords)
  }

  function TextCount(row: seq<Cell>): (n: nat)
    ensures n <= |row|
  {
    if row == [] then 0 else TextCount(row[..|row| - 1]) + (if IsTextValue(row[|row| - 1]) then 1 else 0)
  }

  function KeywordCount(lib: Lib, dtypes: seq<Dtype>, row: seq<Cell>): (n: nat)
    requires |dtypes| == |row|
    ensures n <= |row|
  {
    if row == [] then 0
    else KeywordCount(lib, dtypes[..|row| - 1], row[..|row| - 1])
         + (if HasKeyword(lib, dtypes[|row| - 1], row[|row| - 1]) then 1 else 0)
  }

  function NumericCount(row: seq<Cell>): (n: nat)
    ensures n <= |row|
  {
    if row == [] then 0 else NumericCount(row[..|row| - 1]) + (if IsNumericValue(row[|row| - 1]) then 1 else 0)
  }

  function GenericCount(lib: Lib, labels: seq<Cell>): (n: nat)
    ensures n <= |labels|
  {
    if labels == [] then 0
    else GenericCount(lib, labels[..|labels| - 1]) + (if GenericLabel(lib, labels[|labels| - 1]) then 1 else 0)
  }

  /** The header score of row 0, from its four independent signals. */
  function HeaderScore(lib: Lib, f: Frame): nat
    requires f.Valid() && |f.rows| > 0
  {
    var row := f.rows[0];
    var n := |f.labels| as real;
    (if TextCount(row) as real > n * TextShare then 3 else 0)
    + KeywordCount(lib, f.dtypes, row)
    + (if NumericCount(row) == 0 then 2 else 0)
    + (if GenericCount(lib, f.labels) as real > n * GenericShare then 2 else 0)
  }

  predicate Promotes(lib: Lib, f: Frame)
    requires f.Valid()
  {
    |f.rows| > 0 && HeaderScore(lib, f) >= PromotionScore
  }

  /** Scores row 0 the way the source does: one pass over its cells
      counting text, keyword and numeric cells, one pass over the labels
      counting generic ones. */
  method ScoreHeaderRow(lib: Lib, f: Frame) returns (score: nat)
    requires f.Valid() && |f.rows| > 0
    ensures score == HeaderScore(lib, f)
  {
    var text, keywords, numeric := CountRowKinds(lib, f.dtypes, f.rows[0]);
    var generic := CountGenericLabels(lib, f.labels);
    score := 0;
    if text as real > |f.labels| as real * TextShare {
      score := score + 3;
    }
    score := score + keywords;
    if numeric == 0 {
      score := score + 2;
    }
    if generic as real > |f.labels| as real * GenericShare {
      score := score + 2;
    }
  }

  /** The pass over row 0: text cells, keyword cells and numeric cells. */
  method CountRowKinds(lib: Lib, dtypes: seq<Dtype>, row: seq<Cell>) returns (text: nat, keywords: nat, numeric: nat)
    requires |dtypes| == |row|
    ensures text == TextCount(row) && keywords == KeywordCount(lib, dtypes, row) && numeric == NumericCount(row)
  {
    text, keywords, numeric := 0, 0, 0;
    var j := 0;
    while j < |row|
      invariant 0 <= j <= |row|
      invariant text == TextCount(row[..j])
      invariant keywords == KeywordCount(lib, dtypes[..j], row[..j])
      invariant numeric == NumericCount(row[..j])
    {
      assert row[..j + 1][..j] == row[..j];
      assert dtypes[..j + 1][..j] == dtypes[..j];
      if IsTextValue(row[j]) {
        text := text + 1;
      }
      if HasKeyword(lib, dtypes[j], row[j]) {
        keywords := keywords + 1;
      }
      if IsNumericValue(row[j]) {
        numeric := numeric + 1;
      }
      j := j + 1;
    }
    assert row[..j] == row && dtypes[..j] == dtypes;
  }

  /** The pass over the labels counting generic ones. */
  method CountGenericLabels(lib: Lib, labels: seq<Cell>) returns (generic: nat)
    ensures generic == GenericCount(lib, labels)
  {
    generic := 0;
    var k := 0;
    while k < |labels|
      invariant 0 <= k <= |labels|
      invariant generic == GenericCount(lib, labels[..k])
    {
      assert labels[..k + 1][..k] == labels[..k];
      if GenericLabel(lib, labels[k]) {
        generic := generic + 1;
      }
      k := k + 1;
    }
    assert labels[..k] == labels;
  }

  /** The characters a promoted label may keep. */
  predicate AllowedLabelChar(lib: Lib, c: char)
  {
    IsAlnum(lib, c) || c == '_' || c == ' ' || c == '-'
  }

  /** CR and LF become spaces; any other character outside the allowed set
      becomes '_'. */
  function LabelChar(lib: Lib, c: char): (r: char)
    ensures AllowedLabelChar(lib, r)
  {
    if c == '\n' || c == '\r' then ' '
    else if AllowedLabelChar(lib, c) then c
    else '_'
  }

  function ColumnName(i: nat): (r: string)
    ensures forall k :: 0 <= k < |r| ==> IsAsciiAlnum(r[k]) || r[k] == '_'
  {
    "Column_" + NatToString(i + 1)
  }

  /** The label made from the row-0 cell of column i. */
  function SanitizeLabel(lib: Lib, i: nat, d: Dtype, c: Cell): string
  {
    var t := Strip(Render(lib, d, c));
    if c.Null? || t == [] then ColumnName(i)
    else
      var u := seq(|t|, k requires 0 <= k < |t| => LabelChar(lib, t[k]));
      u[..Min(MaxLabelLength, |u|)]
  }

  /** A sanitised label is never blank, holds only allowed characters and
      is at most 50 characters long unless it is a `Column_{i+1}` name. */
  lemma SanitizeLabelSpec(lib: Lib, i: nat, d: Dtype, c: Cell)
    ensures var r := SanitizeLabel(lib, i, d, c);
            r != [] && !IsSpace(r[0])
            && (forall k :: 0 <= k < |r| ==> AllowedLabelChar(lib, r[k]))
            && (|r| <= MaxLabelLength || r == ColumnName(i))
  {
    var t := Strip(Render(lib, d, c));
    StripSpec(Render(lib, d, c));
    var r := SanitizeLabel(lib, i, d, c);
    if c.Null? || t == [] {
      assert r[0] == 'C';
    } else {
      assert r[0] == LabelChar(lib, t[0]);
    }
  }

  function SanitizedLabels(lib: Lib, f: Frame): (ls: seq<string>)
    requires f.Valid() && |f.rows| > 0
    ensures |ls| == |f.labels|
  {
    seq(|f.labels|, i requires 0 <= i < |f.labels| => SanitizeLabel(lib, i, f.dtypes[i], f.rows[0][i]))
  }

  /** The j-th name tried for h: h itself, then h_1, h_2, ... */
  function Candidate(h: string, j: nat): string
  {
    if j == 0 then h else h + "_" + NatToString(j)
  }

  function Pow10(m: nat): (p: nat)
    ensures p >= 1
  {
    if m == 0 then 1 else 10 * Pow10(m - 1)
  }

  function MaxLength(taken: seq<string>): (m: nat)
    ensures forall k :: 0 <= k < |taken| ==> |taken[k]| <= m
  {
    if taken == [] then 0
    else
      var rest := MaxLength(taken[..|taken| - 1]);
      assert forall k :: 0 <= k < |taken| - 1 ==> taken[k] == taken[..|taken| - 1][k];
      if |taken[|taken| - 1]| > rest then |taken[|taken| - 1]| else rest
  }

  /** A number at least 10^m has more than m decimal digits. */
  lemma {:induction false} LongDigits(j: nat, m: nat)
    requires j >= Pow10(m)
    ensures |NatToString(j)| > m
  {
    if m > 0 {
      LongDigits(j / 10, m - 1);
    }
  }

  /** Only finitely many candidates can be taken: every taken candidate has
      an index below 10^(longest taken name). */
  lemma CandidateBound(taken: seq<string>, h: string, j: nat)
    requires Candidate(h, j) in taken
    ensures j < Pow10(MaxLength(taken))
  {
    if j >= Pow10(MaxLength(taken)) {
      LongDigits(j, MaxLength(taken));
      assert false;
    }
  }

  /** The first candidate from index j on that is not taken. */
  function FreeFrom(taken: seq<string>, h: string, j: nat): (r: string)
    ensures r !in taken
    ensures StartsWith(r, h)
    decreases Pow10(MaxLength(taken)) - j
  {
    if Candidate(h, j) !in taken then Candidate(h, j)
    else
      CandidateBound(taken, h, j);
      FreeFrom(taken, h, j + 1)
  }

  /** The name the de-duplication loop settles on for h. */
  function Fresh(taken: seq<string>, h: string): string
  {
    FreeFrom(taken, h, 0)
  }

  /** The promoted labels after de-duplication, each checked against the
      ones already settled. */
  function Dedup(names: seq<string>): (r: seq<string>)
    ensures |r| == |names|
    ensures Distinct(r)
    ensures forall i :: 0 <= i < |r| ==> StartsWith(r[i], names[i])
  {
    if names == [] then []
    else
      var prev := Dedup(names[..|names| - 1]);
      prev + [Fresh(prev, names[|names| - 1])]
  }

  /** Labels that are already distinct come through unchanged. */
  lemma {:induction false} DedupDistinct(names: seq<string>)
    requires Distinct(names)
    ensures Dedup(names) == names
  {
    if names != [] {
      var init := names[..|names| - 1];
      DedupDistinct(init);
      assert names[|names| - 1] !in init;
      assert names == init + [names[|names| - 1]];
    }
  }

  /** The "Ensure unique headers" loop: for each header, try h, h_1, h_2, ...
      until one is not among the headers kept so far. */
  method UniqueHeaders(names: seq<string>) returns (final: seq<string>)
    ensures final == Dedup(names)
  {
    final := [];
    var i := 0;
    while i < |names|
      invariant 0 <= i <= |names|
      invariant final == Dedup(names[..i])
    {
      var unique := FreshHeader(final, names[i]);
      assert names[..i + 1][..i] == names[..i];
      final := final + [unique];
      i := i + 1;
    }
    assert names[..i] == names;
  }

  /** The inner `while unique_header in final_headers` loop for one header. */
  method FreshHeader(final: seq<string>, header: string) returns (unique: string)
    ensures unique == Fresh(final, header)
  {
    var count := 1;
    unique := header;
    while unique in final
      invariant count >= 1
      invariant unique == Candidate(header, count - 1)
      invariant FreeFrom(final, header, count - 1) == Fresh(final, header)
      decreases Pow10(MaxLength(final)) - (count - 1)
    {
      CandidateBound(final, header, count - 1);
      unique := header + "_" + NatToString(count);
      count := count + 1;
    }
  }

  /** Row 0 becomes the labels and is removed from the data. */
  function Promote(lib: Lib, f: Frame): (g: Frame)
    requires f.Valid() && |f.rows| > 0
    ensures g.Valid() && |g.labels| == |f.labels|
  {
    var ls := Dedup(SanitizedLabels(lib, f));
    Frame(seq(|ls|, i requires 0 <= i < |ls| => Str(ls[i])), f.dtypes, f.rows[1..])
  }

  /** Strategy 2 renames a label that starts with "Unnamed", is blank or is null. */
  predicate NeedsName(lib: Lib, l: Cell)
  {
    StartsWith(LabelText(lib, l), "Unnamed") || Strip(LabelText(lib, l)) == [] || l.Null?
  }

  /** The name strategy 2 gives column i, from the first non-null value among
      its first five cells. */
  function InferredName(lib: Lib, f: Frame, i: nat): string
    requires f.Valid() && i < |f.labels|
  {
    var n := NatToString(i + 1);
    if |f.rows| == 0 then ColumnName(i)
    else
      var sample := NonNull(f.Column(i)[..Min(SampleRows, |f.rows|)]);
      if sample == [] then ColumnName(i)
      else
        var v := Lower(Render(lib, f.dtypes[i], sample[0]));
        if ContainsAny(v, ["id", "identifier"]) then "ID_Column_" + n
        else if ContainsAny(v, ["date", "time"]) then "Date_Column_" + n
        else if ContainsAny(v, ["name", "title"]) then "Name_Column_" + n
        else if ContainsAny(v, ["price", "cost", "amount", "total"]) then "Amount_Column_" + n
        else "Data_Column_" + n
  }

  function FinalLabel(lib: Lib, f: Frame, i: nat): string
    requires f.Valid() && i < |f.labels|
  {
    if NeedsName(lib, f.labels[i]) then InferredName(lib, f, i) else LabelText(lib, f.labels[i])
  }

  function RenameGeneric(lib: Lib, f: Frame): (g: Frame)
    requires f.Valid()
    ensures g.Valid() && |g.labels| == |f.labels| && g.rows == f.rows && g.dtypes == f.dtypes
  {
    Frame(seq(|f.labels|, i requires 0 <= i < |f.labels| => Str(FinalLabel(lib, f, i))), f.dtypes, f.rows)
  }

  /** The whole of header reconciliation. The exception fallback of the
      source cannot be reached here: every step is total on a valid frame. */
  function FixHeaders(lib: Lib, f: Frame): (g: Frame)
    requires f.Valid()
    ensures g.Valid() && |g.labels| == |f.labels| && g.dtypes == f.dtypes
  {
    RenameGeneric(lib, if Promotes(lib, f) then Promote(lib, f) else f)
  }

  /** `_detect_and_fix_headers_enhanced`: score, maybe promote (building the
      sanitised list and de-duplicating it), then build the final labels
      one column at a time. */
  method DetectAndFixHeaders(lib: Lib, f: Frame) returns (g: Frame)
    requires f.Valid()
    ensures g == FixHeaders(lib, f)
  {
    g := f;
    if |f.rows| > 0 {
      var score := ScoreHeaderRow(lib, f);
      if score >= PromotionScore {
        g := PromoteHeaderRow(lib, f);
      }
    }
    assert g == (if Promotes(lib, f) then Promote(lib, f) else f);
    var finalColumns := FinalColumns(lib, g);
    g := Frame(finalColumns, g.dtypes, g.rows);
  }

  /** Strategy 1's promotion: sanitise row 0 cell by cell, de-duplicate,
      and drop the row. */
  method PromoteHeaderRow(lib: Lib, f: Frame) returns (p: Frame)
    requires f.Valid() && |f.rows| > 0
    ensures p == Promote(lib, f)
  {
    var newHeaders: seq<string> := [];
    var i := 0;
    while i < |f.labels|
      invariant 0 <= i <= |f.labels|
      invariant newHeaders == SanitizedLabels(lib, f)[..i]
    {
      newHeaders := newHeaders + [SanitizeLabel(lib, i, f.dtypes[i], f.rows[0][i])];
      i := i + 1;
    }
    assert newHeaders == SanitizedLabels(lib, f);
    var finalHeaders := UniqueHeaders(newHeaders);
    p := Frame(seq(|finalHeaders|, k requires 0 <= k < |finalHeaders| => Str(finalHeaders[k])), f.dtypes, f.rows[1..]);
  }

  /** Strategy 2's loop: the final label of each column, left to right. */
  method FinalColumns(lib: Lib, g: Frame) returns (finalColumns: seq<Cell>)
    requires g.Valid()
    ensures finalColumns == RenameGeneric(lib, g).labels
  {
    ghost var target := RenameGeneric(lib, g).labels;
    finalColumns := [];
    var i := 0;
    while i < |g.labels|
      invariant 0 <= i <= |g.labels|
      invariant |finalColumns| == i
      invariant forall k :: 0 <= k < i ==> finalColumns[k] == target[k]
    {
      finalColumns := finalColumns + [Str(FinalLabel(lib, g, i))];
      i := i + 1;
    }
  }

  /** Promotion removes exactly row 0 and keeps the others in order; without
      promotion no row is removed. */
  lemma RowsAfterHeaders(lib: Lib, f: Frame)
    requires f.Valid()
    ensures Promotes(lib, f) ==> (FixHeaders(lib, f).rows == f.rows[1..]
                                  && |FixHeaders(lib, f).rows| == |f.rows| - 1)
    ensures !Promotes(lib, f) ==> FixHeaders(lib, f).rows == f.rows
  {
  }

  /** The promoted labels are pairwise distinct, one per column, and each
      begins with the sanitised text of its row-0 cell; strategy 2 keeps
      every promoted label that does not start with "Unnamed". */
  lemma PromotedLabels(lib: Lib, f: Frame)
    requires f.Valid() && Promotes(lib, f)
    ensures var p := Promote(lib, f);
            |p.labels| == |f.labels| && Distinct(p.labels)
            && (forall i :: 0 <= i < |p.labels| ==>
                  p.labels[i].Str? && StartsWith(p.labels[i].s, SanitizedLabels(lib, f)[i]))
    ensures var p := Promote(lib, f);
            forall i :: 0 <= i < |p.labels| && !StartsWith(p.labels[i].s, "Unnamed") ==>
              FixHeaders(lib, f).labels[i] == p.labels[i]
  {
    var p := Promote(lib, f);
    var ls := Dedup(SanitizedLabels(lib, f));
    forall i, j | 0 <= i < j < |p.labels| ensures p.labels[i] != p.labels[j] {
      assert ls[i] != ls[j];
    }
    forall i | 0 <= i < |p.labels| && !StartsWith(p.labels[i].s, "Unnamed")
      ensures FixHeaders(lib, f).labels[i] == p.labels[i]
    {
      var sl := SanitizedLabels(lib, f)[i];
      SanitizeLabelSpec(lib, i, f.dtypes[i], f.rows[0][i]);
      assert ls[i][0] == sl[0];
      StripNonBlank(ls[i]);
      assert !NeedsName(lib, p.labels[i]);
    }
  }

  /** Every label after reconciliation is a string that is not blank. */
  lemma FinalLabelsNamed(lib: Lib, f: Frame)
    requires f.Valid()
    ensures forall i :: 0 <= i < |f.labels| ==>
              FixHeaders(lib, f).labels[i].Str? && Strip(FixHeaders(lib, f).labels[i].s) != []
  {
    var g := if Promotes(lib, f) then Promote(lib, f) else f;
    forall i | 0 <= i < |f.labels|
      ensures Strip(FinalLabel(lib, g, i)) != []
    {
      if NeedsName(lib, g.labels[i]) {
        InferredNameNonBlank(lib, g, i);
      }
    }
  }

  lemma InferredNameNonBlank(lib: Lib, f: Frame, i: nat)
    requires f.Valid() && i < |f.labels|
    ensures Strip(InferredName(lib, f, i)) != []
  {
    var r := InferredName(lib, f, i);
    var n := NatToString(i + 1);
    assert r == ColumnName(i) || r == "ID_Column_" + n || r == "Date_Column_" + n
           || r == "Name_Column_" + n || r == "Amount_Column_" + n || r == "Data_Column_" + n;
    assert r[0] in {'C', 'I', 'D', 'N', 'A'};
    StripNonBlank(r);
  }

  lemma {:induction false} TextCountAll(row: seq<Cell>)
    requires forall k :: 0 <= k < |row| ==> IsTextValue(row[k])
    ensures TextCount(row) == |row| && NumericCount(row) == 0
  {
    if row != [] {
      TextCountAll(row[..|row| - 1]);
    }
  }

  /** A first row made only of non-empty strings always scores at least
      3 + 2 and is promoted, whatever the labels are. */
  lemma TextRowPromoted(lib: Lib, f: Frame)
    requires f.Valid() && |f.rows| > 0 && |f.labels| > 0
    requires forall k :: 0 <= k < |f.labels| ==> IsTextValue(f.rows[0][k])
    ensures Promotes(lib, f)
  {
    TextCountAll(f.rows[0]);
  }

  /** Header reconciliation is not idempotent: when the first two rows are
      both all text, running it on its own output promotes the next row
      too and loses a data row. */
  lemma NotIdempotent(lib: Lib, f: Frame)
    requires f.Valid() && |f.rows| >= 2 && |f.labels| > 0
    requires forall k :: 0 <= k < |f.labels| ==> IsTextValue(f.rows[0][k]) && IsTextValue(f.rows[1][k])
    ensures FixHeaders(lib, FixHeaders(lib, f)).rows == f.rows[2..]
    ensures FixHeaders(lib, FixHeaders(lib, f)) != FixHeaders(lib, f)
  {
    TextRowPromoted(lib, f);
    var g := FixHeaders(lib, f);
    assert g.rows == f.rows[1..];
    assert g.rows[0] == f.rows[1];
    TextRowPromoted(lib, g);
  }

  /** A stripped value of at most 50 characters, all of them allowed, is
      promoted as it is. */
  lemma CleanLabelKept(lib: Lib, i: nat, d: Dtype, s: string)
    requires CleanText(s)
    ensures SanitizeLabel(lib, i, d, Str(s)) == s
  {
    StripOfStripped(s);
    var u := seq(|s|, k requires 0 <= k < |s| => LabelChar(lib, s[k]));
    assert u == s;
  }

  lemma {:induction false} ShortNotContained(s: string, p: string)
    requires |s| < |p|
    ensures !Contains(s, p)
  {
    if s != [] {
      ShortNotContained(s[1..], p);
    }
  }

  /** A label character the sanitiser keeps as it is. */
  predicate PlainLabelChar(c: char)
  {
    IsAsciiAlnum(c) || c == '_' || c == ' ' || c == '-'
  }

  /** A text the sanitiser leaves alone. */
  predicate CleanText(s: string)
  {
    s != [] && Stripped(s) && |s| <= MaxLabelLength && forall k :: 0 <= k < |s| ==> PlainLabelChar(s[k])
  }

  /** A header text the sanitiser and strategy 2 leave alone. */
  predicate PlainHeader(s: string)
  {
    CleanText(s) && !StartsWith(s, "Unnamed")
  }

  /** A first row of distinct plain header texts that is promoted becomes
      exactly the labels, and the data starts at the former row 1. */
  lemma PlainHeaderRowPromoted(lib: Lib, f: Frame, names: seq<string>)
    requires f.Valid() && Promotes(lib, f) && |names| == |f.labels|
    requires forall i :: 0 <= i < |names| ==> f.rows[0][i] == Str(names[i]) && PlainHeader(names[i])
    requires Distinct(names)
    ensures |FixHeaders(lib, f).labels| == |names|
    ensures forall i :: 0 <= i < |names| ==> FixHeaders(lib, f).labels[i] == Str(names[i])
    ensures FixHeaders(lib, f).rows == f.rows[1..]
  {
    CleanRowPromoted(lib, f, names);
    var p := Promote(lib, f);
    forall i | 0 <= i < |names| ensures FinalLabel(lib, p, i) == names[i] {
      StripNonBlank(names[i]);
    }
  }

  /** Distinct clean texts in row 0 are promoted verbatim. */
  lemma CleanRowPromoted(lib: Lib, f: Frame, names: seq<string>)
    requires f.Valid() && |f.rows| > 0 && |names| == |f.labels|
    requires forall i :: 0 <= i < |names| ==> f.rows[0][i] == Str(names[i]) && CleanText(names[i])
    requires Distinct(names)
    ensures Promote(lib, f).labels == seq(|names|, i requires 0 <= i < |names| => Str(names[i]))
    ensures Promote(lib, f).rows == f.rows[1..]
  {
    forall i | 0 <= i < |names| ensures SanitizedLabels(lib, f)[i] == names[i] {
      CleanLabelKept(lib, i, f.dtypes[i], names[i]);
    }
    assert SanitizedLabels(lib, f) == names;
    DedupDistinct(names);
  }

  /** The example of the accuracy tests: whatever the labels and the
      later rows, a first row "Product_ID", "Product Name", "Sales_Amount",
      "Date_Sold", "Is_Premium" becomes exactly the labels. */
  lemma ProductHeaderExample(lib: Lib, f: Frame)
    requires f.Valid() && |f.rows| > 0
    requires f.rows[0] == [Str("Product_ID"), Str("Product Name"), Str("Sales_Amount"), Str("Date_Sold"), Str("Is_Premium")]
    ensures FixHeaders(lib, f).labels
            == [Str("Product_ID"), Str("Product Name"), Str("Sales_Amount"), Str("Date_Sold"), Str("Is_Premium")]
    ensures FixHeaders(lib, f).rows == f.rows[1..]
  {
    var names := ProductNames();
    ProductNamesPlain();
    assert f.rows[0] == seq(5, i requires 0 <= i < 5 => Str(names[i]));
    TextRowPromoted(lib, f);
    PlainHeaderRowPromoted(lib, f, names);
  }

  function ProductNames(): seq<string>
  {
    ["Product_ID", "Product Name", "Sales_Amount", "Date_Sold", "Is_Premium"]
  }

  lemma ProductNamesPlain()
    ensures |ProductNames()| == 5 && Distinct(ProductNames())
    ensures forall i :: 0 <= i < 5 ==> PlainHeader(ProductNames()[i])
  {
    ProductNamesDistinct();
    PlainHeaderIntro("Product_ID");
    PlainHeaderIntro("Product Name");
    PlainHeaderIntro("Sales_Amount");
    PlainHeaderIntro("Date_Sold");
    PlainHeaderIntro("Is_Premium");
  }

  /** A short text of label characters that starts with a letter other
      than 'U' and ends in a letter or digit is a plain header. */
  lemma PlainHeaderIntro(s: string)
    requires 0 < |s| <= MaxLabelLength
    requires IsAsciiAlnum(s[0]) && s[0] != 'U' && IsAsciiAlnum(s[|s| - 1])
    requires forall k :: 0 <= k < |s| ==> PlainLabelChar(s[k])
    ensures PlainHeader(s)
  {
    assert !StartsWith(s, "Unnamed") by {
      assert "Unnamed"[0] == 'U';
    }
  }

  lemma ProductNamesDistinct()
    ensures Distinct(ProductNames())
  {
    var ns := ProductNames();
    assert ns[0][7] != ns[1][7];
    assert ns[0][0] != ns[4][0] && ns[1][0] != ns[2][0];
  }

  lemma NoKeywordInX()
    ensures !ContainsAny("x", ["id", "identifier"]) && !ContainsAny("x", ["date", "time"])
    ensures !ContainsAny("x", ["name", "title"]) && !ContainsAny("x", ["price", "cost", "amount", "total"])
  {
    ShortNotContained("x", "id");
    ShortNotContained("x", "identifier");
    ShortNotContained("x", "date");
    ShortNotContained("x", "time");
    ShortNotContained("x", "name");
    ShortNotContained("x", "title");
    ShortNotContained("x", "price");
    ShortNotContained("x", "cost");
    ShortNotContained("x", "amount");
    ShortNotContained("x", "total");
  }

  function CollisionNames(): seq<string>
  {
    ["Unnamed", "Data_Column_1"]
  }

  lemma CollisionNamesClean()
    ensures |CollisionNames()| == 2 && Distinct(CollisionNames())
    ensures forall i :: 0 <= i < 2 ==> CleanText(CollisionNames()[i])
  {
    assert CleanText("Unnamed");
    assert CleanText("Data_Column_1");
  }

  lemma CollisionPromoted(lib: Lib, f: Frame)
    requires f.Valid() && |f.labels| == 2 && |f.rows| == 2
    requires f.rows[0] == [Str("Unnamed"), Str("Data_Column_1")]
    ensures Promote(lib, f).labels == [Str("Unnamed"), Str("Data_Column_1")]
    ensures Promote(lib, f).rows == [f.rows[1]]
  {
    var names := CollisionNames();
    CollisionNamesClean();
    assert f.rows[0] == seq(2, i requires 0 <= i < 2 => Str(names[i]));
    CleanRowPromoted(lib, f, names);
  }

  lemma CollisionRenamed(lib: Lib, p: Frame)
    requires p.Valid()
    requires p.labels == [Str("Unnamed"), Str("Data_Column_1")] && p.rows == [[Str("x"), Str("y")]]
    ensures RenameGeneric(lib, p).labels == [Str("Data_Column_1"), Str("Data_Column_1")]
  {
    assert StartsWith("Unnamed", "Unnamed");
    assert "Data_Column_" + NatToString(1) == "Data_Column_1";
    assert "Data_Column_1"[0] != "Unnamed"[0];
    assert p.Column(0) == [Str("x")];
    assert p.Column(0)[..Min(SampleRows, |p.rows|)] == [Str("x")];
    assert NonNull([Str("x")]) == [Str("x")];
    assert Lower("x") == "x";
    NoKeywordInX();
    assert InferredName(lib, p, 0) == "Data_Column_1";
    StripNonBlank("Data_Column_1");
    assert FinalLabel(lib, p, 1) == "Data_Column_1";
  }

  /** Strategy 2 can give a promoted column the name another promoted
      column already has, so the final labels are not always distinct:
      row 0 "Unnamed", "Data_Column_1" above a row "x", "y" ends with both
      columns named "Data_Column_1". */
  lemma RenamedLabelsCanCollide(lib: Lib, f: Frame)
    requires f.Valid() && |f.labels| == 2 && |f.rows| == 2
    requires f.rows[0] == [Str("Unnamed"), Str("Data_Column_1")]
    requires f.rows[1] == [Str("x"), Str("y")]
    ensures FixHeaders(lib, f).labels == [Str("Data_Column_1"), Str("Data_Column_1")]
    ensures !Distinct(FixHeaders(lib, f).labels)
  {
    CollisionPromotes(lib, f);
    CollisionPromoted(lib, f);
    var p := Promote(lib, f);
    CollisionRenamed(lib, p);
    var l := FixHeaders(lib, f).labels;
    assert l[0] == l[1];
  }

  lemma CollisionPromotes(lib: Lib, f: Frame)
    requires f.Valid() && |f.labels| == 2 && |f.rows| == 2
    requires f.rows[0] == [Str("Unnamed"), Str("Data_Column_1")]
    ensures FixHeaders(lib, f) == RenameGeneric(lib, Promote(lib, f))
  {
    assert IsTextValue(f.rows[0][0]) && IsTextValue(f.rows[0][1]);
    TextRowPromoted(lib, f);
  }
}
