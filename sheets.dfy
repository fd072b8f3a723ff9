/** Google Sheets source handling: pulling the spreadsheet ID out of a URL
    (GoogleSheetsReader.extract_sheet_id) and sending a source to the Google
    or the Excel reader (UnifiedDataReader). The regular expressions are
    written out as the searches they perform. */
module Sheets {
  import opened Wrappers
  import opened Text

  /** The class `[a-zA-Z0-9-_]`. */
  predicate IdChar(c: char)
  {
    IsAsciiAlnum(c) || c == '-' || c == '_'
  }

  predicate AllIdChars(s: string)
  {
    forall k :: 0 <= k < |s| ==> IdChar(s[k])
  }

  /** The greedy `[a-zA-Z0-9-_]+` run at the start of s (empty when none). */
  function Run(s: string): (r: string)
    ensures |r| <= |s| && AllIdChars(r)
  {
    if s != [] && IdChar(s[0]) then [s[0]] + Run(s[1..]) else []
  }

  /** `re.search(marker + '([a-zA-Z0-9-_]+)', s).group(1)`: the run after
      the leftmost occurrence of the marker that is followed by one. */
  function Search(s: string, marker: string): (r: Option<string>)
    ensures r.Some? ==> r.value != [] && AllIdChars(r.value)
    decreases |s|
  {
    if StartsWith(s, marker) && Run(s[|marker|..]) != [] then Some(Run(s[|marker|..]))
    else if s == [] then None
    else Search(s[1..], marker)
  }

  const SheetMarker: string := "/spreadsheets/d/"
  const DocsHost: string := "docs.google.com"
  const DocsMarker: string := DocsHost + SheetMarker

  /** `re.match(r'^[a-zA-Z0-9-_]+$', s)` (and with `{20,}` for min = 20):
      Python's `$` also matches before one final newline. */
  predicate WholeId(s: string, min: nat)
  {
    var body := if s != [] && s[|s| - 1] == '\n' then s[..|s| - 1] else s;
    |body| >= min && |body| > 0 && AllIdChars(body)
  }

  /** `extract_sheet_id`: the two URL patterns in order, then the bare ID. */
  function ExtractSheetId(url: string): Option<string>
  {
    var first := Search(url, SheetMarker);
    if first.Some? then first
    else
      var second := Search(url, DocsMarker);
      if second.Some? then second
      else if WholeId(url, 1) then Some(url)
      else None
  }

  /** Search finds a match at every position that has one or earlier. */
  lemma {:induction false} SearchFinds(s: string, marker: string, i: nat)
    requires i <= |s| && StartsWith(s[i..], marker) && Run(s[i + |marker|..]) != []
    ensures Search(s, marker).Some?
    decreases i
  {
    if i > 0 && !(StartsWith(s, marker) && Run(s[|marker|..]) != []) {
      assert s[1..][i - 1..] == s[i..];
      SearchFinds(s[1..], marker, i - 1);
    }
  }

  /** Where the second pattern matches, so does the first. */
  lemma {:induction false} DocsMatchHasSheetMatch(s: string)
    requires Search(s, DocsMarker).Some?
    ensures Search(s, SheetMarker).Some?
    decreases |s|
  {
    if StartsWith(s, DocsMarker) && Run(s[|DocsMarker|..]) != [] {
      var h := |DocsHost|;
      assert s[h..][..|SheetMarker|] == s[..|DocsMarker|][h..];
      assert s[h..][|SheetMarker|..] == s[|DocsMarker|..];
      SearchFinds(s, SheetMarker, h);
    } else {
      DocsMatchHasSheetMatch(s[1..]);
      if !(StartsWith(s, SheetMarker) && Run(s[|SheetMarker|..]) != []) {
        assert Search(s, SheetMarker) == Search(s[1..], SheetMarker);
      }
    }
  }

  /** The second pattern never decides: the result is the first pattern's
      match, else the whole input when it is an ID, else nothing. */
  lemma SecondPatternRedundant(url: string)
    ensures ExtractSheetId(url) ==
              if Search(url, SheetMarker).Some? then Search(url, SheetMarker)
              else if WholeId(url, 1) then Some(url) else None
  {
    if Search(url, DocsMarker).Some? {
      DocsMatchHasSheetMatch(url);
    }
  }

  /** The run stops at the first character outside the class. */
  lemma {:induction false} RunStops(id: string, rest: string)
    requires AllIdChars(id) && (rest == [] || !IdChar(rest[0]))
    ensures Run(id + rest) == id
  {
    if id != [] {
      assert (id + rest)[1..] == id[1..] + rest;
      RunStops(id[1..], rest);
    } else {
      assert id + rest == rest;
    }
  }

  /** Before position k of s there is no '/' followed by an 's'. */
  predicate NoSlashS(s: string, k: nat)
    requires k < |s|
  {
    forall i :: 0 <= i < k ==> s[i] != '/' || s[i + 1] != 's'
  }

  /** A search skips a prefix in which the marker cannot start. */
  lemma {:induction false} SearchSkips(s: string, k: nat)
    requires k < |s| && NoSlashS(s, k)
    ensures Search(s, SheetMarker) == Search(s[k..], SheetMarker)
    decreases k
  {
    if k > 0 {
      assert !StartsWith(s, SheetMarker) by {
        assert s[0] != '/' || s[1] != 's';
      }
      assert s[1..][k - 1..] == s[k..];
      SearchSkips(s[1..], k - 1);
    }
  }

  const UrlHead: string := "https://docs.google.com"

  lemma UrlHeadClean(rest: string)
    requires rest != [] && rest[0] == '/'
    ensures NoSlashS(UrlHead + rest, |UrlHead|)
  {
    var s := UrlHead + rest;
    forall i | 0 <= i < |UrlHead|
      ensures s[i] != '/' || s[i + 1] != 's'
    {
      if i < |UrlHead| - 1 {
        assert s[i] == UrlHead[i] && s[i + 1] == UrlHead[i + 1];
      }
    }
  }

  /** Round trip: the ID placed in an edit link is what comes back out. */
  lemma ExtractFromEditLink(id: string)
    requires id != [] && AllIdChars(id)
    ensures ExtractSheetId(UrlHead + SheetMarker + id + "/edit") == Some(id)
  {
    var tail := SheetMarker + id + "/edit";
    var s := UrlHead + tail;
    assert s == UrlHead + SheetMarker + id + "/edit";
    UrlHeadClean(tail);
    SearchSkips(s, |UrlHead|);
    assert s[|UrlHead|..] == tail;
    assert tail[|SheetMarker|..] == id + "/edit";
    RunStops(id, "/edit");
  }

  /** A string with no '/' does not contain the marker. */
  lemma {:induction false} NoSlashNoMatch(s: string)
    requires '/' !in s
    ensures Search(s, SheetMarker).None? && Search(s, DocsMarker).None?
    decreases |s|
  {
    if s != [] {
      NoSlashNoMatch(s[1..]);
      assert s[0] != '/' && SheetMarker[0] == '/';
      assert |s| <= 15 || s[15] != '/';
      assert DocsMarker[15] == '/';
    }
  }

  /** The ID class holds no '/', '.' or newline. */
  lemma IdCharsExclude(s: string)
    requires AllIdChars(s)
    ensures '/' !in s && '.' !in s && '\n' !in s
  {
    forall k | 0 <= k < |s|
      ensures s[k] != '/' && s[k] != '.' && s[k] != '\n'
    {
      assert IdChar(s[k]);
    }
  }

  /** A whole-ID match holds no '/'. */
  lemma WholeIdNoSlash(s: string, min: nat)
    requires WholeId(s, min)
    ensures '/' !in s
  {
    if s[|s| - 1] == '\n' {
      var body := s[..|s| - 1];
      IdCharsExclude(body);
      assert s == body + ['\n'];
    } else {
      IdCharsExclude(s);
    }
  }

  /** Idempotence: an extracted ID is its own ID. */
  lemma ExtractIdempotent(url: string)
    requires ExtractSheetId(url).Some?
    ensures ExtractSheetId(ExtractSheetId(url).value) == ExtractSheetId(url)
  {
    var r := ExtractSheetId(url).value;
    if Search(url, SheetMarker).Some? || Search(url, DocsMarker).Some? {
      assert AllIdChars(r);
      IdCharsExclude(r);
      assert r[|r| - 1] != '\n';
    } else {
      assert r == url && WholeId(url, 1);
      WholeIdNoSlash(url, 1);
    }
    NoSlashNoMatch(r);
  }

  /** Python's `$` lets a bare ID carry one final newline, which then stays
      in the returned ID. */
  lemma TrailingNewlineKept(id: string)
    requires id != [] && AllIdChars(id)
    ensures ExtractSheetId(id + "\n") == Some(id + "\n")
  {
    var s := id + "\n";
    assert s[..|s| - 1] == id;
    IdCharsExclude(id);
    assert '/' !in s by {
      assert forall k :: 0 <= k < |s| ==> s[k] != '/' by {
        forall k | 0 <= k < |s| ensures s[k] != '/' {
          if k < |id| {
            assert s[k] == id[k];
          }
        }
      }
    }
    NoSlashNoMatch(s);
  }

  // ---------------------------------------------------------------------
  // UnifiedDataReader

  const GooglePatterns: seq<string> := ["docs.google.com/spreadsheets", "drive.google.com", "/spreadsheets/d/"]

  /** `_is_google_sheets_url`: a Google address, or an ID of 20 or more characters. */
  predicate IsGoogleSheetsSource(source: string)
  {
    ContainsAny(source, GooglePatterns) || WholeId(source, 20)
  }

  datatype Reader = GoogleReader | ExcelReader

  /** The reader `read_data`, `get_source_info` and `validate_source` use. */
  function Route(source: string): (r: Reader)
  {
    if IsGoogleSheetsSource(source) then GoogleReader else ExcelReader
  }

  /** A source holding an edit-link path, or a long bare ID, goes to the
      Google reader. */
  lemma GoogleSourcesRouted(source: string)
    ensures Contains(source, SheetMarker) ==> Route(source) == GoogleReader
    ensures |source| >= 20 && AllIdChars(source) ==> Route(source) == GoogleReader
  {
    if Contains(source, SheetMarker) {
      assert Contains(source, GooglePatterns[2]);
    }
    if |source| >= 20 && AllIdChars(source) {
      IdCharsExclude(source);
      assert source[|source| - 1] != '\n';
    }
  }

  /** The router and the ID extraction disagree on short IDs: a bare ID of
      fewer than 20 characters is sent to the Excel reader although
      `extract_sheet_id` would accept it. */
  lemma ShortIdRoutedToExcel(id: string)
    requires 0 < |id| < 20 && AllIdChars(id)
    ensures Route(id) == ExcelReader
    ensures ExtractSheetId(id) == Some(id)
  {
    IdCharsExclude(id);
    NoSlashNoMatch(id);
    NotContainsChar(id, GooglePatterns[0], '/');
    NotContainsChar(id, GooglePatterns[1], '.');
    NotContainsChar(id, GooglePatterns[2], '/');
    assert id[|id| - 1] != '\n';
  }
}
