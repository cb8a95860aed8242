/** src/content_filter.py: the content filter with table-of-contents
    detection, visual table regions and the extended validity test. The
    table-pattern and header/footer rules are shared with the smaller
    filter (module FilterRules). Table regions and their cell matrices come
    from an external table-geometry detector and are inputs here. */
module FullFilter {
  import opened Strings
  import opened Seqs
  import opened Blocks
  import opened Patterns
  import opened Utils
  import opened FilterRules

  // ---------------------------------------------------------------------
  // Table-of-contents headings (toc_patterns / toc_heading_patterns)
  // ---------------------------------------------------------------------

  /** ^table\s+of\s+contents?$ on lower-case text */
  predicate TableOfContentsPhrase(t: string) {
    var r := (var r :- Lit(t, "table");
              var r :- Plus(r, IsSpace);
              var r :- Lit(r, "of");
              var r :- Plus(r, IsSpace);
              Lit(r, "content"));
    r == Some("") || r == Some("s")
  }

  /** ^\s*toc\s*$ */
  predicate SpacedToc(t: string) {
    match Lit(Star(t, IsSpace), "toc")
    case None => false
    case Some(r) => Star(r, IsSpace) == ""
  }

  /** ^contents?$ */
  predicate ContentsWord(t: string) { t == "content" || t == "contents" }

  /** ^index$ */
  predicate IndexWord(t: string) { t == "index" }

  const TocHeadingPatterns: seq<string -> bool> := [TableOfContentsPhrase, ContentsWord, IndexWord, SpacedToc]

  /** One of the four heading phrases, on lower-case text. */
  predicate TocPhrase(t: string) {
    AnyMatch(TocHeadingPatterns, t)
  }

  /** is_toc_heading: the stripped, lower-cased text is a heading phrase.
      The same test marks TOC pages in identify_table_of_contents. */
  predicate IsTocHeading(text: string) {
    TocPhrase(Lower(Strip(text)))
  }

  // ---------------------------------------------------------------------
  // Table-of-contents entries (toc_entry_patterns, re.IGNORECASE), all
  // applied to stripped text, where a trailing \s* matches nothing
  // ---------------------------------------------------------------------

  predicate EndsWithDigit(t: string) {
    |t| > 0 && IsDigit(t[|t| - 1])
  }

  predicate ThreeDotsAt(t: string, i: nat) {
    i + 3 <= |t| && t[i..i + 3] == "..."
  }

  /** .+\.{3,}.+\d+\s*$ */
  predicate DotLeaderEntry(t: string) {
    OneLine(t) && EndsWithDigit(t) &&
    exists i: nat :: 1 <= i && i + 5 <= |t| && ThreeDotsAt(t, i)
  }

  /** .+\s+ : some text on one line, then whitespace up to the end. */
  predicate TextThenSpaces(v: string) {
    exists k :: 1 <= k < |v| && OneLine(v[..k]) && IsBlank(v[k..])
  }

  /** .+\s+\d+\s*$ : text, whitespace, then the trailing number. */
  predicate TextSpaceNumber(t: string) {
    var n := TailRunLen(t, IsDigit);
    n > 0 && TextThenSpaces(t[..|t| - n])
  }

  /** ^\d+(\.\d+)*\s+.+\s+\d+\s*$ */
  predicate NumberedEntry(t: string) {
    match DottedNumber(t)
    case None => false
    case Some(r) => exists k :: 1 <= k <= |r| && IsBlank(r[..k]) && TextSpaceNumber(r[k..])
  }

  predicate IsDotOrSpace(c: char) { c == '.' || IsSpace(c) }

  predicate IsLeaderChar(c: char) { c == '.' || c == '-' || c == '_' || IsSpace(c) }

  predicate NoDot(s: string) { forall i :: 0 <= i < |s| ==> s[i] != '.' }

  predicate AllOf(s: string, p: char -> bool) { forall i :: 0 <= i < |s| ==> p(s[i]) }

  /** ^[^\.]+[\.\s]{2,}\d+\s*$ */
  predicate DottedGapEntry(t: string) {
    var n := TailRunLen(t, IsDigit);
    var v := t[..|t| - n];
    n > 0 && exists k :: 1 <= k && k + 2 <= |v| && NoDot(v[..k]) && AllOf(v[k..], IsDotOrSpace)
  }

  /** ^\d{1,3}\s*$ */
  predicate BarePageNumber(t: string) {
    ShortNumber(t)
  }

  /** (see\s+)?page\s+\d+ at the start of s */
  predicate PageReferenceAt(s: string) {
    PageLabel(s) ||
    match (var r :- LitCI(s, "see"); Plus(r, IsSpace))
    case None => false
    case Some(r) => PageLabel(r)
  }

  /** .*(see\s+)?page\s+\d+ */
  predicate PageReference(t: string) {
    exists i :: 0 <= i <= |t| && OneLine(t[..i]) && PageReferenceAt(t[i..])
  }

  /** ^\d+\.\d+\s+\d+\.\d+\s+\d+ */
  predicate SubsectionPair(t: string) {
    (var r :- Plus(t, IsDigit);
     var r :- Lit(r, ".");
     var r :- Plus(r, IsDigit);
     var r :- Plus(r, IsSpace);
     var r :- Plus(r, IsDigit);
     var r :- Lit(r, ".");
     var r :- Plus(r, IsDigit);
     var r :- Plus(r, IsSpace);
     Plus(r, IsDigit)).Some?
  }

  /** ^.+[\.\-_\s]{2,}\d+\s*$ */
  predicate LeaderEntry(t: string) {
    var n := TailRunLen(t, IsDigit);
    var v := t[..|t| - n];
    n > 0 && exists k :: 1 <= k && k + 2 <= |v| && OneLine(v[..k]) && AllOf(v[k..], IsLeaderChar)
  }

  predicate IsRomanChar(c: char) { IsRomanLetter(ToLower(c)) }

  /** ^[ivxlcdm]+[\.\s]+.+\s+\d+\s*$ */
  predicate RomanEntry(t: string) {
    match Plus(t, IsRomanChar)
    case None => false
    case Some(r) => exists k :: 1 <= k <= |r| && AllOf(r[..k], IsDotOrSpace) && TextSpaceNumber(r[k..])
  }

  const TocEntryPatterns: seq<string -> bool> := [
    DotLeaderEntry, TextSpaceNumber, NumberedEntry, DottedGapEntry, BarePageNumber,
    PageReference, SubsectionPair, LeaderEntry, RomanEntry]

  /** \b\d{1,3}\b found anywhere */
  predicate ShortNumberTokenAt(t: string, i: nat, n: nat) {
    1 <= n <= 3 && i + n <= |t| &&
    (i == 0 || !IsWordChar(t[i - 1])) && AllDigits(t[i..i + n]) &&
    (i + n == |t| || !IsWordChar(t[i + n]))
  }

  predicate HasShortNumberToken(t: string) {
    exists i: nat, n: nat :: i < |t| && n <= 3 && ShortNumberTokenAt(t, i, n)
  }

  /** The closing heuristic: a short number, a word of more than two
      letters, and a word of digits. */
  predicate MixedTextAndNumber(t: string) {
    var ws := Words(t);
    HasShortNumberToken(t) &&
    (exists w :: w in ws && |w| > 2 && AllAlpha(w)) &&
    (exists w :: w in ws && |w| > 0 && AllDigits(w))
  }

  /** is_toc_entry */
  predicate IsTocEntry(text: string) {
    var t := Strip(text);
    |t| >= 3 && (AnyMatch(TocEntryPatterns, t) || MixedTextAndNumber(t))
  }

  /** Stripped text shorter than three characters is never an entry. */
  lemma ShortTextIsNoTocEntry(text: string)
    requires |Strip(text)| < 3
    ensures !IsTocEntry(text)
  {
  }

  // ---------------------------------------------------------------------
  // Cell matrices: _is_valid_table_structure and its two helpers
  // ---------------------------------------------------------------------

  /** A detected table: its region and its extracted cells, row by row
      (a missing cell is the empty string; both are false in Python). */
  datatype Table = Table(bbox: BBox, cells: seq<seq<string>>)

  /** `cell and str(cell).strip()` */
  predicate NonEmptyCell(c: string) {
    Strip(c) != []
  }

  /** All cells, row after row. */
  function Flatten(rows: seq<seq<string>>): (cells: seq<string>) {
    if rows == [] then [] else Flatten(rows[..|rows| - 1]) + rows[|rows| - 1]
  }

  /** One more cell of the current row adds one to the count when it is
      non-empty. */
  lemma CellCountStep(done: seq<string>, row: seq<string>, j: nat)
    requires j < |row|
    ensures Count(done + row[..j + 1], NonEmptyCell) ==
      Count(done + row[..j], NonEmptyCell) + (if NonEmptyCell(row[j]) then 1 else 0)
  {
    assert (done + row[..j + 1])[..|done| + j] == done + row[..j];
  }

  lemma FlattenStep(rows: seq<seq<string>>, i: nat)
    requires i < |rows|
    ensures Flatten(rows[..i + 1]) == Flatten(rows[..i]) + rows[i]
  {
    assert rows[..i + 1][..i] == rows[..i];
  }

  /** The columns of the first row (`len(table_data[0])`). */
  function Columns(rows: seq<seq<string>>): nat {
    if rows == [] then 0 else |rows[0]|
  }

  /** The non-empty cells make up at least 30% of all cells (or there are
      no cells at all). */
  predicate DenseEnough(rows: seq<seq<string>>) {
    var total := |Flatten(rows)|;
    !(total > 0 && (Count(Flatten(rows), NonEmptyCell) as real) / (total as real) < 0.3)
  }

  const HeaderWords1: seq<string> :=
    ["name", "title", "description", "type", "date", "version", "status", "amount", "quantity", "id", "no"]
  const HeaderWords2: seq<string> := ["sno", "s.no", "srno", "sr.no", "item", "category", "remarks", "comments"]
  const HeaderWords3: seq<string> := ["page", "chapter", "section", "subsection"]

  /** A non-empty cell whose lower-cased, stripped text contains a word of
      one of the three header patterns (re.search). */
  predicate HeaderLikeCell(c: string) {
    var t := Strip(Lower(c));
    NonEmptyCell(c) &&
    (ContainsAny(t, HeaderWords1) || ContainsAny(t, HeaderWords2) || ContainsAny(t, HeaderWords3))
  }

  /** _has_table_headers */
  predicate HasTableHeaders(rows: seq<seq<string>>) {
    |rows| >= 2 && rows[0] != [] &&
    Count(rows[0], HeaderLikeCell) as real >= (|rows[0]| as real) / 2.0
  }

  /** ^\d+(\.\d+)?$ */
  predicate NumericValue(v: string) {
    match Plus(v, IsDigit)
    case None => false
    case Some(r) => r == [] || (var f := Lit(r, "."); f.Some? && AtEnd(Plus(f.value, IsDigit)))
  }

  predicate IsDateSep(c: char) { c == '/' || c == '-' }

  /** \d{1,2}[/-]\d{1,2}[/-]\d{2,4} at the start of s; digits beyond the
      first two of the last group do not change whether a search finds it. */
  predicate SlashDateAt(s: string) {
    (var r :- Between(s, IsDigit, 1, 2);
     var r :- Exactly(r, IsDateSep, 1);
     var r :- Between(r, IsDigit, 1, 2);
     var r :- Exactly(r, IsDateSep, 1);
     Exactly(r, IsDigit, 2)).Some?
  }

  /** \d{4}-\d{2}-\d{2} at the start of s */
  predicate IsoDateAt(s: string) {
    (var r :- Exactly(s, IsDigit, 4);
     var r :- Lit(r, "-");
     var r :- Exactly(r, IsDigit, 2);
     var r :- Lit(r, "-");
     Exactly(r, IsDigit, 2)).Some?
  }

  /** The date pattern found anywhere in v (re.search). */
  predicate DateValue(v: string) {
    exists i :: 0 <= i <= |v| && (SlashDateAt(v[i..]) || IsoDateAt(v[i..]))
  }

  /** The stripped values of one column below the first row, skipping rows
      too short for it and empty cells. */
  function ColumnValues(rows: seq<seq<string>>, col: nat): (vs: seq<string>)
    ensures |vs| <= |rows|
  {
    if |rows| <= 1 then []
    else
      var row := rows[|rows| - 1];
      ColumnValues(rows[..|rows| - 1], col) + (if col < |row| && row[col] != [] then [Strip(row[col])] else [])
  }

  /** At least 70% of the values are numbers. */
  predicate NumericColumn(vs: seq<string>) {
    Count(vs, NumericValue) as real >= (|vs| as real) * 0.7
  }

  /** At least half of the values hold a date. */
  predicate DateColumn(vs: seq<string>) {
    Count(vs, DateValue) as real >= (|vs| as real) * 0.5
  }

  /** A column with values that is mostly numeric or mostly dates. */
  predicate StructuredColumn(rows: seq<seq<string>>, col: nat) {
    var vs := ColumnValues(rows, col);
    vs != [] && (NumericColumn(vs) || DateColumn(vs))
  }

  /** _has_structured_data */
  predicate HasStructuredData(rows: seq<seq<string>>) {
    |rows| >= 2 && Columns(rows) > 0 &&
    exists col :: 0 <= col < Columns(rows) && StructuredColumn(rows, col)
  }

  /** _is_valid_table_structure (the path where extraction succeeds). */
  predicate ValidTableStructure(rows: seq<seq<string>>) {
    rows != [] && |rows| >= 2 && Columns(rows) >= 2 && DenseEnough(rows) &&
    (HasTableHeaders(rows) || HasStructuredData(rows))
  }

  /** A valid table has two rows, two columns and at least one non-empty
      cell. */
  lemma ValidTableHasContent(rows: seq<seq<string>>)
    requires ValidTableStructure(rows)
    ensures |rows| >= 2 && |rows[0]| >= 2
    ensures Count(Flatten(rows), NonEmptyCell) >= 1
  {
    var all := Flatten(rows);
    FlattenStep(rows, 0);
    assert rows[..0] == [];
    FlattenPrefixLength(rows, 1);
    RatioBound(Count(all, NonEmptyCell) as real, |all| as real);
  }

  /** A ratio of at least 0.3 over a denominator of at least two leaves a
      positive numerator. */
  lemma RatioBound(x: real, y: real)
    requires x >= 0.0 && y >= 2.0 && !(x / y < 0.3)
    ensures x > 0.0
  {
  }

  lemma {:induction false} FlattenPrefixLength(rows: seq<seq<string>>, i: nat)
    requires i <= |rows|
    ensures |Flatten(rows[..i])| <= |Flatten(rows)|
    decreases |rows| - i
  {
    if i < |rows| {
      FlattenStep(rows, i);
      FlattenPrefixLength(rows, i + 1);
    } else {
      assert rows[..i] == rows;
    }
  }

  /** The counting loops of _is_valid_table_structure. */
  method IsValidTableStructure(rows: seq<seq<string>>) returns (ok: bool)
    ensures ok == ValidTableStructure(rows)
  {
    if rows == [] {
      return false;
    }
    var nRows := |rows|;
    var cols := |rows[0]|;
    if nRows < 2 || cols < 2 {
      return false;
    }
    var nonEmptyCells := 0;
    var totalCells := 0;
    for i := 0 to |rows|
      invariant totalCells == |Flatten(rows[..i])|
      invariant nonEmptyCells == Count(Flatten(rows[..i]), NonEmptyCell)
    {
      var row := rows[i];
      assert Flatten(rows[..i]) + row[..0] == Flatten(rows[..i]);
      for j := 0 to |row|
        invariant totalCells == |Flatten(rows[..i])| + j
        invariant nonEmptyCells == Count(Flatten(rows[..i]) + row[..j], NonEmptyCell)
      {
        CellCountStep(Flatten(rows[..i]), row, j);
        totalCells := totalCells + 1;
        if NonEmptyCell(row[j]) {
          nonEmptyCells := nonEmptyCells + 1;
        }
      }
      assert row[..|row|] == row;
      FlattenStep(rows, i);
    }
    assert rows[..|rows|] == rows;
    if totalCells > 0 && (nonEmptyCells as real) / (totalCells as real) < 0.3 {
      return false;
    }
    var hasHeaders := HasTableHeadersLoop(rows);
    var hasStructuredData := HasStructuredDataLoop(rows);
    ok := hasHeaders || hasStructuredData;
  }

  /** The counting loop of _has_table_headers. */
  method HasTableHeadersLoop(rows: seq<seq<string>>) returns (r: bool)
    ensures r == HasTableHeaders(rows)
  {
    if |rows| < 2 {
      return false;
    }
    var firstRow := rows[0];
    if firstRow == [] {
      return false;
    }
    var headerLikeCount := 0;
    for i := 0 to |firstRow|
      invariant headerLikeCount == Count(firstRow[..i], HeaderLikeCell)
    {
      assert firstRow[..i + 1][..i] == firstRow[..i];
      var cell := firstRow[i];
      if NonEmptyCell(cell) {
        var cellText := Strip(Lower(cell));
        if ContainsAny(cellText, HeaderWords1) || ContainsAny(cellText, HeaderWords2) ||
           ContainsAny(cellText, HeaderWords3) {
          headerLikeCount := headerLikeCount + 1;
        }
      }
    }
    assert firstRow[..|firstRow|] == firstRow;
    r := headerLikeCount as real >= (|firstRow| as real) / 2.0;
  }

  /** The column loop of _has_structured_data, counting numeric and date
      columns. */
  method HasStructuredDataLoop(rows: seq<seq<string>>) returns (r: bool)
    ensures r == HasStructuredData(rows)
  {
    if |rows| < 2 {
      return false;
    }
    var numericColumns := 0;
    var dateColumns := 0;
    var totalColumns := |rows[0]|;
    if totalColumns == 0 {
      return false;
    }
    for col := 0 to totalColumns
      invariant numericColumns + dateColumns > 0 <==>
        exists c :: 0 <= c < col && StructuredColumn(rows, c)
    {
      var columnValues := CollectColumn(rows, col);
      if columnValues == [] {
        assert !StructuredColumn(rows, col);
        continue;
      }
      var numericCount := CountNumeric(columnValues);
      if numericCount as real >= (|columnValues| as real) * 0.7 {
        numericColumns := numericColumns + 1;
      }
      var dateCount := CountDates(columnValues);
      if dateCount as real >= (|columnValues| as real) * 0.5 {
        dateColumns := dateColumns + 1;
      }
      assert StructuredColumn(rows, col) <==> NumericColumn(columnValues) || DateColumn(columnValues);
    }
    r := numericColumns >= 1 || dateColumns >= 1;
  }

  /** column_values: the loop over the rows after the first. */
  method CollectColumn(rows: seq<seq<string>>, col: nat) returns (vs: seq<string>)
    requires |rows| >= 1
    ensures vs == ColumnValues(rows, col)
  {
    vs := [];
    for i := 1 to |rows|
      invariant vs == ColumnValues(rows[..i], col)
    {
      assert rows[..i + 1][..i] == rows[..i];
      var row := rows[i];
      if col < |row| && row[col] != [] {
        vs := vs + [Strip(row[col])];
      }
    }
    assert rows[..|rows|] == rows;
  }

  method CountNumeric(vs: seq<string>) returns (n: nat)
    ensures n == Count(vs, NumericValue)
  {
    n := 0;
    for i := 0 to |vs|
      invariant n == Count(vs[..i], NumericValue)
    {
      assert vs[..i + 1][..i] == vs[..i];
      if NumericValue(vs[i]) {
        n := n + 1;
      }
    }
    assert vs[..|vs|] == vs;
  }

  method CountDates(vs: seq<string>) returns (n: nat)
    ensures n == Count(vs, DateValue)
  {
    n := 0;
    for i := 0 to |vs|
      invariant n == Count(vs[..i], DateValue)
    {
      assert vs[..i + 1][..i] == vs[..i];
      if DateValue(vs[i]) {
        n := n + 1;
      }
    }
    assert vs[..|vs|] == vs;
  }

  // ---------------------------------------------------------------------
  // is_text_in_table
  // ---------------------------------------------------------------------

  /** The tolerance around a table region. */
  const Tolerance: real := 5.0

  /** r lies inside region once the region is grown by the tolerance. */
  predicate WithinRegion(r: BBox, region: BBox) {
    r.x0 >= region.x0 - Tolerance && r.x1 <= region.x1 + Tolerance &&
    r.y0 >= region.y0 - Tolerance && r.y1 <= region.y1 + Tolerance
  }

  /** The early-return scan over a page's regions. */
  function InAnyRegion(r: BBox, regions: seq<BBox>): (found: bool)
    ensures found <==> exists k :: 0 <= k < |regions| && WithinRegion(r, regions[k])
  {
    if regions == [] then false
    else if WithinRegion(r, regions[0]) then true
    else
      var found := InAnyRegion(r, regions[1..]);
      assert forall k :: 1 <= k < |regions| ==> regions[k] == regions[1..][k - 1];
      found
  }

  /** is_text_in_table: false when the page has no recorded regions. */
  predicate IsTextInTable(tableRegions: map<int, seq<BBox>>, b: Block) {
    b.page in tableRegions && InAnyRegion(b.bbox, tableRegions[b.page])
  }

  // ---------------------------------------------------------------------
  // The filter state and is_valid_content_block
  // ---------------------------------------------------------------------

  /** The values a ContentFilter holds once its identify methods have run. */
  datatype FilterState = FilterState(
    tablePatterns: set<string>,
    headersFooters: set<string>,
    tocContent: set<string>,
    tocPages: set<int>,
    tableRegions: map<int, seq<BBox>>)

  /** The text-value checks that come first in is_valid_content_block. */
  predicate RejectedText(st: FilterState, t: string) {
    |t| < 5 || t in st.tablePatterns || t in st.headersFooters || t in st.tocContent ||
    IsPageNumber(t) || IsLikelyTableContent(st.tablePatterns, t)
  }

  /** is_valid_content_block */
  predicate IsValidContentBlock(st: FilterState, b: Block) {
    var t := Strip(b.text);
    if RejectedText(st, t) then false
    else if IsTextInTable(st.tableRegions, b) then false
    else if IsTocHeading(t) then true
    else !IsTocEntry(t)
  }

  /** The order of the checks: the set and pattern checks and the region
      check reject before the TOC-heading exception is looked at; a heading
      phrase that passes them is valid even when it also looks like an
      entry; anything else is valid exactly when it is no entry. */
  lemma ValidContentBlockOrder(st: FilterState, b: Block)
    ensures var t := Strip(b.text);
      && (RejectedText(st, t) ==> !IsValidContentBlock(st, b))
      && (IsTextInTable(st.tableRegions, b) ==> !IsValidContentBlock(st, b))
      && (!RejectedText(st, t) && !IsTextInTable(st.tableRegions, b) && IsTocHeading(t) ==>
            IsValidContentBlock(st, b))
      && (!RejectedText(st, t) && !IsTextInTable(st.tableRegions, b) && !IsTocHeading(t) ==>
            (IsValidContentBlock(st, b) <==> !IsTocEntry(t)))
  {
  }

  /** A heading phrase is one of the four alternatives. */
  lemma TocPhraseCases(t: string)
    ensures TocPhrase(t) <==>
      TableOfContentsPhrase(t) || t == "content" || t == "contents" || t == "index" || SpacedToc(t)
  {
    if TocPhrase(t) {
      var k :| 0 <= k < |TocHeadingPatterns| && TocHeadingPatterns[k](t);
      if k == 0 {
        assert TableOfContentsPhrase(t);
      } else if k == 1 {
        assert ContentsWord(t);
      } else if k == 2 {
        assert IndexWord(t);
      } else {
        assert SpacedToc(t);
      }
    }
    if TableOfContentsPhrase(t) {
      assert TocHeadingPatterns[0](t);
    } else if t == "content" || t == "contents" {
      assert TocHeadingPatterns[1](t);
    } else if t == "index" {
      assert TocHeadingPatterns[2](t);
    } else if SpacedToc(t) {
      assert TocHeadingPatterns[3](t);
    }
  }

  /** The usual headings are recognised whatever their case and padding. */
  lemma PaddedContentsIsTocHeading()
    ensures IsTocHeading(" CONTENTS ")
  {
    assert " CONTENTS "[1..] == "CONTENTS ";
    assert "CONTENTS "[..8] == "CONTENTS";
    assert Strip(" CONTENTS ") == "CONTENTS";
    assert Lower("CONTENTS") == "contents";
    assert TocHeadingPatterns[1]("contents");
  }

  /** The phrase must fill the whole text. */
  lemma LongerPhraseIsNoTocHeading()
    ensures !IsTocHeading("contents page")
  {
    var t := "contents page";
    assert IsStripped(t);
    TrimLeftStripped(t);
    TrimRightStripped(t);
    assert Lower(t) == t by {
      assert forall i :: 0 <= i < |t| ==> ToLower(t[i]) == t[i];
    }
    ContentsPageIsNoPhrase();
  }

  lemma ContentsPageIsNoPhrase()
    ensures !TocPhrase("contents page")
  {
    var t := "contents page";
    TocPhraseCases(t);
    NotTablePhrase(t);
    NotSpacedToc(t);
  }

  /** A text that does not start with 't' is not "table of contents". */
  lemma NotTablePhrase(t: string)
    requires |t| > 0 && t[0] != 't'
    ensures !TableOfContentsPhrase(t)
  {
    assert !StartsWith(t, "table") by { if |t| >= 5 { assert t[..5][0] == t[0]; } }
  }

  /** A text that starts with neither whitespace nor 't' is not "toc". */
  lemma NotSpacedToc(t: string)
    requires |t| > 0 && t[0] != 't' && !IsSpace(t[0])
    ensures !SpacedToc(t)
  {
    assert RunLen(t, IsSpace) == 0;
    assert Star(t, IsSpace) == t;
    assert !StartsWith(t, "toc") by { if |t| >= 3 { assert t[..3][0] == t[0]; } }
  }

  /** "Index" is a heading phrase, but with five word characters it is
      also likely table content, so the heading exception never keeps it. */
  lemma IndexHeadingIsRejected(st: FilterState, b: Block)
    requires Strip(b.text) == "index"
    ensures IsTocHeading(b.text)
    ensures !IsValidContentBlock(st, b)
  {
    StripIdempotent(b.text);
    assert Lower("index") == "index";
    TocPhraseCases("index");
    ShortWordIsTableContent(st.tablePatterns, "index");
  }

  /** Every block inside a recorded region of its page is invalid, however
      its text reads. */
  lemma InTableRegionIsInvalid(st: FilterState, b: Block, k: nat)
    requires b.page in st.tableRegions && k < |st.tableRegions[b.page]|
    requires WithinRegion(b.bbox, st.tableRegions[b.page][k])
    ensures !IsValidContentBlock(st, b)
  {
  }

  /** A bigger state rejects more: more texts in any set, or more regions
      on any page, can only turn a valid block invalid. */
  lemma ValidityAntitone(st: FilterState, st': FilterState, b: Block)
    requires st.tablePatterns <= st'.tablePatterns && st.headersFooters <= st'.headersFooters
    requires st.tocContent <= st'.tocContent
    requires forall p :: p in st.tableRegions ==>
      p in st'.tableRegions && forall r :: r in st.tableRegions[p] ==> r in st'.tableRegions[p]
    ensures IsValidContentBlock(st', b) ==> IsValidContentBlock(st, b)
  {
    if IsTextInTable(st.tableRegions, b) {
      var k :| 0 <= k < |st.tableRegions[b.page]| && WithinRegion(b.bbox, st.tableRegions[b.page][k]);
      var r := st.tableRegions[b.page][k];
      assert r in st.tableRegions[b.page];
      assert r in st'.tableRegions[b.page];
      var k' :| 0 <= k' < |st'.tableRegions[b.page]| && st'.tableRegions[b.page][k'] == r;
      assert IsTextInTable(st'.tableRegions, b);
    }
  }

  // ---------------------------------------------------------------------
  // identify_table_of_contents as values
  // ---------------------------------------------------------------------

  /** The pages one TOC heading on page p marks: p, p + 1, and p - 1 when
      p > 1. */
  function TocNeighbourhood(p: int): set<int> {
    {p, p + 1} + (if p > 1 then {p - 1} else {})
  }

  /** The pages marked by the blocks whose text satisfies isHeading. */
  function MarkedPages(blocks: seq<Block>, isHeading: string -> bool): set<int> {
    if blocks == [] then {}
    else
      var b := blocks[|blocks| - 1];
      MarkedPages(blocks[..|blocks| - 1], isHeading) + (if isHeading(b.text) then TocNeighbourhood(b.page) else {})
  }

  /** Step 1 of identify_table_of_contents: the pages marked by the TOC
      headings. */
  function TocPagesOf(blocks: seq<Block>): set<int> {
    MarkedPages(blocks, IsTocHeading)
  }

  lemma {:induction false} MarkedPagesMembers(blocks: seq<Block>, isHeading: string -> bool, p: int)
    ensures p in MarkedPages(blocks, isHeading) <==>
      exists i :: 0 <= i < |blocks| && isHeading(blocks[i].text) && p in TocNeighbourhood(blocks[i].page)
    decreases |blocks|
  {
    if blocks != [] {
      var init := blocks[..|blocks| - 1];
      MarkedPagesMembers(init, isHeading, p);
      assert forall i :: 0 <= i < |init| ==> init[i] == blocks[i];
    }
  }

  lemma MarkedPagesStep(blocks: seq<Block>, isHeading: string -> bool, i: nat)
    requires i < |blocks|
    ensures MarkedPages(blocks[..i + 1], isHeading) == MarkedPages(blocks[..i], isHeading) +
      (if isHeading(blocks[i].text) then TocNeighbourhood(blocks[i].page) else {})
  {
    assert blocks[..i + 1][..i] == blocks[..i];
  }

  /** A page is a TOC page iff a heading block sits on it or on one of its
      neighbours; page 0 is marked only by a heading on page 0 or -1. */
  lemma TocPagesMembers(blocks: seq<Block>, p: int)
    ensures p in TocPagesOf(blocks) <==>
      exists i :: 0 <= i < |blocks| && IsTocHeading(blocks[i].text) && p in TocNeighbourhood(blocks[i].page)
  {
    MarkedPagesMembers(blocks, IsTocHeading, p);
  }

  /** Step 2 keeps a stripped text that is an entry but not the heading. */
  predicate TocEntryText(t: string) {
    !IsTocHeading(t) && IsTocEntry(t)
  }

  /** The stripped texts of the blocks on the given pages that satisfy keep. */
  function TextsOnPages(blocks: seq<Block>, pages: set<int>, keep: string -> bool): set<string> {
    if blocks == [] then {}
    else
      var b := blocks[|blocks| - 1];
      var t := Strip(b.text);
      TextsOnPages(blocks[..|blocks| - 1], pages, keep) + (if b.page in pages && keep(t) then {t} else {})
  }

  lemma {:induction false} TextsOnPagesMembers(blocks: seq<Block>, pages: set<int>, keep: string -> bool, t: string)
    ensures t in TextsOnPages(blocks, pages, keep) <==>
      exists i :: 0 <= i < |blocks| && blocks[i].page in pages && Strip(blocks[i].text) == t && keep(t)
    decreases |blocks|
  {
    if blocks != [] {
      var init := blocks[..|blocks| - 1];
      TextsOnPagesMembers(init, pages, keep, t);
      assert forall i :: 0 <= i < |init| ==> init[i] == blocks[i];
    }
  }

  lemma TextsOnPagesStep(blocks: seq<Block>, pages: set<int>, keep: string -> bool, i: nat)
    requires i < |blocks|
    ensures TextsOnPages(blocks[..i + 1], pages, keep) == TextsOnPages(blocks[..i], pages, keep) +
      (if blocks[i].page in pages && keep(Strip(blocks[i].text)) then {Strip(blocks[i].text)} else {})
  {
    assert blocks[..i + 1][..i] == blocks[..i];
  }

  /** Step 2 of identify_table_of_contents over the given TOC pages. */
  function TocEntryTexts(blocks: seq<Block>, pages: set<int>): set<string> {
    TextsOnPages(blocks, pages, TocEntryText)
  }

  /** Every recorded TOC text comes from a block on a TOC page, is at
      least three characters long, is an entry, and is never a TOC heading. */
  lemma TocEntryTextsMembers(blocks: seq<Block>, pages: set<int>, t: string)
    requires t in TocEntryTexts(blocks, pages)
    ensures exists i :: 0 <= i < |blocks| && blocks[i].page in pages && Strip(blocks[i].text) == t
    ensures !IsTocHeading(t) && IsTocEntry(t) && |t| >= 3
  {
    TextsOnPagesMembers(blocks, pages, TocEntryText, t);
    var i :| 0 <= i < |blocks| && blocks[i].page in pages && Strip(blocks[i].text) == t && TocEntryText(t);
    StripIdempotent(blocks[i].text);
  }

  // ---------------------------------------------------------------------
  // identify_visual_tables: recording the regions that pass the structure
  // check (table finding itself is the external detector's job)
  // ---------------------------------------------------------------------

  /** The regions of the tables on one page whose cells satisfy valid. */
  function RegionsWhere(tables: seq<Table>, valid: seq<seq<string>> -> bool): (regions: seq<BBox>)
    ensures |regions| <= |tables|
  {
    if tables == [] then []
    else
      var t := tables[|tables| - 1];
      RegionsWhere(tables[..|tables| - 1], valid) + (if valid(t.cells) then [t.bbox] else [])
  }

  lemma {:induction false} RegionsWhereMembers(tables: seq<Table>, valid: seq<seq<string>> -> bool, r: BBox)
    ensures r in RegionsWhere(tables, valid) <==>
      exists k :: 0 <= k < |tables| && tables[k].bbox == r && valid(tables[k].cells)
    decreases |tables|
  {
    if tables != [] {
      var init := tables[..|tables| - 1];
      RegionsWhereMembers(init, valid, r);
      assert forall k :: 0 <= k < |init| ==> init[k] == tables[k];
    }
  }

  lemma RegionsWhereStep(tables: seq<Table>, valid: seq<seq<string>> -> bool, j: nat)
    requires j < |tables|
    ensures RegionsWhere(tables[..j + 1], valid) == RegionsWhere(tables[..j], valid) +
      (if valid(tables[j].cells) then [tables[j].bbox] else [])
  {
    assert tables[..j + 1][..j] == tables[..j];
  }

  /** The regions recorded for one page: those of the tables with a valid
      cell matrix. */
  function ValidRegions(tables: seq<Table>): (regions: seq<BBox>)
    ensures |regions| <= |tables|
  {
    RegionsWhere(tables, ValidTableStructure)
  }

  lemma ValidRegionsStep(tables: seq<Table>, j: nat)
    requires j < |tables|
    ensures ValidRegions(tables[..j + 1]) == ValidRegions(tables[..j]) +
      (if ValidTableStructure(tables[j].cells) then [tables[j].bbox] else [])
  {
    RegionsWhereStep(tables, ValidTableStructure, j);
  }

  /** A region is recorded iff it belongs to a table whose cell matrix
      passes the structure check. */
  lemma ValidRegionsMembers(tables: seq<Table>, r: BBox)
    ensures r in ValidRegions(tables) <==>
      exists k :: 0 <= k < |tables| && tables[k].bbox == r && ValidTableStructure(tables[k].cells)
  {
    RegionsWhereMembers(tables, ValidTableStructure, r);
  }

  /** The regions recorded for pages 1, 2, ... of the document. */
  function RegionsOf(pages: seq<seq<Table>>): (m: map<int, seq<BBox>>)
    ensures forall p :: p in m <==> 1 <= p <= |pages|
  {
    if pages == [] then map[]
    else RegionsOf(pages[..|pages| - 1])[|pages| := ValidRegions(pages[|pages| - 1])]
  }

  lemma RegionsOfStep(pages: seq<seq<Table>>, i: nat)
    requires i < |pages|
    ensures RegionsOf(pages[..i + 1]) == RegionsOf(pages[..i])[i + 1 := ValidRegions(pages[i])]
  {
    assert pages[..i + 1][..i] == pages[..i];
  }

  lemma MergeUpdate<K, V>(a: map<K, V>, b: map<K, V>, k: K, v: V)
    ensures a + b[k := v] == (a + b)[k := v]
  {
  }

  /** Page p (from 1) holds the valid regions of the p-th page's tables. */
  lemma {:induction false} RegionsOfPage(pages: seq<seq<Table>>, p: int)
    requires 1 <= p <= |pages|
    ensures RegionsOf(pages)[p] == ValidRegions(pages[p - 1])
    decreases |pages|
  {
    if p < |pages| {
      RegionsOfPage(pages[..|pages| - 1], p);
    }
  }

  // ---------------------------------------------------------------------
  // The class
  // ---------------------------------------------------------------------

  class ContentFilter {
    var headersFooters: set<string>
    var tablePatterns: set<string>
    var tocContent: set<string>
    var tocPages: set<int>
    var tableRegions: map<int, seq<BBox>>

    /** The current sets and regions as one value. */
    function State(): FilterState
      reads this
    {
      FilterState(tablePatterns, headersFooters, tocContent, tocPages, tableRegions)
    }

    constructor ()
      ensures State() == FilterState({}, {}, {}, {}, map[])
    {
      headersFooters := {};
      tablePatterns := {};
      tocContent := {};
      tocPages := {};
      tableRegions := map[];
    }

    /** identify_visual_tables: for every page (numbered from 1) the list of
        regions is reset and then filled with the regions of the detected
        tables whose cell matrix passes the structure check. */
    method IdentifyVisualTables(pages: seq<seq<Table>>)
      modifies this
      ensures tableRegions == old(tableRegions) + RegionsOf(pages)
      ensures headersFooters == old(headersFooters) && tablePatterns == old(tablePatterns)
      ensures tocContent == old(tocContent) && tocPages == old(tocPages)
    {
      for i := 0 to |pages|
        invariant tableRegions == old(tableRegions) + RegionsOf(pages[..i])
        invariant headersFooters == old(headersFooters) && tablePatterns == old(tablePatterns)
        invariant tocContent == old(tocContent) && tocPages == old(tocPages)
      {
        RegionsOfStep(pages, i);
        MergeUpdate(old(tableRegions), RegionsOf(pages[..i]), i + 1, ValidRegions(pages[i]));
        RecordPageTables(i + 1, pages[i]);
      }
      assert pages[..|pages|] == pages;
    }

    /** The body of identify_visual_tables for one page: reset its list of
        regions, then append the region of every table that passes the
        structure check. */
    method RecordPageTables(pageNum: int, tables: seq<Table>)
      modifies this
      ensures tableRegions == old(tableRegions)[pageNum := ValidRegions(tables)]
      ensures headersFooters == old(headersFooters) && tablePatterns == old(tablePatterns)
      ensures tocContent == old(tocContent) && tocPages == old(tocPages)
    {
      tableRegions := tableRegions[pageNum := []];
      for j := 0 to |tables|
        invariant tableRegions == old(tableRegions)[pageNum := ValidRegions(tables[..j])]
        invariant headersFooters == old(headersFooters) && tablePatterns == old(tablePatterns)
        invariant tocContent == old(tocContent) && tocPages == old(tocPages)
      {
        ValidRegionsStep(tables, j);
        var ok := IsValidTableStructure(tables[j].cells);
        if ok {
          tableRegions := tableRegions[pageNum := tableRegions[pageNum] + [tables[j].bbox]];
        } else {
          assert ValidRegions(tables[..j + 1]) == ValidRegions(tables[..j]);
        }
      }
      assert tables[..|tables|] == tables;
    }

    /** identify_table_of_contents: first the heading pages and their
        neighbours, then, on every TOC page, the entry texts. */
    method IdentifyTableOfContents(blocks: seq<Block>)
      modifies this
      ensures tocPages == old(tocPages) + TocPagesOf(blocks)
      ensures tocContent == old(tocContent) + TocEntryTexts(blocks, tocPages)
      ensures headersFooters == old(headersFooters) && tablePatterns == old(tablePatterns)
      ensures tableRegions == old(tableRegions)
    {
      MarkTocPages(blocks);
      CollectTocEntries(blocks);
    }

    /** Step 1: every block whose stripped, lower-cased text is a heading
        phrase marks its page and the neighbours. */
    method MarkTocPages(blocks: seq<Block>)
      modifies this
      ensures tocPages == old(tocPages) + TocPagesOf(blocks)
      ensures tocContent == old(tocContent)
      ensures headersFooters == old(headersFooters) && tablePatterns == old(tablePatterns)
      ensures tableRegions == old(tableRegions)
    {
      for i := 0 to |blocks|
        invariant tocPages == old(tocPages) + TocPagesOf(blocks[..i])
        invariant tocContent == old(tocContent)
        invariant headersFooters == old(headersFooters) && tablePatterns == old(tablePatterns)
        invariant tableRegions == old(tableRegions)
      {
        MarkedPagesStep(blocks, IsTocHeading, i);
        var block := blocks[i];
        var text := Lower(Strip(block.text));
        var k := FirstMatch(TocHeadingPatterns, text);
        if k < |TocHeadingPatterns| {
          MarkNeighbourhood(block.page);
        }
      }
      assert blocks[..|blocks|] == blocks;
    }

    /** Adds a heading's page, the page after it and, past page 1, the
        page before it. */
    method MarkNeighbourhood(page: int)
      modifies this
      ensures tocPages == old(tocPages) + TocNeighbourhood(page)
      ensures tocContent == old(tocContent)
      ensures headersFooters == old(headersFooters) && tablePatterns == old(tablePatterns)
      ensures tableRegions == old(tableRegions)
    {
      tocPages := tocPages + {page};
      tocPages := tocPages + {page + 1};
      if page > 1 {
        tocPages := tocPages + {page - 1};
      }
    }

    /** Step 2: on the TOC pages, the stripped texts that are entries and
        not the heading itself. */
    method CollectTocEntries(blocks: seq<Block>)
      modifies this
      ensures tocContent == old(tocContent) + TocEntryTexts(blocks, tocPages)
      ensures tocPages == old(tocPages)
      ensures headersFooters == old(headersFooters) && tablePatterns == old(tablePatterns)
      ensures tableRegions == old(tableRegions)
    {
      for i := 0 to |blocks|
        invariant tocContent == old(tocContent) + TocEntryTexts(blocks[..i], tocPages)
        invariant tocPages == old(tocPages)
        invariant headersFooters == old(headersFooters) && tablePatterns == old(tablePatterns)
        invariant tableRegions == old(tableRegions)
      {
        TextsOnPagesStep(blocks, tocPages, TocEntryText, i);
        var block := blocks[i];
        if block.page in tocPages {
          var text := Strip(block.text);
          if IsTocHeading(text) {
            continue;
          }
          if IsTocEntry(text) {
            tocContent := tocContent + {text};
          }
        }
      }
      assert blocks[..|blocks|] == blocks;
    }

    /** identify_table_patterns */
    method IdentifyTablePatterns(blocks: seq<Block>)
      modifies this
      ensures tablePatterns == old(tablePatterns) + TablePatternTexts(blocks)
      ensures headersFooters == old(headersFooters) && tocContent == old(tocContent)
      ensures tocPages == old(tocPages) && tableRegions == old(tableRegions)
    {
      tablePatterns := AddTablePatterns(tablePatterns, blocks);
    }

    /** identify_headers_footers */
    method IdentifyHeadersFooters(blocks: seq<Block>)
      modifies this
      ensures headersFooters == old(headersFooters) + HeaderFooterTexts(blocks)
      ensures tablePatterns == old(tablePatterns) && tocContent == old(tocContent)
      ensures tocPages == old(tocPages) && tableRegions == old(tableRegions)
    {
      headersFooters := AddHeadersFooters(headersFooters, blocks);
    }

    /** process_all_filters: the visual tables when the document is given,
        then the table of contents, then table patterns, then headers and
        footers. */
    method ProcessAllFilters(blocks: seq<Block>, detected: Option<seq<seq<Table>>>)
      modifies this
      ensures tableRegions == if detected.Some? then old(tableRegions) + RegionsOf(detected.value)
                              else old(tableRegions)
      ensures tocPages == old(tocPages) + TocPagesOf(blocks)
      ensures tocContent == old(tocContent) + TocEntryTexts(blocks, tocPages)
      ensures tablePatterns == old(tablePatterns) + TablePatternTexts(blocks)
      ensures headersFooters == old(headersFooters) + HeaderFooterTexts(blocks)
    {
      if detected.Some? {
        IdentifyVisualTables(detected.value);
      }
      IdentifyTableOfContents(blocks);
      IdentifyTablePatterns(blocks);
      IdentifyHeadersFooters(blocks);
    }
  }

  /** A fresh filter after process_all_filters holds exactly the values
      computed from the blocks (and the detected tables). */
  function FiltersOf(blocks: seq<Block>, detected: Option<seq<seq<Table>>>): FilterState {
    var pages := TocPagesOf(blocks);
    FilterState(
      TablePatternTexts(blocks),
      HeaderFooterTexts(blocks),
      TocEntryTexts(blocks, pages),
      pages,
      if detected.Some? then RegionsOf(detected.value) else map[])
  }

  /** A TOC heading is never recorded as TOC content, so a heading that
      passes the other checks stays valid. */
  lemma TocHeadingNeverTocContent(blocks: seq<Block>, detected: Option<seq<seq<Table>>>, t: string)
    requires IsTocHeading(t)
    ensures t !in FiltersOf(blocks, detected).tocContent
  {
    var st := FiltersOf(blocks, detected);
    if t in st.tocContent {
      TocEntryTextsMembers(blocks, st.tocPages, t);
    }
  }
}
