/** The rules both copies of content_filter.py share
    (challenge_1a/src/content_filter.py and src/content_filter.py): the
    table indicators, the header/footer bands and counts, and the
    table-content test. The two ContentFilter classes keep their sets as
    fields and delegate to the methods here. */
module FilterRules {
  import opened Strings
  import opened Blocks
  import opened Patterns
  import opened Utils

  // ---------------------------------------------------------------------
  // identify_table_patterns: the ten table indicators (re.IGNORECASE)
  // ---------------------------------------------------------------------

  const Months: seq<string> :=
    ["jan", "feb", "mar", "apr", "may", "jun", "jul", "aug", "sep", "oct", "nov", "dec"]

  const LongMonths: seq<string> := ["june", "july", "november", "december"]

  predicate IsDigitOrDot(c: char) { IsDigit(c) || c == '.' }

  /** ^\d+\.\d+\s+\d+\s+(JAN|FEB|...|DEC)\s+\d{4} */
  predicate VersionHistoryRow(t: string) {
    (var r :- Plus(t, IsDigit);
     var r :- Lit(r, ".");
     var r :- Plus(r, IsDigit);
     var r :- Plus(r, IsSpace);
     var r :- Plus(r, IsDigit);
     var r :- Plus(r, IsSpace);
     var r :- AltCI(r, Months);
     var r :- Plus(r, IsSpace);
     Exactly(r, IsDigit, 4)).Some?
  }

  /** ^[\d\.]+\s+[\d\.]+$ */
  predicate NumberPair(t: string) {
    AtEnd(
      var r :- Plus(t, IsDigitOrDot);
      var r :- Plus(r, IsSpace);
      Plus(r, IsDigitOrDot))
  }

  /** ^\d{1,2}\s+(JUNE|JULY|NOVEMBER|DECEMBER)\s+\d{4} */
  predicate TableDate(t: string) {
    (var r :- Between(t, IsDigit, 1, 2);
     var r :- Plus(r, IsSpace);
     var r :- AltCI(r, LongMonths);
     var r :- Plus(r, IsSpace);
     Exactly(r, IsDigit, 4)).Some?
  }

  /** (\s+\d+)+$ */
  predicate SpacedNumberGroups(s: string)
    decreases |s|
  {
    match Plus(s, IsSpace)
    case None => false
    case Some(r) =>
      match Plus(r, IsDigit)
      case None => false
      case Some(r2) => r2 == [] || SpacedNumberGroups(r2)
  }

  /** ^\d+(\s+\d+)+$ */
  predicate SpacedNumbers(t: string) {
    match Plus(t, IsDigit)
    case None => false
    case Some(r) => SpacedNumberGroups(r)
  }

  /** ^©.*\d{4}$ */
  predicate CopyrightYear(t: string) {
    |t| >= 5 && t[0] == '©' &&
    (forall i :: |t| - 4 <= i < |t| ==> IsDigit(t[i])) &&
    OneLine(t[1..|t| - 4])
  }

  /** ^Page\s+\d+\s+of\s+\d+ */
  predicate PageOfPagesLabel(t: string) {
    (var r :- LitCI(t, "page");
     var r :- Plus(r, IsSpace);
     var r :- Plus(r, IsDigit);
     var r :- Plus(r, IsSpace);
     var r :- LitCI(r, "of");
     var r :- Plus(r, IsSpace);
     Plus(r, IsDigit)).Some?
  }

  /** ^Version\s+\d{4} */
  predicate VersionYear(t: string) {
    (var r :- LitCI(t, "version");
     var r :- Plus(r, IsSpace);
     Exactly(r, IsDigit, 4)).Some?
  }

  /** May\s+\d{1,2},\s+\d{4} (re.match anchors it at the start) */
  predicate MayDate(t: string) {
    (var r :- LitCI(t, "may");
     var r :- Plus(r, IsSpace);
     var r :- Between(r, IsDigit, 1, 2);
     var r :- Lit(r, ",");
     var r :- Plus(r, IsSpace);
     Exactly(r, IsDigit, 4)).Some?
  }

  /** ^Version\s+Date\s+Remarks$ */
  predicate VersionTableHeader(t: string) {
    AtEnd(
      var r :- LitCI(t, "version");
      var r :- Plus(r, IsSpace);
      var r :- LitCI(r, "date");
      var r :- Plus(r, IsSpace);
      LitCI(r, "remarks"))
  }

  /** ^Syllabus\s+Days$ */
  predicate SyllabusTableHeader(t: string) {
    AtEnd(
      var r :- LitCI(t, "syllabus");
      var r :- Plus(r, IsSpace);
      LitCI(r, "days"))
  }

  /** table_indicators, in the order the source tries them. */
  const TableIndicators: seq<string -> bool> := [
    VersionHistoryRow, NumberPair, TableDate, SpacedNumbers, CopyrightYear,
    PageOfPagesLabel, VersionYear, MayDate, VersionTableHeader, SyllabusTableHeader]

  /** Some element of a pattern list accepts t. */
  predicate AnyMatch(patterns: seq<string -> bool>, t: string) {
    exists k :: 0 <= k < |patterns| && patterns[k](t)
  }

  predicate TableIndicator(t: string) {
    AnyMatch(TableIndicators, t)
  }

  /** The stripped texts of the blocks that satisfy p. */
  function MatchingTexts(blocks: seq<Block>, p: string -> bool): (ts: set<string>)
    ensures forall t :: t in ts <==>
      exists i :: 0 <= i < |blocks| && Strip(blocks[i].text) == t && p(t)
  {
    if blocks == [] then {}
    else
      var init := blocks[..|blocks| - 1];
      var t := Strip(blocks[|blocks| - 1].text);
      assert forall i :: 0 <= i < |init| ==> init[i] == blocks[i];
      MatchingTexts(init, p) + (if p(t) then {t} else {})
  }

  /** The stripped texts identify_table_patterns adds for these blocks. */
  function TablePatternTexts(blocks: seq<Block>): set<string> {
    MatchingTexts(blocks, TableIndicator)
  }

  /** The index of the first pattern that accepts t, or |patterns| when
      none does: the `for pattern in ...: if re.match(...): ... break` scan. */
  method FirstMatch(patterns: seq<string -> bool>, t: string) returns (k: nat)
    ensures k <= |patterns|
    ensures k < |patterns| <==> AnyMatch(patterns, t)
    ensures k < |patterns| ==> patterns[k](t) && forall j :: 0 <= j < k ==> !patterns[j](t)
  {
    k := 0;
    while k < |patterns| && !patterns[k](t)
      invariant 0 <= k <= |patterns|
      invariant forall j :: 0 <= j < k ==> !patterns[j](t)
    {
      k := k + 1;
    }
  }

  /** The loop of identify_table_patterns: each stripped text is tried
      against the indicators in order, and added at the first match. */
  method AddTablePatterns(current: set<string>, blocks: seq<Block>) returns (updated: set<string>)
    ensures updated == current + TablePatternTexts(blocks)
  {
    updated := current;
    for i := 0 to |blocks|
      invariant updated == current + MatchingTexts(blocks[..i], TableIndicator)
    {
      assert blocks[..i + 1][..i] == blocks[..i];
      var text := Strip(blocks[i].text);
      var k := FirstMatch(TableIndicators, text);
      if k < |TableIndicators| {
        updated := updated + {text};
      }
    }
    assert blocks[..|blocks|] == blocks;
  }

  // ---------------------------------------------------------------------
  // identify_headers_footers
  // ---------------------------------------------------------------------

  datatype Band = Top | Bottom | Middle

  /** Top when y0 < 0.15 h, else bottom when y0 > 0.85 h, else neither. */
  function BandOf(b: Block): Band {
    if b.bbox.y0 < b.pageHeight * 0.15 then Top
    else if b.bbox.y0 > b.pageHeight * 0.85 then Bottom
    else Middle
  }

  /** On a page of non-negative height the bottom band is the footer area. */
  lemma BottomBandIsFooterArea(b: Block)
    requires b.pageHeight >= 0.0
    ensures BandOf(b) == Bottom <==> IsFooterArea(b)
  {
  }

  /** The stripped texts of the blocks in one band, in block order
      (all_tops / all_bottoms). */
  function BandTexts(blocks: seq<Block>, band: Band): (ts: seq<string>)
    ensures |ts| <= |blocks|
  {
    if blocks == [] then []
    else
      var last := blocks[|blocks| - 1];
      BandTexts(blocks[..|blocks| - 1], band) + (if BandOf(last) == band then [Strip(last.text)] else [])
  }

  /** The band texts are the stripped texts of exactly the blocks in that band. */
  lemma {:induction false} BandTextsMembers(blocks: seq<Block>, band: Band)
    ensures forall i :: 0 <= i < |BandTexts(blocks, band)| ==> IsStripped(BandTexts(blocks, band)[i])
    ensures forall t :: t in BandTexts(blocks, band) <==>
      exists i :: 0 <= i < |blocks| && BandOf(blocks[i]) == band && Strip(blocks[i].text) == t
    decreases |blocks|
  {
    if blocks != [] {
      var init := blocks[..|blocks| - 1];
      BandTextsMembers(init, band);
      assert forall i :: 0 <= i < |init| ==> init[i] == blocks[i];
      StripSpec(blocks[|blocks| - 1].text);
    }
  }

  /** The keys of page_positions: the page of every block, banded or not. */
  function PageSet(blocks: seq<Block>): (pages: set<int>)
    ensures forall p :: p in pages <==> exists i :: 0 <= i < |blocks| && blocks[i].page == p
  {
    if blocks == [] then {}
    else
      var init := blocks[..|blocks| - 1];
      assert forall i :: 0 <= i < |init| ==> init[i] == blocks[i];
      PageSet(init) + {blocks[|blocks| - 1].page}
  }

  /** max(2, pages // 3) */
  function MinOccurrences(pages: nat): nat {
    if pages / 3 > 2 then pages / 3 else 2
  }

  const FooterKeywords: seq<string> :=
    ["copyright", "©", "page", "confidential", "proprietary", "all rights reserved"]

  predicate HasFooterKeyword(t: string) {
    ContainsAny(Lower(t), FooterKeywords)
  }

  /** The header rule: recurring and not a page number. */
  predicate KeepHeader(t: string, count: nat, minOcc: nat) {
    count >= minOcc && !IsPageNumber(t)
  }

  /** The footer rule: recurring, and short, a page number, boilerplate, or
      on at least 80% of the pages. */
  predicate KeepFooter(t: string, count: nat, minOcc: nat, pages: nat) {
    count >= minOcc &&
    (|t| < 50 || IsPageNumber(t) || HasFooterKeyword(t) || count as real >= pages as real * 0.8)
  }

  function HeaderSelection(counter: multiset<string>, minOcc: nat): set<string> {
    set t | t in counter && KeepHeader(t, counter[t], minOcc)
  }

  function FooterSelection(counter: multiset<string>, minOcc: nat, pages: nat): set<string> {
    set t | t in counter && KeepFooter(t, counter[t], minOcc, pages)
  }

  function HeaderTexts(blocks: seq<Block>): set<string> {
    HeaderSelection(multiset(BandTexts(blocks, Top)), MinOccurrences(|PageSet(blocks)|))
  }

  function FooterTexts(blocks: seq<Block>): set<string> {
    var pages := |PageSet(blocks)|;
    FooterSelection(multiset(BandTexts(blocks, Bottom)), MinOccurrences(pages), pages)
  }

  /** The texts identify_headers_footers adds for these blocks. */
  function HeaderFooterTexts(blocks: seq<Block>): set<string> {
    HeaderTexts(blocks) + FooterTexts(blocks)
  }

  /** A top-band text is a header iff it occurs at least
      max(2, pages // 3) times in the top band and is not a page number. */
  lemma HeaderRule(blocks: seq<Block>, t: string)
    ensures t in HeaderTexts(blocks) <==>
      multiset(BandTexts(blocks, Top))[t] >= MinOccurrences(|PageSet(blocks)|) && !IsPageNumber(t)
  {
  }

  /** A bottom-band text below the threshold is never a footer; at or above
      it, it is one iff it is short, a page number or boilerplate, or occurs
      on at least 80% of the pages. */
  lemma FooterRule(blocks: seq<Block>, t: string)
    ensures var pages := |PageSet(blocks)|;
      var count := multiset(BandTexts(blocks, Bottom))[t];
      && (count < MinOccurrences(pages) ==> t !in FooterTexts(blocks))
      && (count >= MinOccurrences(pages) ==>
            (t in FooterTexts(blocks) <==>
              |t| < 50 || IsPageNumber(t) || HasFooterKeyword(t) || count as real >= pages as real * 0.8))
  {
  }

  /** A text seen on at most one band block is never a header or footer,
      whatever the page count. */
  lemma SingleOccurrenceIsKept(blocks: seq<Block>, t: string)
    requires multiset(BandTexts(blocks, Top))[t] <= 1
    requires multiset(BandTexts(blocks, Bottom))[t] <= 1
    ensures t !in HeaderFooterTexts(blocks)
  {
  }

  /** Every recorded header or footer text is stripped. */
  lemma HeaderFooterTextsStripped(blocks: seq<Block>)
    ensures forall t :: t in HeaderFooterTexts(blocks) ==> IsStripped(t)
  {
    var tops := BandTexts(blocks, Top);
    var bottoms := BandTexts(blocks, Bottom);
    BandTextsMembers(blocks, Top);
    BandTextsMembers(blocks, Bottom);
    forall t | t in HeaderFooterTexts(blocks)
      ensures IsStripped(t)
    {
      if t in multiset(tops) {
        var i :| 0 <= i < |tops| && tops[i] == t;
      } else {
        assert t in multiset(bottoms);
        var i :| 0 <= i < |bottoms| && bottoms[i] == t;
      }
    }
  }

  /** for text, count in top_counter.items(): ... */
  method SelectHeaders(counter: multiset<string>, minOcc: nat) returns (selected: set<string>)
    ensures selected == HeaderSelection(counter, minOcc)
  {
    selected := {};
    var keys := set t | t in counter;
    ghost var seen: set<string> := {};
    while keys != {}
      invariant keys !! seen
      invariant keys + seen == set t | t in counter
      invariant selected == set t | t in seen && KeepHeader(t, counter[t], minOcc)
      decreases keys
    {
      var text :| text in keys;
      var count := counter[text];
      if count >= minOcc && !IsPageNumber(text) {
        selected := selected + {text};
      }
      keys := keys - {text};
      seen := seen + {text};
    }
  }

  /** for text, count in bottom_counter.items(): ... */
  method SelectFooters(counter: multiset<string>, minOcc: nat, pages: nat) returns (selected: set<string>)
    ensures selected == FooterSelection(counter, minOcc, pages)
  {
    selected := {};
    var keys := set t | t in counter;
    ghost var seen: set<string> := {};
    while keys != {}
      invariant keys !! seen
      invariant keys + seen == set t | t in counter
      invariant selected == set t | t in seen && KeepFooter(t, counter[t], minOcc, pages)
      decreases keys
    {
      var text :| text in keys;
      var count := counter[text];
      if count >= minOcc {
        if |text| < 50 || IsPageNumber(text) || HasFooterKeyword(text) {
          selected := selected + {text};
        } else if count as real >= pages as real * 0.8 {
          selected := selected + {text};
        }
      }
      keys := keys - {text};
      seen := seen + {text};
    }
  }

  /** The body of identify_headers_footers: one pass recording every page
      and the banded texts, then the two counter loops. */
  method AddHeadersFooters(current: set<string>, blocks: seq<Block>) returns (updated: set<string>)
    ensures updated == current + HeaderFooterTexts(blocks)
  {
    var pages: set<int> := {};
    var tops: seq<string> := [];
    var bottoms: seq<string> := [];
    for i := 0 to |blocks|
      invariant pages == PageSet(blocks[..i])
      invariant tops == BandTexts(blocks[..i], Top)
      invariant bottoms == BandTexts(blocks[..i], Bottom)
    {
      assert blocks[..i + 1][..i] == blocks[..i];
      var b := blocks[i];
      var text := Strip(b.text);
      pages := pages + {b.page};
      if b.bbox.y0 < b.pageHeight * 0.15 {
        tops := tops + [text];
      } else if b.bbox.y0 > b.pageHeight * 0.85 {
        bottoms := bottoms + [text];
      }
    }
    assert blocks[..|blocks|] == blocks;
    var minOcc := if |pages| / 3 > 2 then |pages| / 3 else 2;
    var headers := SelectHeaders(multiset(tops), minOcc);
    var footers := SelectFooters(multiset(bottoms), minOcc, |pages|);
    updated := current + headers + footers;
  }

  // ---------------------------------------------------------------------
  // is_likely_table_content: the seven extra patterns (re.IGNORECASE)
  // ---------------------------------------------------------------------

  /** (\.\d+)* after a number */
  function DotGroups(s: string): (r: string)
    ensures |r| <= |s|
    decreases |s|
  {
    if |s| > 0 && s[0] == '.' && Plus(s[1..], IsDigit).Some? then DotGroups(Plus(s[1..], IsDigit).value)
    else s
  }

  /** \d+(\.\d+)* */
  function DottedNumber(s: string): Option<string> {
    var r :- Plus(s, IsDigit);
    Some(DotGroups(r))
  }

  /** ^\d+(\.\d+)*\s+\d+(\.\d+)*$ */
  predicate DottedNumberPair(t: string) {
    AtEnd(
      var r :- DottedNumber(t);
      var r :- Plus(r, IsSpace);
      DottedNumber(r))
  }

  /** ^\d+\.\d+.*\d{4}: after "N.", a digit and then four digits somewhere
      on the same line (the second \d+ may give digits back to \d{4}). */
  predicate VersionNumberWithYear(t: string) {
    match (var r :- Plus(t, IsDigit); Lit(r, "."))
    case None => false
    case Some(r) => |r| > 0 && IsDigit(r[0]) && FindRun(r[1..], IsDigit, 4)
  }

  /** (\w{1,3}\s+){k} */
  predicate ShortCells(s: string, k: nat)
    decreases k
  {
    k == 0 ||
    match (var r :- Between(s, IsWordChar, 1, 3); Plus(r, IsSpace))
    case None => false
    case Some(r) => ShortCells(r, k - 1)
  }

  /** ^(\w{1,3}\s+){3,} */
  predicate ShortCellRow(t: string) {
    ShortCells(t, 3)
  }

  /** ^©.*International.*Board */
  predicate BoardCopyright(t: string) {
    |t| > 0 && t[0] == '©' &&
    (var r :- FindCI(t[1..], "international");
     FindCI(r, "board")).Some?
  }

  /** ^May\s+\d+,\s+\d{4} */
  predicate MayDateLoose(t: string) {
    (var r :- LitCI(t, "may");
     var r :- Plus(r, IsSpace);
     var r :- Plus(r, IsDigit);
     var r :- Lit(r, ",");
     var r :- Plus(r, IsSpace);
     Exactly(r, IsDigit, 4)).Some?
  }

  /** ^\w{1,5}$ */
  predicate ShortWord(t: string) {
    1 <= |t| <= 5 && forall i :: 0 <= i < |t| ==> IsWordChar(t[i])
  }

  const TableContentPatterns: seq<string -> bool> := [
    DottedNumberPair, VersionNumberWithYear, ShortCellRow, BoardCopyright,
    PageLabel, MayDateLoose, ShortWord]

  /** is_likely_table_content, given the current table_patterns set. */
  predicate IsLikelyTableContent(tablePatterns: set<string>, text: string) {
    var t := Strip(text);
    t in tablePatterns || AnyMatch(TableContentPatterns, t)
  }

  /** Every stored table pattern is likely table content: the sets hold
      stripped texts, which strip to themselves. */
  lemma StoredPatternIsTableContent(tablePatterns: set<string>, text: string)
    requires forall t :: t in tablePatterns ==> IsStripped(t)
    requires text in tablePatterns
    ensures IsLikelyTableContent(tablePatterns, text)
  {
  }

  /** Every alphanumeric text of one to five characters counts as table
      content, so no such text survives the content filter. */
  lemma ShortWordIsTableContent(tablePatterns: set<string>, t: string)
    requires 1 <= |t| <= 5 && forall i :: 0 <= i < |t| ==> IsWordChar(t[i])
    ensures IsLikelyTableContent(tablePatterns, t)
  {
    assert IsStripped(t);
    assert TableContentPatterns[6](t);
  }
}
