/** src/pdf_extractor.py: the outline extractor that wires the stages
    together, and extract_pdf_outline, which checks the shape of the
    result. Pages arrive already decoded into raw blocks; opening the
    file, the debug output and saving the JSON are outside the model. */
module PdfExtractor {
  import opened Strings
  import opened Seqs
  import opened Blocks
  import opened Utils
  import opened FilterRules
  import opened FontAnalysis
  import opened FullFilter
  import opened HeadingClassifier
  import opened TextProcessor

  // ---------------------------------------------------------------------
  // extract_formatted_text
  // ---------------------------------------------------------------------

  /** The text blocks of every page, pages numbered from 1, in page order. */
  function DocumentBlocks(pages: seq<Page>): seq<Block> {
    if pages == [] then []
    else
      var n := |pages| - 1;
      DocumentBlocks(pages[..n]) + PageBlocks(pages[n], pages[n].blocks, n + 1)
  }

  lemma {:induction false} PageBlocksOnPage(page: Page, raws: seq<RawBlock>, pageNum: int)
    ensures PagesWithin(PageBlocks(page, raws, pageNum), pageNum, pageNum)
    decreases |raws|
  {
    if raws != [] {
      PageBlocksOnPage(page, raws[..|raws| - 1], pageNum);
    }
  }

  /** Every block is on a page from lo to hi. */
  predicate PagesWithin(bs: seq<Block>, lo: int, hi: int) {
    forall k :: 0 <= k < |bs| ==> lo <= bs[k].page <= hi
  }

  /** The pages never decrease. */
  predicate PagesAscending(bs: seq<Block>) {
    forall k, l :: 0 <= k < l < |bs| ==> bs[k].page <= bs[l].page
  }

  lemma AppendPagesAscending(a: seq<Block>, b: seq<Block>, n: int)
    requires PagesAscending(a) && PagesWithin(a, 1, n - 1)
    requires PagesWithin(b, n, n) && n >= 1
    ensures PagesAscending(a + b) && PagesWithin(a + b, 1, n)
  {
    var ab := a + b;
    forall k, l | 0 <= k < l < |ab|
      ensures ab[k].page <= ab[l].page
    {
      if l < |a| {
        assert ab[k] == a[k] && ab[l] == a[l];
      } else if k < |a| {
        assert ab[k] == a[k] && ab[l] == b[l - |a|];
        assert a[k].page <= n - 1 && b[l - |a|].page == n;
      } else {
        assert ab[k] == b[k - |a|] && ab[l] == b[l - |a|];
        assert b[k - |a|].page == n && b[l - |a|].page == n;
      }
    }
    forall k | 0 <= k < |ab|
      ensures 1 <= ab[k].page <= n
    {
      if k < |a| {
        assert ab[k] == a[k];
      } else {
        assert ab[k] == b[k - |a|];
      }
    }
  }

  /** The document's blocks carry page numbers 1 to |pages|, and never go
      back to an earlier page. */
  lemma {:induction false} DocumentBlocksInPageOrder(pages: seq<Page>)
    ensures PagesWithin(DocumentBlocks(pages), 1, |pages|)
    ensures PagesAscending(DocumentBlocks(pages))
    decreases |pages|
  {
    if pages != [] {
      var n := |pages| - 1;
      DocumentBlocksInPageOrder(pages[..n]);
      PageBlocksOnPage(pages[n], pages[n].blocks, n + 1);
      AppendPagesAscending(DocumentBlocks(pages[..n]), PageBlocks(pages[n], pages[n].blocks, n + 1), n + 1);
    }
  }

  /** extract_formatted_text: each page's blocks, appended in page order. */
  method ExtractFormattedText(pages: seq<Page>) returns (allTextBlocks: seq<Block>)
    ensures allTextBlocks == DocumentBlocks(pages)
  {
    allTextBlocks := [];
    for i := 0 to |pages|
      invariant allTextBlocks == DocumentBlocks(pages[..i])
    {
      assert pages[..i + 1][..i] == pages[..i];
      var pageBlocks := ExtractFormattedTextBlocks(pages[i], i + 1);
      allTextBlocks := allTextBlocks + pageBlocks;
    }
    assert pages[..|pages|] == pages;
  }

  // ---------------------------------------------------------------------
  // extract_outline
  // ---------------------------------------------------------------------

  /** The extractor's answer: a title and the outline entries. */
  datatype Outline = Outline(title: string, outline: seq<Entry>)

  /** The font analyzer's filter: the content filter's validity check. */
  function ValidIn(st: FilterState): Block -> bool {
    b => IsValidContentBlock(st, b)
  }

  /** The filter state after identify_table_patterns and
      identify_headers_footers on the document. */
  function FilterAfter(st0: FilterState, blocks: seq<Block>): FilterState {
    st0.(tablePatterns := st0.tablePatterns + TablePatternTexts(blocks),
         headersFooters := st0.headersFooters + HeaderFooterTexts(blocks))
  }

  /** font_stats after analyze_font_patterns. */
  function StatsAfter(st: FilterState, stats0: Option<FontStats>, blocks: seq<Block>): Option<FontStats> {
    var valid := Filter(blocks, ValidIn(st));
    if valid == [] then stats0 else Some(StatsOf(valid))
  }

  /** What the heading classifier reads once the filter and the analyzer
      have seen the document. */
  function ContextAfter(st0: FilterState, stats0: Option<FontStats>, blocks: seq<Block>): Context {
    var st := FilterAfter(st0, blocks);
    Context(st.tablePatterns, st.headersFooters, StatsAfter(st, stats0, blocks))
  }

  /** extract_outline on the document's blocks, starting from the given
      filter state and font statistics. */
  function OutlineOf(st0: FilterState, stats0: Option<FontStats>, blocks: seq<Block>): Outline {
    if blocks == [] then Outline("Empty Document", [])
    else
      var ctx := ContextAfter(st0, stats0, blocks);
      match DetectTitleSpec(ctx, blocks)
      case None => Outline("Error Processing Document", [])
      case Some(title) => Outline(title, ValidateAll(ctx, MergeAll(ClassifyAll(ctx, blocks))))
  }

  class PdfOutlineExtractor {
    const contentFilter: ContentFilter
    const fontAnalyzer: FontAnalyzer

    /** A new extractor: an empty content filter and no font statistics. */
    constructor ()
      ensures fresh(contentFilter) && fresh(fontAnalyzer)
      ensures contentFilter.State() == FilterState({}, {}, {}, {}, map[])
      ensures fontAnalyzer.fontStats == None
    {
      contentFilter := new ContentFilter();
      fontAnalyzer := new FontAnalyzer();
    }

    /** extract_outline: the stages in order. An empty document stops
        early; a division by a zero page height in detect_title is caught
        and reported as "Error Processing Document". The filter keeps the
        texts it recorded and the analyzer its statistics in every case. */
    method ExtractOutline(pages: seq<Page>) returns (result: Outline)
      modifies contentFilter, fontAnalyzer
      ensures var blocks := DocumentBlocks(pages);
        result == OutlineOf(old(contentFilter.State()), old(fontAnalyzer.fontStats), blocks)
      ensures var blocks := DocumentBlocks(pages);
        if blocks == [] then
          contentFilter.State() == old(contentFilter.State()) && fontAnalyzer.fontStats == old(fontAnalyzer.fontStats)
        else
          contentFilter.State() == FilterAfter(old(contentFilter.State()), blocks) &&
          fontAnalyzer.fontStats == StatsAfter(contentFilter.State(), old(fontAnalyzer.fontStats), blocks)
    {
      ghost var st0 := contentFilter.State();
      ghost var stats0 := fontAnalyzer.fontStats;
      var textBlocks := ExtractFormattedText(pages);
      if textBlocks == [] {
        return Outline("Empty Document", []);
      }
      contentFilter.IdentifyTablePatterns(textBlocks);
      contentFilter.IdentifyHeadersFooters(textBlocks);
      var st := contentFilter.State();
      assert st == FilterAfter(st0, textBlocks);
      var _ := fontAnalyzer.AnalyzeFontPatterns(textBlocks, ValidIn(st));
      assert fontAnalyzer.fontStats == StatsAfter(st, stats0, textBlocks);
      var ctx := Context(contentFilter.tablePatterns, contentFilter.headersFooters, fontAnalyzer.fontStats);
      assert ctx == ContextAfter(st0, stats0, textBlocks);
      var title := DetectTitle(ctx, textBlocks);
      if title.None? {
        return Outline("Error Processing Document", []);
      }
      var headings := ClassifyHeadings(ctx, textBlocks);
      var merged := MergeMultilineHeadings(headings);
      var validated := ValidateAndCleanHeadings(ctx, merged);
      assert validated == FinalEntries(ctx, textBlocks);
      return Outline(title.value, validated);
    }
  }

  // ---------------------------------------------------------------------
  // Properties of the pipeline
  // ---------------------------------------------------------------------

  /** The headings of a document after classification, merging and the
      final clean-up. */
  function FinalEntries(ctx: Context, blocks: seq<Block>): seq<Entry> {
    ValidateAll(ctx, MergeAll(ClassifyAll(ctx, blocks)))
  }

  /** The three outcomes of extract_outline. */
  lemma OutlineOfCases(st0: FilterState, stats0: Option<FontStats>, blocks: seq<Block>)
    ensures var ctx := ContextAfter(st0, stats0, blocks);
      var o := OutlineOf(st0, stats0, blocks);
      && (blocks == [] ==> o == Outline("Empty Document", []))
      && (blocks != [] && DetectTitleSpec(ctx, blocks).None? ==> o == Outline("Error Processing Document", []))
      && (blocks != [] && DetectTitleSpec(ctx, blocks).Some? ==>
            o == Outline(DetectTitleSpec(ctx, blocks).value, FinalEntries(ctx, blocks)))
  {
  }

  /** Every final entry has a level H1, H2 or H3, a cleaned text of 3 to
      200 characters, and the page of a block accepted as a heading. */
  lemma FinalEntriesShape(ctx: Context, blocks: seq<Block>, k: nat)
    requires k < |FinalEntries(ctx, blocks)|
    ensures var e := FinalEntries(ctx, blocks)[k];
      e.level in Levels && 3 <= |e.text| <= 200 && SingleSpaced(e.text) &&
      exists i :: 0 <= i < |blocks| && IsValidHeading(ctx, blocks[i]) && e.page == blocks[i].page
  {
    var merged := MergeAll(ClassifyAll(ctx, blocks));
    var e := FinalEntries(ctx, blocks)[k];
    ValidatedEntriesShape(ctx, merged, k);
    var j :| 0 <= j < |merged| && KeepEntry(ctx, merged[j]) &&
      e.level == merged[j].level && e.page == merged[j].page;
    MergedEntryOrigin(ctx, blocks, j);
  }

  /** Every merged entry has the level of a classified heading and the
      page of a block accepted as a heading. */
  lemma MergedEntryOrigin(ctx: Context, blocks: seq<Block>, j: nat)
    requires j < |MergeAll(ClassifyAll(ctx, blocks))|
    ensures var e := MergeAll(ClassifyAll(ctx, blocks))[j];
      e.level in Levels &&
      exists i :: 0 <= i < |blocks| && IsValidHeading(ctx, blocks[i]) && e.page == blocks[i].page
  {
    var headings := ClassifyAll(ctx, blocks);
    var e := MergeAll(headings)[j];
    assert e in MergeAll(headings);
    MergeAllLevelsAndPages(headings, e);
    var h :| h in headings && e.level == h.level && e.page == h.page;
    var m :| 0 <= m < |headings| && headings[m] == h;
    ClassifiedHeadingsShape(ctx, blocks, m);
  }

  /** Every outline entry has a level H1, H2 or H3, a cleaned text of 3
      to 200 characters, and the page of a block accepted as a heading. */
  lemma OutlineEntriesShape(st0: FilterState, stats0: Option<FontStats>, blocks: seq<Block>, k: nat)
    requires k < |OutlineOf(st0, stats0, blocks).outline|
    ensures var e := OutlineOf(st0, stats0, blocks).outline[k];
      e.level in Levels && 3 <= |e.text| <= 200 && SingleSpaced(e.text) &&
      exists i :: 0 <= i < |blocks| && IsValidHeading(ContextAfter(st0, stats0, blocks), blocks[i]) &&
        e.page == blocks[i].page
  {
    OutlineOfCases(st0, stats0, blocks);
    FinalEntriesShape(ContextAfter(st0, stats0, blocks), blocks, k);
  }

  /** The error outcome happens exactly when a title candidate on the
      first two pages has page height 0. */
  lemma ErrorOutcomeCases(st0: FilterState, stats0: Option<FontStats>, blocks: seq<Block>)
    requires blocks != []
    ensures var ctx := ContextAfter(st0, stats0, blocks);
      var early := EarlyBlocks(blocks);
      (DetectTitleSpec(ctx, blocks).None? <==>
        exists i :: 0 <= i < |early| && TitleCandidate(ctx, early[i]) && early[i].pageHeight == 0.0)
    ensures DetectTitleSpec(ContextAfter(st0, stats0, blocks), blocks).None? ==>
      OutlineOf(st0, stats0, blocks) == Outline("Error Processing Document", [])
  {
    TitleErrorCases(ContextAfter(st0, stats0, blocks), blocks);
    OutlineOfCases(st0, stats0, blocks);
  }

  /** The font statistics the classifier uses come from blocks the content
      filter accepts only: no recorded header/footer or table-pattern
      text, nothing shorter than five characters, no page number. */
  lemma AnalyzedBlocksAreContent(st0: FilterState, blocks: seq<Block>, b: Block)
    requires b in Filter(blocks, ValidIn(FilterAfter(st0, blocks)))
    ensures var st := FilterAfter(st0, blocks); var t := Strip(b.text);
      b in blocks && |t| >= 5 && t !in st.headersFooters && t !in st.tablePatterns &&
      !IsPageNumber(t) && !IsLikelyTableContent(st.tablePatterns, t)
  {
    ValidContentBlockOrder(FilterAfter(st0, blocks), b);
  }

  /** The size hierarchy the classifier uses is strictly descending and
      holds the body size and exactly the larger sizes of the blocks the
      content filter accepts. */
  lemma PipelineHierarchy(st0: FilterState, stats0: Option<FontStats>, blocks: seq<Block>, s: real)
    requires Filter(blocks, ValidIn(FilterAfter(st0, blocks))) != []
    ensures var p := ValidIn(FilterAfter(st0, blocks));
      var stats := ContextAfter(st0, stats0, blocks).fontStats;
      stats.Some? && StrictlyDescending(stats.value.fontSizeHierarchy) &&
      (s in stats.value.fontSizeHierarchy <==>
        s == stats.value.bodyFontSize ||
        (s > stats.value.bodyFontSize && exists b :: b in blocks && p(b) && b.fontSize == s))
  {
    HierarchyOfFiltered(blocks, ValidIn(FilterAfter(st0, blocks)), s);
  }

  // ---------------------------------------------------------------------
  // extract_pdf_outline
  // ---------------------------------------------------------------------

  /** One element of the outline list as the caller sees it: whether it is
      a dictionary, which keys it has, and its values. */
  datatype RawHeading = RawHeading(isDict: bool, keys: set<string>, entry: Entry)

  /** The extractor's result as the caller sees it. `outline` is None when
      the value under "outline" is not a list. */
  datatype RawResult = NotADict | ResultDict(keys: set<string>, title: string, outline: Option<seq<RawHeading>>)

  /** The checked result. */
  datatype Checked = Checked(title: string, outline: seq<RawHeading>)

  /** A heading that survives the final check. */
  predicate WellFormedHeading(h: RawHeading) {
    h.isDict && "level" in h.keys && "text" in h.keys && "page" in h.keys && h.entry.level in Levels
  }

  /** The title and raw outline after the shape checks. */
  function Reshaped(r: RawResult): (string, seq<RawHeading>) {
    if r.NotADict? || "title" !in r.keys || "outline" !in r.keys then ("Processing Error", [])
    else (r.title, if r.outline.None? then [] else r.outline.value)
  }

  function WellFormedIn(hs: seq<RawHeading>): seq<RawHeading> {
    Filter(hs, WellFormedHeading)
  }

  /** The result of extract_pdf_outline's checks. */
  function CheckResult(r: RawResult): Checked {
    var (title, outline) := Reshaped(r);
    Checked(title, WellFormedIn(outline))
  }

  /** The final check keeps exactly the well-formed headings, and a
      result of the wrong shape becomes "Processing Error" with no
      headings. */
  lemma CheckResultSpec(r: RawResult)
    ensures forall h :: h in CheckResult(r).outline ==> WellFormedHeading(h)
    ensures r.ResultDict? && "title" in r.keys && "outline" in r.keys && r.outline.Some? ==>
      CheckResult(r).title == r.title &&
      forall h :: h in r.outline.value ==> (h in CheckResult(r).outline <==> WellFormedHeading(h))
    ensures r.NotADict? || "title" !in r.keys || "outline" !in r.keys ==>
      CheckResult(r) == Checked("Processing Error", [])
    ensures r.ResultDict? && "title" in r.keys && "outline" in r.keys && r.outline.None? ==>
      CheckResult(r) == Checked(r.title, [])
  {
  }

  /** The check keeps the well-formed headings in their original order:
      the k-th checked heading is the one at the k-th well-formed
      position. */
  lemma CheckKeepsOrder(r: RawResult)
    requires r.ResultDict? && "title" in r.keys && "outline" in r.keys && r.outline.Some?
    ensures var hs := r.outline.value;
      var idx := Positions(hs, WellFormedHeading);
      var out := CheckResult(r).outline;
      && (forall k, l :: 0 <= k < l < |idx| ==> idx[k] < idx[l])
      && (forall j :: 0 <= j < |hs| ==> (WellFormedHeading(hs[j]) <==> j in idx))
      && |out| == |idx| && (forall k :: 0 <= k < |idx| ==> out[k] == hs[idx[k]])
  {
    PositionsExact(r.outline.value, WellFormedHeading);
    FilterAtPositions(r.outline.value, WellFormedHeading);
  }

  /** The final check of extract_pdf_outline. */
  method CheckOutline(result: RawResult) returns (checked: Checked)
    ensures checked == CheckResult(result)
  {
    var title: string;
    var outline: seq<RawHeading>;
    if result.NotADict? || "title" !in result.keys || "outline" !in result.keys {
      title, outline := "Processing Error", [];
    } else {
      title := result.title;
      outline := if result.outline.None? then [] else result.outline.value;
    }
    var validatedOutline: seq<RawHeading> := [];
    for i := 0 to |outline|
      invariant validatedOutline == Filter(outline[..i], WellFormedHeading)
    {
      assert outline[..i + 1][..i] == outline[..i];
      var heading := outline[i];
      if heading.isDict && "level" in heading.keys && "text" in heading.keys && "page" in heading.keys &&
         heading.entry.level in Levels {
        validatedOutline := validatedOutline + [heading];
      }
    }
    assert outline[..|outline|] == outline;
    checked := Checked(title, validatedOutline);
  }

  /** The extractor's answer as a dictionary with title and outline keys,
      each entry a dictionary with level, text and page. */
  function AsRaw(o: Outline): RawResult {
    ResultDict({"title", "outline"}, o.title,
      Some(seq(|o.outline|, i requires 0 <= i < |o.outline| => RawHeading(true, {"level", "text", "page"}, o.outline[i]))))
  }

  /** Every level in the extractor's outline is H1, H2 or H3. */
  lemma OutlineLevels(st0: FilterState, stats0: Option<FontStats>, blocks: seq<Block>)
    ensures forall e :: e in OutlineOf(st0, stats0, blocks).outline ==> e.level in Levels
  {
    var out := OutlineOf(st0, stats0, blocks).outline;
    forall e | e in out
      ensures e.level in Levels
    {
      var k :| 0 <= k < |out| && out[k] == e;
      OutlineEntriesShape(st0, stats0, blocks, k);
    }
  }

  /** An outline whose levels are all valid passes the final check
      unchanged. */
  lemma ValidLevelsPassCheck(o: Outline)
    requires forall e :: e in o.outline ==> e.level in Levels
    ensures CheckResult(AsRaw(o)) == Checked(o.title, AsRaw(o).outline.value)
  {
    RawHeadingsWellFormed(o);
  }

  /** The extractor's headings, seen as dictionaries, all pass the
      well-formedness filter when their levels are valid. */
  lemma RawHeadingsWellFormed(o: Outline)
    requires forall e :: e in o.outline ==> e.level in Levels
    ensures WellFormedIn(AsRaw(o).outline.value) == AsRaw(o).outline.value
  {
    var raw := AsRaw(o).outline.value;
    forall i | 0 <= i < |raw|
      ensures WellFormedHeading(raw[i])
    {
      assert o.outline[i] in o.outline;
    }
    FilterKeepsAll(raw, WellFormedHeading);
  }

  /** The final check never changes what the extractor produced: its
      result already has the right shape and every entry a valid level. */
  lemma CheckKeepsExtractorResult(st0: FilterState, stats0: Option<FontStats>, blocks: seq<Block>)
    ensures var o := OutlineOf(st0, stats0, blocks);
      CheckResult(AsRaw(o)) == Checked(o.title, AsRaw(o).outline.value)
  {
    OutlineLevels(st0, stats0, blocks);
    ValidLevelsPassCheck(OutlineOf(st0, stats0, blocks));
  }

  /** extract_pdf_outline: a new extractor, its outline, and the final
      check. */
  method ExtractPdfOutline(pages: seq<Page>) returns (checked: Checked)
    ensures var o := OutlineOf(FilterState({}, {}, {}, {}, map[]), None, DocumentBlocks(pages));
      checked == Checked(o.title, AsRaw(o).outline.value)
  {
    var extractor := new PdfOutlineExtractor();
    var result := extractor.ExtractOutline(pages);
    checked := CheckOutline(AsRaw(result));
    CheckKeepsExtractorResult(FilterState({}, {}, {}, {}, map[]), None, DocumentBlocks(pages));
  }
}
