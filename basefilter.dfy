/** challenge_1a/src/content_filter.py: the content filter without the
    table-of-contents and visual-table rules. Its two sets of exact text
    values are built once per document and then only queried. */
module BaseFilter {
  import opened Strings
  import opened Blocks
  import opened Utils
  import opened FilterRules

  /** Every recorded value is a stripped text. */
  predicate AllStripped(texts: set<string>) {
    forall t :: t in texts ==> IsStripped(t)
  }

  class ContentFilter {
    var headersFooters: set<string>
    var tablePatterns: set<string>

    ghost predicate Valid()
      reads this
    {
      AllStripped(headersFooters) && AllStripped(tablePatterns)
    }

    constructor ()
      ensures Valid()
      ensures headersFooters == {} && tablePatterns == {}
    {
      headersFooters := {};
      tablePatterns := {};
    }

    /** identify_table_patterns: adds every stripped block text that
        matches a table indicator; the header/footer set is untouched. */
    method IdentifyTablePatterns(blocks: seq<Block>)
      requires Valid()
      modifies this
      ensures Valid()
      ensures tablePatterns == old(tablePatterns) + TablePatternTexts(blocks)
      ensures headersFooters == old(headersFooters)
    {
      TablePatternTextsStripped(blocks);
      tablePatterns := AddTablePatterns(tablePatterns, blocks);
    }

    /** identify_headers_footers: adds the recurring top- and bottom-band
        texts; the table-pattern set is untouched. */
    method IdentifyHeadersFooters(blocks: seq<Block>)
      requires Valid()
      modifies this
      ensures Valid()
      ensures headersFooters == old(headersFooters) + HeaderFooterTexts(blocks)
      ensures tablePatterns == old(tablePatterns)
    {
      HeaderFooterTextsStripped(blocks);
      headersFooters := AddHeadersFooters(headersFooters, blocks);
    }
  }

  /** Every value identify_table_patterns records is stripped. */
  lemma TablePatternTextsStripped(blocks: seq<Block>)
    ensures AllStripped(TablePatternTexts(blocks))
  {
    forall t | t in TablePatternTexts(blocks)
      ensures IsStripped(t)
    {
      var i :| 0 <= i < |blocks| && Strip(blocks[i].text) == t && TableIndicator(t);
      StripSpec(blocks[i].text);
    }
  }

  /** is_valid_content_block, over the filter's two sets. */
  predicate IsValidContentBlock(tablePatterns: set<string>, headersFooters: set<string>, b: Block) {
    var t := Strip(b.text);
    !(|t| < 5 || t in tablePatterns || t in headersFooters || IsPageNumber(t) ||
      IsLikelyTableContent(tablePatterns, t))
  }

  /** A valid block has at least five characters after stripping, is in
      neither set, is no page number and no likely table content. */
  lemma ValidContentBlockRejects(tablePatterns: set<string>, headersFooters: set<string>, b: Block)
    ensures |Strip(b.text)| < 5 ==> !IsValidContentBlock(tablePatterns, headersFooters, b)
    ensures Strip(b.text) in tablePatterns + headersFooters ==>
      !IsValidContentBlock(tablePatterns, headersFooters, b)
    ensures IsPageNumber(b.text) ==> !IsValidContentBlock(tablePatterns, headersFooters, b)
  {
    StripIdempotent(b.text);
  }

  /** The decision depends on the text alone: two blocks with the same
      stripped text get the same answer, whatever their pages or positions. */
  lemma ValidityIgnoresPlacement(tablePatterns: set<string>, headersFooters: set<string>, a: Block, b: Block)
    requires Strip(a.text) == Strip(b.text)
    ensures IsValidContentBlock(tablePatterns, headersFooters, a) ==
            IsValidContentBlock(tablePatterns, headersFooters, b)
  {
  }

  /** Larger sets reject more: growing either set can only turn a valid
      block invalid. */
  lemma ValidityAntitone(tp: set<string>, hf: set<string>, tp': set<string>, hf': set<string>, b: Block)
    requires tp <= tp' && hf <= hf'
    ensures IsValidContentBlock(tp', hf', b) ==> IsValidContentBlock(tp, hf, b)
  {
  }

  /** Every recorded table pattern, on any page, is likely table content. */
  lemma RecordedPatternIsTableContent(f: ContentFilter, text: string)
    requires f.Valid() && text in f.tablePatterns
    ensures IsLikelyTableContent(f.tablePatterns, text)
  {
    StoredPatternIsTableContent(f.tablePatterns, text);
  }
}
