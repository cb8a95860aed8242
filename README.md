# PDF outline extraction, modelled in Dafny

This project models the outline pipeline of the pdf-parser repository. The
pipeline starts from the text blocks of a PDF: each block has its text, page
number, bounding box, page width and height, font size, font family and
font flag bits. From these blocks it produces a JSON-like result of the form
`{title, outline: [{level, text, page}]}`.

The pipeline runs these steps in order:

- **Text reconstruction** (`challenge_1a/src/text_processor.py`).
  - Spans are concatenated in x order, with a space where there is a gap.
  - Lines are stripped and joined.
  - Each text block gets its formatting from a representative span.
- **Content filtering**, in two versions of `content_filter.py`.
  - Both versions record text that looks like a table row, and headers and footers that repeat.
  - The version under `src/` also records table-of-contents pages, table-of-contents entries and visual table regions.
  - `is_valid_content_block` then answers membership and pattern queries against those sets.
- **Font analysis** (`font_analyzer.py`).
  - The body size and family are the modes over the valid blocks.
  - The size hierarchy is strictly descending.
  - Two queries read it: a visual-distinction test and a three-tier size-to-level map.
- **Heading classification** (`challenge_1a/src/heading_classifier.py`).
  - Decides which blocks are headings and at which level.
  - Runs a final clean-up of the outline.
  - Picks the title as the highest-scoring early block.
- **Pipeline glue** (`src/pdf_extractor.py`).
  - Chains the steps.
  - Maps an empty document and a failure to fixed results.
  - Checks the shape of the final result.

Each source file is one Dafny module:

| module | file | source |
|---|---|---|
| `Strings` | `strings.dfy` | Python string operations: `strip`, `lower`, `split`, `re.sub(r'\s+', ' ', ...)` |
| `Patterns` | `patterns.dfy` | building blocks for the hand-written regular-expression predicates |
| `Seqs` | `seqs.dfy` | list comprehensions with a condition, `max(..., key=...)`, counting |
| `Blocks` | `blocks.dfy` | the block, span, heading and entry records |
| `Utils` | `utils.dfy` | `challenge_1a/src/utils.py` |
| `FilterRules` | `filterrules.dfy` | what both `content_filter.py` copies share |
| `BaseFilter` | `basefilter.dfy` | `challenge_1a/src/content_filter.py` |
| `FullFilter` | `fullfilter.dfy` | `src/content_filter.py` |
| `FontAnalysis` | `fontanalysis.dfy` | `challenge_1a/src/font_analyzer.py`, which is identical to `src/font_analyzer.py` |
| `HeadingClassifier` | `headingclassifier.dfy` | `challenge_1a/src/heading_classifier.py` |
| `TextProcessor` | `textprocessor.dfy` | `challenge_1a/src/text_processor.py` |
| `PdfExtractor` | `pdfextractor.dfy` | `src/pdf_extractor.py` |

The code keeps state in three places, and the model keeps the same shape:

- The content filter's sets are fields of a `ContentFilter` class. Its `identify_*` methods add to them.
- The font statistics are a field of a `FontAnalyzer` class.
- `PdfOutlineExtractor` holds one object of each class and updates both in `ExtractOutline`.

Loops that build a list, set or counter in the source are methods with a loop. Each such method is proved equal to a specification function, and lemmas state what that function guarantees. Code with no state is written as functions and predicates.

Three short-circuit searches are the exception; they are written as functions, not loops:

- the `any(...)` over the patterns of `is_likely_table_content`, `is_toc_heading` and `is_toc_entry` is the predicate `AnyMatch`;
- the early-return loop over the regions of a page in `is_text_in_table` is the recursive function `InAnyRegion`.

Each returns a yes/no answer and changes nothing, so a loop and a recursion give the same result.

The `src/` package imports `utils`, `heading_classifier` and `text_processor` from its own directory. Those three files are not part of this model, so the `challenge_1a/src/` copies stand in for them. The pipeline in `src/pdf_extractor.py` therefore runs the `src/` content filter with the `challenge_1a` classifier and text processor.

## Model

| member | source | states |
|---|---|---|
| Utils.IsLeftOrCenterAligned | challenge_1a/src/utils.py:8-15 | For a positive page width, a block counts as left or centre aligned exactly when x0 < 0.75·width. This is the union of the left rule (x0 < 0.7·width) and the centre band (\|x0 − width/2\| < 0.25·width). For a width ≤ 0 only the left rule can hold. |
| Utils.PageNumberIgnoresCase | challenge_1a/src/utils.py:18-29 | `is_page_number` gives the same answer for a text and for its lower-case form, as its IGNORECASE matching requires. This holds for each of the four forms: 1–3 digits, "Page <digits>", "<n> of <m>" and 1–6 letters from ivxlcdm. |
| Utils.IsPageNumber | challenge_1a/src/utils.py:18-29 | The stripped text is a page number when it matches one of four patterns, ignoring case: 1 to 3 digits; "page", whitespace, digits (a prefix match); "N of M" with whitespace around "of"; 1 to 6 roman-numeral letters. |
| Utils.IsFooterArea | challenge_1a/src/utils.py:32-36 | A block is in the footer area when its top edge y0 is greater than 85% of the page height. |
| Utils.FourDigitsIsNotPageNumber | challenge_1a/src/utils.py:23-26 | "1234" is not a page number: bare digit runs have at most three digits. |
| Utils.SpanBounds | challenge_1a/src/utils.py:44-57 | The min/max accumulation is None (still at its ±inf seeds) exactly when there are no spans. Otherwise every span rectangle lies inside the result. |
| Utils.SpanBoundsAttained | challenge_1a/src/utils.py:49-57 | Each of the four result coordinates is the matching coordinate of some span. |
| Utils.BlockBBox | challenge_1a/src/utils.py:39-57 | A block with no lines gets [0,0,0,0]. With lines, the result is missing exactly when no line has a span. Otherwise it contains every span rectangle. |
| Utils.SpanBoundsStep | challenge_1a/src/utils.py:49-57 | Taking one more span into the accumulation widens the bounds by exactly that span's rectangle. |
| Utils.GetBlockBBox | challenge_1a/src/utils.py:39-57 | The loop over lines and spans computes `BlockBBox`. |
| Utils.RepresentativeSpan | challenge_1a/src/utils.py:60-87 | The result is None only when the block has no spans. It is always one of the block's spans. When every span is blank, it is the first span. Otherwise it is a non-blank span of greatest priority (stripped length, +100 for bold, +2·size), and no earlier non-blank span has that priority. |
| Utils.RepresentativeIsNonBlank | challenge_1a/src/utils.py:69-87 | If some span is non-blank, the chosen span is non-blank. |
| Utils.GetRepresentativeSpan | challenge_1a/src/utils.py:60-87 | The loop that collects spans and then takes the maximum computes `RepresentativeSpan`. |
| Utils.NormalizeHeadingShape | challenge_1a/src/utils.py:93-96 | After whitespace normalisation and bullet removal, the text is stripped and single-spaced, starts with no bullet glyph or space, and is no longer than the input. |
| Utils.CleanHeadingText | challenge_1a/src/utils.py:90-104 | The cleaned heading is stripped and has no whitespace runs. It does not start with a bullet glyph (•, -, *, +, ►, ▪, ▫, ◦, ‣, ⁃). It is never longer than its input. |
| Utils.CleanHeadingPeriodRule | challenge_1a/src/utils.py:98-104 | All trailing periods are removed, followed by a final strip, exactly when the normalised text ends in '.', has more than one word, and its last word is longer than 3 characters. Otherwise the normalised text is returned unchanged. |
| Utils.CleanTitleText | challenge_1a/src/utils.py:107-110 | Title cleaning changes only whitespace. The result has the same words as the input under `str.split()` and is exactly those words joined by single spaces. So it is single-spaced, keeps the non-space characters in order, and is no longer than the input. |
| FilterRules.MatchingTexts | challenge_1a/src/content_filter.py:15-48 | A text is collected exactly when it is the stripped text of some block and matches the pattern. |
| FilterRules.FirstMatch | challenge_1a/src/content_filter.py:45-48 | The loop stops at the first indicator that matches. It runs past the end exactly when no indicator matches. |
| FilterRules.AddTablePatterns | challenge_1a/src/content_filter.py:15-48 | Only adds to the set: the new set is the old set plus the stripped texts that match at least one table indicator. |
| FilterRules.BottomBandIsFooterArea | challenge_1a/src/content_filter.py:63-67 | For a non-negative page height, a block falls in the bottom band exactly when `is_footer_area` holds. A block is in at most one band, and the top band takes precedence. |
| FilterRules.BandTextsMembers | challenge_1a/src/content_filter.py:54-75 | A text is in the top (bottom) list exactly when some block in that band has that stripped text. Every listed text is stripped. |
| FilterRules.PageSet | challenge_1a/src/content_filter.py:59-60 | A page is counted exactly when some block lies on it, whatever its band. |
| FilterRules.HeaderRule | challenge_1a/src/content_filter.py:81-86 | A top-band text is recorded exactly when its top count is at least max(2, P // 3) and it is not a page number. P is the number of distinct pages. |
| FilterRules.FooterRule | challenge_1a/src/content_filter.py:88-103 | A bottom-band text whose count is below the threshold is never recorded. At or above the threshold it is recorded exactly when one of these holds: it is shorter than 50 characters, it is a page number, it contains a boilerplate keyword, or its count is at least 0.8·P. |
| FilterRules.SingleOccurrenceIsKept | challenge_1a/src/content_filter.py:81-103 | A text that occurs at most once in each band is never recorded as a header or footer, since the threshold is at least 2. |
| FilterRules.HeaderFooterTextsStripped | challenge_1a/src/content_filter.py:57 | Every recorded header or footer text is stripped. |
| FilterRules.SelectHeaders | challenge_1a/src/content_filter.py:84-86 | The loop over the top counter selects exactly the texts the header rule admits. |
| FilterRules.SelectFooters | challenge_1a/src/content_filter.py:92-103 | The loop over the bottom counter selects exactly the texts the footer rule admits. |
| FilterRules.AddHeadersFooters | challenge_1a/src/content_filter.py:50-103 | Only adds to the set: the new set is the old set plus the selected headers and footers. |
| FilterRules.StoredPatternIsTableContent | challenge_1a/src/content_filter.py:105-111 | Every (stripped) text already in `table_patterns` is likely table content. |
| FilterRules.ShortWordIsTableContent | challenge_1a/src/content_filter.py:129-133 | A text of 1 to 5 word characters is likely table content. |
| FilterRules.IsLikelyTableContent | challenge_1a/src/content_filter.py:105-133 | The stripped text is likely table content when it is a recorded table pattern, or when it matches one of the seven fixed patterns, ignoring case. Both copies of `content_filter.py` have this same method. |
| BaseFilter.ContentFilter.constructor | challenge_1a/src/content_filter.py:11-13 | Both sets start empty. |
| BaseFilter.ContentFilter.IdentifyTablePatterns | challenge_1a/src/content_filter.py:15-48 | `table_patterns` gains exactly the matching stripped texts, and `headers_footers` is unchanged. |
| BaseFilter.ContentFilter.IdentifyHeadersFooters | challenge_1a/src/content_filter.py:50-103 | `headers_footers` gains exactly the selected texts, and `table_patterns` is unchanged. |
| BaseFilter.TablePatternTextsStripped | challenge_1a/src/content_filter.py:18-47 | Every recorded table pattern is stripped. |
| BaseFilter.ValidContentBlockRejects | challenge_1a/src/content_filter.py:135-147 | A block is not valid content when any of these holds: its stripped text is shorter than 5, it is in `table_patterns` or `headers_footers`, or it is a page number. |
| BaseFilter.ValidityIgnoresPlacement | challenge_1a/src/content_filter.py:135-147 | Validity depends only on the stripped text, not on the page or position. |
| BaseFilter.ValidityAntitone | challenge_1a/src/content_filter.py:135-145 | Enlarging the sets can only turn a valid block invalid, never the reverse. |
| BaseFilter.RecordedPatternIsTableContent | challenge_1a/src/content_filter.py:105-111 | For a filter in its valid state, every recorded table pattern is likely table content. |
| BaseFilter.IsValidContentBlock | challenge_1a/src/content_filter.py:135-147 | A block is valid when its stripped text has at least 5 characters, is neither a recorded table pattern nor a recorded header or footer, is no page number, and is not likely table content. |
| FullFilter.ShortTextIsNoTocEntry | src/content_filter.py:266-272 | A text whose stripped form is shorter than 3 characters is never a table-of-contents entry. |
| FullFilter.ValidTableHasContent | src/content_filter.py:79-112 | A matrix accepted as a table has at least 2 rows, a first row of at least 2 cells, and at least one non-empty cell. |
| FullFilter.IsValidTableStructure | src/content_filter.py:73-112 | The counting loop computes `ValidTableStructure`. A matrix is rejected when it is empty, has fewer than 2 rows, has a first row shorter than 2, or has fewer than 30% non-empty cells. Otherwise the result is headers ∨ structured data. |
| FullFilter.HasTableHeadersLoop | src/content_filter.py:123-149 | The loop computes `HasTableHeaders`. The result is false for fewer than 2 rows or an empty first row. Otherwise it is true exactly when the number of header-vocabulary cells is at least half the first-row length. |
| FullFilter.HasStructuredDataLoop | src/content_filter.py:151-185 | The column loop computes `HasStructuredData`. The result is true exactly when some column (of the rows after the first) has ≥ 70% numeric values or ≥ 50% date-like values. Columns with no values are skipped. |
| FullFilter.CollectColumn | src/content_filter.py:166-169 | The inner loop collects the stripped non-empty values of one column from the rows after the first. |
| FullFilter.CountNumeric | src/content_filter.py:175 | The loop counts the values that match `^\d+(\.\d+)?$`. |
| FullFilter.CountDates | src/content_filter.py:180 | The loop counts the values that contain a d/m/y or yyyy-mm-dd date. |
| FullFilter.InAnyRegion | src/content_filter.py:201-215 | The early-return search succeeds exactly when the box lies inside some region enlarged by 5 on every side. |
| FullFilter.InTableRegionIsInvalid | src/content_filter.py:447-449 | A block inside an enlarged table region of its page is not valid content. |
| FullFilter.ValidContentBlockOrder | src/content_filter.py:434-459 | Rejected text (short, recorded, page number, table-like) is invalid, and so is text inside a table region. A table-of-contents heading that passes those checks is valid even if it looks like a TOC entry. Any other text is valid exactly when it is not a TOC entry. |
| FullFilter.TocPhraseCases | src/content_filter.py:253-264 | A lower-cased stripped text is a TOC heading exactly when it is "table of content(s)" (with whitespace runs), "content", "contents", "index" or "toc". |
| FullFilter.PaddedContentsIsTocHeading | src/content_filter.py:253-264 | " CONTENTS " is a TOC heading, because the text is stripped and lower-cased first. |
| FullFilter.LongerPhraseIsNoTocHeading | src/content_filter.py:253-264 | "contents page" is not a TOC heading, because the patterns are anchored at the end. |
| FullFilter.IndexHeadingIsRejected | src/content_filter.py:429-453 | "index" is a TOC heading, yet a block reading "index" is never valid content. Its five word characters match the short-text table pattern, and that basic filter runs before the TOC-heading exception. |
| FullFilter.ValidityAntitone | src/content_filter.py:434-449 | Growing any of the sets or adding table regions can only turn a valid block invalid. |
| FullFilter.TocPagesMembers | src/content_filter.py:220-238 | A page is marked exactly when some TOC heading is on page p and the page is p, p+1, or p−1 with p > 1. |
| FullFilter.TocEntryTextsMembers | src/content_filter.py:240-251 | Every recorded TOC text comes from a block on a marked page. It is not a TOC heading, it is a TOC entry, and it has at least 3 characters. |
| FullFilter.ValidRegionsMembers | src/content_filter.py:44-48 | A page's region list holds exactly the bounding boxes of the detected tables whose cell matrix passes the structure check. |
| FullFilter.RegionsOf | src/content_filter.py:22-48 | The region map has an entry for every page 1..n, even a page without tables. |
| FullFilter.RegionsOfPage | src/content_filter.py:41-48 | The entry for page p lists the valid regions of that page's tables. |
| FullFilter.ContentFilter.constructor | src/content_filter.py:10-16 | All sets and the region map start empty. |
| FullFilter.ContentFilter.IdentifyVisualTables | src/content_filter.py:18-71 | Given the detected tables per page, the region map is overwritten page by page with the valid regions. All other state is unchanged. |
| FullFilter.ContentFilter.RecordPageTables | src/content_filter.py:41-48 | One page's entry is replaced by the valid regions of its tables. |
| FullFilter.ContentFilter.IdentifyTableOfContents | src/content_filter.py:217-251 | Pages are marked first. TOC entries are then collected on the updated page set. Nothing else changes. |
| FullFilter.ContentFilter.MarkTocPages | src/content_filter.py:220-238 | `toc_pages` gains exactly the neighbourhoods of TOC headings. |
| FullFilter.ContentFilter.MarkNeighbourhood | src/content_filter.py:233-237 | Adds p and p+1, and p−1 only when p > 1. |
| FullFilter.ContentFilter.CollectTocEntries | src/content_filter.py:240-251 | `toc_content` gains exactly the TOC-entry texts on marked pages that are not TOC headings. |
| FullFilter.ContentFilter.IdentifyTablePatterns | src/content_filter.py:320-353 | Only `table_patterns` grows, by the matching stripped texts. |
| FullFilter.ContentFilter.IdentifyHeadersFooters | src/content_filter.py:355-402 | Only `headers_footers` grows, by the selected headers and footers. |
| FullFilter.ContentFilter.ProcessAllFilters | src/content_filter.py:461-470 | Runs, in order: visual tables (when given), TOC detection, table patterns, headers and footers. Each set ends as its old value plus what its stage adds. |
| FullFilter.TocHeadingNeverTocContent | src/content_filter.py:245-247 | A TOC heading is never recorded as TOC content, whatever the document. |
| FullFilter.IsTocHeading | src/content_filter.py:253-264 | A text is a table-of-contents heading when its stripped, lower-cased form matches one of the four anchored patterns. |
| FullFilter.IsTocEntry | src/content_filter.py:266-318 | Stripped text of at least 3 characters is a table-of-contents entry in two cases. Either it matches one of the nine entry patterns, ignoring case. Or it has a standalone 1-3 digit number, some alphabetic word longer than two letters and some all-digit word. |
| FullFilter.IsTextInTable | src/content_filter.py:187-215 | A block is in a table when its page has recorded regions and its bbox lies inside one of them, each region grown by 5 points on every side. |
| FullFilter.IsValidContentBlock | src/content_filter.py:434-459 | The checks in source order. The block is rejected if its stripped text is short, is a recorded pattern, header, footer or TOC text, is a page number, or is likely table content. It is then rejected if it lies in a table region. Past those checks, a TOC heading is kept and a TOC entry is rejected. |
| FontAnalysis.MostCommon | challenge_1a/src/font_analyzer.py:30-33 | `most_common(1)` returns a value of the list that occurs at least as often as any other. Among equally frequent values it returns the one seen first. |
| FontAnalysis.UniqueDescending | challenge_1a/src/font_analyzer.py:36 | `sorted(set(sizes), reverse=True)` is strictly descending and has exactly the sizes of the list. |
| FontAnalysis.HierarchyShape | challenge_1a/src/font_analyzer.py:39-48 | The hierarchy is strictly descending and ends with the body size. It contains exactly the body size and the unique sizes above it. |
| FontAnalysis.HierarchyOfDocument | challenge_1a/src/font_analyzer.py:28-48 | For a non-empty list of valid blocks, the hierarchy is strictly descending and ends with the body size. A size is in it exactly when it is the body size or is larger and used by some valid block. |
| FontAnalysis.FilteredSizes | challenge_1a/src/font_analyzer.py:16-19 | A size occurs among the kept blocks exactly when some input block that passes the filter has it. |
| FontAnalysis.HierarchyOfFiltered | challenge_1a/src/font_analyzer.py:16-48 | The same, stated over all blocks: only the blocks the filter accepts contribute sizes. |
| FontAnalysis.BodyIsMostCommon | challenge_1a/src/font_analyzer.py:29-49 | No valid size is more frequent than the body size. The body size is among the unique sizes. The body family is the family of some valid block. |
| FontAnalysis.HierarchyNonEmpty | challenge_1a/src/font_analyzer.py:48 | After an analysis with valid blocks the hierarchy is non-empty. |
| FontAnalysis.FontAnalyzer.constructor | challenge_1a/src/font_analyzer.py:9-11 | A new analyzer has no statistics. |
| FontAnalysis.FontAnalyzer.AnalyzeFontPatterns | challenge_1a/src/font_analyzer.py:13-52 | Without valid blocks it returns (12.0, "Arial", []) and leaves `font_stats` as it was. Otherwise it returns, and stores, the statistics of the valid blocks in input order. |
| FontAnalysis.VisualDistinctionCases | challenge_1a/src/font_analyzer.py:54-64 | Without statistics a block is never distinct. With statistics, bold (flag 16), italic (flag 2), a larger size or a different family each make it distinct. A plain block in the body size and family is not distinct. |
| FontAnalysis.FontSizeLevel | challenge_1a/src/font_analyzer.py:66-83 | The level is in {1,2,3}. Without statistics or hierarchy it is 2. Otherwise it is 1 exactly above body+2, and 3 exactly at or below the body size. |
| FontAnalysis.FontSizeLevelMonotone | challenge_1a/src/font_analyzer.py:78-83 | A larger font size never gets a larger level number. |
| FontAnalysis.LevelTwoBand | challenge_1a/src/font_analyzer.py:78-83 | After an analysis with valid blocks, level 2 means body < size ≤ body+2. |
| FontAnalysis.HasVisualDistinction | challenge_1a/src/font_analyzer.py:54-64 | Without font statistics no block is distinct. With them, a block is distinct when it is bold (flag 16), italic (flag 2), larger than the body size, or in another font family. |
| PdfExtractor.AnalyzedBlocksAreContent | src/font_analyzer.py:16-19 | In the pipeline, every block that feeds the font statistics passes the `src/` content filter after its stages have run. It has at least 5 characters, is not recorded, is not a page number and is not table-like. |
| PdfExtractor.PipelineHierarchy | src/font_analyzer.py:13-48 | In the pipeline, the stored hierarchy is strictly descending. It contains exactly the body size and the larger sizes of the valid blocks. |
| HeadingClassifier.LevelName | challenge_1a/src/heading_classifier.py:94-95 | f"H{n}" for a level 1..3 is the n-th of "H1", "H2", "H3". |
| HeadingClassifier.IsValidHeading | challenge_1a/src/heading_classifier.py:33-78 | The checks of `is_valid_heading` in order. First the length and table filters. Then the header/footer set, where long footer-area text without a boilerplate keyword is exempt. Then alignment. Last, visual distinction together with a heading cue. |
| HeadingClassifier.ValidHeadingCases | challenge_1a/src/heading_classifier.py:33-78 | A block is rejected in each of these cases: a length or table test fails; its text is a header or footer without the footer exemption (more than 30 characters, in the footer area, no boilerplate word); it is not aligned; or it has no visual distinction. Otherwise it is accepted exactly when it has a heading cue: an "N." or "N.N" prefix, a section word, a trailing ':', or an upper-case first letter with at most 10 words. |
| HeadingClassifier.ValidHeadingBounds | challenge_1a/src/heading_classifier.py:38-42 | An accepted heading has 3..200 characters, is not a recorded table pattern, and font statistics exist. |
| HeadingClassifier.DetermineHeadingLevel | challenge_1a/src/heading_classifier.py:80-95 | The level is always "H1", "H2" or "H3". |
| HeadingClassifier.SubsectionIsNumbered | challenge_1a/src/heading_classifier.py:86-89 | Every text matching `^\d+\.\d+` also matches `^\d+\.`, so the "N.N → H2" branch is never reached. |
| HeadingClassifier.HeadingLevelCases | challenge_1a/src/heading_classifier.py:80-95 | A numbered text or one of the three fixed titles gives H1. Any other text gets "H" + the font-size level. H2 therefore only ever comes from font level 2. |
| HeadingClassifier.SubsectionNumberIsH1 | challenge_1a/src/heading_classifier.py:86-89 | "2.1 Scope" gets H1, not H2. |
| HeadingClassifier.ClassifyAllIsFilter | challenge_1a/src/heading_classifier.py:14-31 | There is exactly one heading per accepted block, in input order. The k-th heading is built from the k-th accepted block: its level, cleaned text, page, font size and bbox. |
| HeadingClassifier.ClassifiedHeadingsShape | challenge_1a/src/heading_classifier.py:14-31 | Every heading has a level in H1..H3 and comes from an accepted input block. |
| HeadingClassifier.ClassifyHeadings | challenge_1a/src/heading_classifier.py:14-31 | The loop computes `ClassifyAll`. |
| HeadingClassifier.KeptIndicesExact | challenge_1a/src/heading_classifier.py:97-122 | The kept positions increase, and a position is kept exactly when its entry passes the length, table and cleaned-length tests. |
| HeadingClassifier.ValidateAllAtKept | challenge_1a/src/heading_classifier.py:97-122 | The output is an in-order subsequence: the k-th output is the cleaned entry at the k-th kept position. |
| HeadingClassifier.ValidatedEntriesShape | challenge_1a/src/heading_classifier.py:97-122 | Every output text has 3..200 characters and is single-spaced. The level and page come from a kept input entry. |
| HeadingClassifier.ValidateAndCleanHeadings | challenge_1a/src/heading_classifier.py:97-122 | The loop computes `ValidateAll`. |
| HeadingClassifier.EarlyBlocks | challenge_1a/src/heading_classifier.py:127 | A block is early exactly when it is on page 1 or 2. |
| HeadingClassifier.Best | challenge_1a/src/heading_classifier.py:169-171 | `max(candidates, key=score)` picks a candidate of highest score, the first such one. |
| HeadingClassifier.CandidatesErrorCases | challenge_1a/src/heading_classifier.py:130-167 | Scoring raises the division error exactly when some candidate's page height is 0. |
| HeadingClassifier.TitleErrorCases | challenge_1a/src/heading_classifier.py:124-173 | `detect_title` fails exactly when some early block passes the filters and has page height 0. |
| HeadingClassifier.CandidatesFromBlocks | challenge_1a/src/heading_classifier.py:130-167 | Every candidate is the stripped text of a block that passes the filters, with that block's score. |
| HeadingClassifier.CandidatesExact | challenge_1a/src/heading_classifier.py:130-167 | Without the division error, the candidate list is exactly the passing blocks, each as its stripped text and score, in input order. No passing block is skipped and nothing else is added. |
| HeadingClassifier.NoCandidateIsUntitled | challenge_1a/src/heading_classifier.py:169-173 | When no early block passes the filters, the title is "Untitled Document". |
| HeadingClassifier.TitleIsBestCandidate | challenge_1a/src/heading_classifier.py:169-171 | When there are candidates, the title is the cleaned text of the first candidate with the highest score. |
| HeadingClassifier.TitleBeatsEveryPassingBlock | challenge_1a/src/heading_classifier.py:124-171 | When detection succeeds and some block of pages 1-2 passes the filters, the title is the cleaned text of a passing early block. That block's score is at least the score of every passing early block, and strictly greater than those before it. |
| HeadingClassifier.LaterPagesIgnored | challenge_1a/src/heading_classifier.py:127 | Appending blocks from pages after 2 never changes the title. |
| HeadingClassifier.FirstPageScoresMore | challenge_1a/src/heading_classifier.py:157 | The same block scores exactly 10 more on page 1 than on page 2. |
| HeadingClassifier.DetectTitle | challenge_1a/src/heading_classifier.py:124-173 | The loop computes `DetectTitleSpec`, including the division error. |
| TextProcessor.InsertByXSorted | challenge_1a/src/text_processor.py:21 | Inserting a span into a list sorted by x0 keeps it sorted. |
| TextProcessor.SortByX | challenge_1a/src/text_processor.py:21 | Sorting by x0 permutes the spans: same length, same multiset. |
| TextProcessor.SortByXSorted | challenge_1a/src/text_processor.py:21 | The sorted spans are in ascending x0 order. |
| TextProcessor.LineText | challenge_1a/src/text_processor.py:17-32 | A line's text is its span texts in the given order. One space goes before a span when the previous span ends at a non-zero x, the gap is wider than 3 points, and the text so far does not already end in a space. |
| TextProcessor.LineTextOnlyAddsSpaces | challenge_1a/src/text_processor.py:23-33 | A line's text has the same non-space characters as the plain concatenation of its spans. Its length is at least that of the concatenation and at most that plus one per span. |
| TextProcessor.SeparatedSpansGetSpace | challenge_1a/src/text_processor.py:28-32 | A space goes between two spans when all three hold: the previous x1 is non-zero, the gap is more than 3, and the first text does not end in a space. |
| TextProcessor.TouchingSpansJoin | challenge_1a/src/text_processor.py:28-32 | Spans with a gap of at most 3 are joined directly. |
| TextProcessor.BlockLineTexts | challenge_1a/src/text_processor.py:35-36 | Blank lines are dropped. Every kept line text is non-empty and stripped. |
| TextProcessor.BlockText | challenge_1a/src/text_processor.py:34-39 | A block's text is the stripped texts of its non-blank lines, joined by single spaces. |
| TextProcessor.BlockTextSpec | challenge_1a/src/text_processor.py:12-39 | The block text is stripped and has exactly the non-space characters of the sorted spans, line by line. It is "" exactly when every line is blank. |
| TextProcessor.LineTextOf | challenge_1a/src/text_processor.py:17-33 | The loop that carries `prev_span_end` computes `LineText`. |
| TextProcessor.ReconstructBlockText | challenge_1a/src/text_processor.py:12-39 | The loop over lines computes `BlockText`. |
| TextProcessor.RepresentedBlockHasBBox | challenge_1a/src/text_processor.py:56-64 | A block with a representative span also has a finite bounding box. |
| TextProcessor.BlockOfShape | challenge_1a/src/text_processor.py:45-72 | A block built from one raw block has non-empty stripped text equal to the block's joined line text. It carries the page number, the page size, and the representative span's size and flags. |
| TextProcessor.PageBlocksShape | challenge_1a/src/text_processor.py:41-72 | Every emitted block has non-empty stripped text, the given page number and the page's size. It comes from a text block with lines whose representative span supplies the size and flags. |
| TextProcessor.ExtractFormattedTextBlocks | challenge_1a/src/text_processor.py:41-72 | The loop over the page's blocks computes `PageBlocks`. |
| TextProcessor.ShouldMergeHeadings | challenge_1a/src/text_processor.py:108-130 | Two headings merge when they share page and level, the second starts at most 30 points below the end of the first, the first does not end in '.' after trailing whitespace is removed, and the two texts have at most 150 characters together. |
| TextProcessor.MergeAll | challenge_1a/src/text_processor.py:74-106 | Front to back, a heading absorbs the next one when they should merge, giving the first's level and page and the stripped joined text. Otherwise it is emitted alone. |
| TextProcessor.MergeAllLength | challenge_1a/src/text_processor.py:74-106 | The output has between ⌈n/2⌉ and n entries, and [] gives []. |
| TextProcessor.MergeAllAt | challenge_1a/src/text_processor.py:82-104 | From position i, the next output is one of two things, and the rest continues after what it used. It is the merge of headings i and i+1 when they should merge; otherwise it is heading i alone. Merged pairs never overlap. |
| TextProcessor.MergeAllWithoutPairs | challenge_1a/src/text_processor.py:86-104 | With no mergeable neighbours, each heading becomes its own entry (level, text, page) in order. |
| TextProcessor.MergedChars | challenge_1a/src/text_processor.py:90-94 | A merged entry carries the non-space characters of the first heading followed by those of the second. |
| TextProcessor.MergeAllKeepsText | challenge_1a/src/text_processor.py:90-101 | Merging keeps every non-space character of the heading texts, in order. |
| TextProcessor.MergeAllLevelsAndPages | challenge_1a/src/text_processor.py:91-103 | Every output entry has the level and page of some input heading. |
| TextProcessor.MergeAllDecomposes | challenge_1a/src/text_processor.py:74-106 | The output cuts the headings into consecutive runs that do not overlap and together cover every heading. Each entry comes from one run: either one heading that does not merge with the next, or two consecutive headings that should merge, merged. |
| TextProcessor.SegmentsDetermineMerge | challenge_1a/src/text_processor.py:74-106 | Any output built from such a cut equals `MergeAll`'s. The greedy front-to-back pairing is the only one the merge rule allows. |
| TextProcessor.MergedPairsAgree | challenge_1a/src/text_processor.py:88-94 | For every merged entry, its two headings share the page and level of the entry. The first does not end in '.' after trailing whitespace is removed. The entry's text has at most 151 characters. |
| TextProcessor.MergeMultilineHeadings | challenge_1a/src/text_processor.py:74-106 | The while loop over i computes `MergeAll`. |
| PdfExtractor.DocumentBlocksInPageOrder | src/pdf_extractor.py:61-86 | The document's blocks are numbered pages 1..n and appear in ascending page order. |
| PdfExtractor.ExtractFormattedText | src/pdf_extractor.py:61-86 | The page loop concatenates each page's blocks, page numbers counting from 1. |
| PdfExtractor.PdfOutlineExtractor.constructor | src/pdf_extractor.py:14-18 | A new extractor owns a fresh, empty content filter and a fresh analyzer without statistics. |
| PdfExtractor.PdfOutlineExtractor.ExtractOutline | src/pdf_extractor.py:20-59 | The result is `OutlineOf` the blocks and the old state. An empty document leaves both objects untouched. Otherwise the filter runs table patterns and then headers and footers, and the analyzer stores the statistics of the blocks that filter accepts. |
| PdfExtractor.OutlineOfCases | src/pdf_extractor.py:20-59 | An empty document gives ("Empty Document", []). A failing title detection gives ("Error Processing Document", []). Otherwise the result is the title and validate(merge(classify(blocks))). |
| PdfExtractor.MergedEntryOrigin | src/pdf_extractor.py:42-46 | Every merged entry has a level in H1..H3 and the page of a block accepted as a heading. |
| PdfExtractor.FinalEntriesShape | src/pdf_extractor.py:42-48 | Every final entry has a level in H1..H3, 3..200 characters, single spacing, and the page of an accepted heading block. |
| PdfExtractor.OutlineEntriesShape | src/pdf_extractor.py:20-59 | Every entry of the extractor's outline has that shape, measured against the filter and statistics the pipeline itself computed. |
| PdfExtractor.ErrorOutcomeCases | src/pdf_extractor.py:38-59 | For a non-empty document, title detection fails exactly when an early block that passes the filters has page height 0. That failure gives ("Error Processing Document", []). |
| PdfExtractor.CheckResultSpec | src/pdf_extractor.py:118-135 | A result that is not a dictionary, or lacks title or outline, becomes ("Processing Error", []). An outline that is not a list becomes []. Otherwise the title is kept and a heading survives exactly when it is a dictionary with level, text and page and a level in H1..H3. |
| PdfExtractor.CheckKeepsOrder | src/pdf_extractor.py:125-135 | The surviving headings keep their order: the k-th survivor is the heading at the k-th well-formed position. |
| PdfExtractor.CheckOutline | src/pdf_extractor.py:118-135 | The validation loop computes `CheckResult`. |
| PdfExtractor.CheckKeepsExtractorResult | src/pdf_extractor.py:113-135 | The final check never changes the extractor's own result: it already has the right shape, and every level is valid. |
| PdfExtractor.ExtractPdfOutline | src/pdf_extractor.py:113-135 | `extract_pdf_outline` returns the outline computed from an empty filter and no statistics, unchanged by its checks. |

## Left out

- Opening PDFs with pymupdf and pdfplumber is not modelled. This covers `page.get_text("dict")`, page sizes and `find_tables`. Pages, their raw blocks, and the detected tables with their cell matrices are inputs. `IdentifyVisualTables` takes the detected tables per page, or none, in place of a PDF path.
- The exception fallback in `_is_valid_table_structure` (size heuristics on the table bbox) is not modelled. The `visual_tables` dictionary and `get_table_debug_info` are also left out: they are debug output only.
- Debug-file writing, the JSON save in `extract_pdf_outline`, printing and tracebacks are I/O and are left out. The directory-scanning `process_pdfs.py` scripts and the package `__init__.py` files are left out too.
- Python's `re` engine is not modelled. Each pattern is a hand-written predicate with the same anchoring and IGNORECASE treatment. Whitespace (`\s`, `strip`, `split`) is the full set that `str.isspace` accepts. `\d`, `\w`, `isalpha`, `isupper` and `lower` are taken over ASCII, so non-ASCII letters and digits are not recognised and non-ASCII capitals are not lowered.
- `round(size, 1)` is not modelled. A block's font size is its representative span's size as given.
- Floating point is modelled with real numbers: no NaN, no infinities, no rounding. The ±inf seeds of `get_block_bbox` appear only as the None result for a block whose lines have no spans.
- Counter tie-breaking is modelled as first-seen among equally frequent values. The lemmas only rely on "a most frequent value".
- In `ExtractOutline`, the only exception modelled is the `ZeroDivisionError` of `detect_title` on a zero page height. Other exceptions are not modelled. These include missing keys, which cannot arise from the records here, and failures inside the PDF libraries.
- Building `is_text_in_table`'s block bbox is not modelled. The "no bbox" case cannot occur: every block record carries a bbox.
- `src/heading_classifier.py`, `src/text_processor.py` and `src/utils.py` are not part of this model. Their `challenge_1a/src/` counterparts stand in for them.
- FullFilter.ValidTableHasContent: states only that an accepted matrix has at least one non-empty cell, not the full 30% ratio. The ratio itself is part of `ValidTableStructure`, which `IsValidTableStructure` computes.
- TextProcessor.SortByX: states a sorted permutation. It does not state stability (the order of spans with equal x0), although the insertion keeps equal spans in input order.
- PdfExtractor.PdfOutlineExtractor.ExtractOutline: the table-of-contents and visual-table stages are never called in `src/pdf_extractor.py`. The model keeps that: those sets stay as they were, empty for a new extractor.
