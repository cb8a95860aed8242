/** challenge_1a/src/text_processor.py: rebuilding a block's text from its
    spans, turning a page's raw blocks into text blocks, and merging a
    heading with the next one when it continues on the following line. */
module TextProcessor {
  import opened Strings
  import opened Seqs
  import opened Blocks
  import opened Utils

  // ---------------------------------------------------------------------
  // sorted(line["spans"], key=lambda s: s["bbox"][0])
  // ---------------------------------------------------------------------

  predicate SortedByX(spans: seq<Span>) {
    forall i, j :: 0 <= i < j < |spans| ==> spans[i].bbox.x0 <= spans[j].bbox.x0
  }

  /** Inserts s after every span whose x0 is not larger, as a stable sort
      does for the span that comes last in the input. */
  function InsertByX(sorted: seq<Span>, s: Span): (r: seq<Span>)
    ensures |r| == |sorted| + 1
    ensures multiset(r) == multiset(sorted) + multiset{s}
  {
    if sorted == [] then [s]
    else
      var n := |sorted| - 1;
      if sorted[n].bbox.x0 <= s.bbox.x0 then sorted + [s]
      else
        assert sorted == sorted[..n] + [sorted[n]];
        InsertByX(sorted[..n], s) + [sorted[n]]
  }

  /** No span starts right of bound. */
  predicate XAtMost(spans: seq<Span>, bound: real) {
    forall i :: 0 <= i < |spans| ==> spans[i].bbox.x0 <= bound
  }

  /** Inserting keeps every x0 below a bound that all inputs respect. */
  lemma {:induction false} InsertByXBounded(sorted: seq<Span>, s: Span, bound: real)
    requires XAtMost(sorted, bound) && s.bbox.x0 <= bound
    ensures XAtMost(InsertByX(sorted, s), bound)
    decreases |sorted|
  {
    if sorted != [] {
      var n := |sorted| - 1;
      var init := sorted[..n];
      assert XAtMost(init, bound);
      if sorted[n].bbox.x0 > s.bbox.x0 {
        InsertByXBounded(init, s, bound);
        var r := InsertByX(init, s);
        assert InsertByX(sorted, s) == r + [sorted[n]];
      } else {
        assert InsertByX(sorted, s) == sorted + [s];
      }
    }
  }

  lemma {:induction false} InsertByXSorted(sorted: seq<Span>, s: Span)
    requires SortedByX(sorted)
    ensures SortedByX(InsertByX(sorted, s))
    decreases |sorted|
  {
    if sorted != [] {
      var n := |sorted| - 1;
      var last := sorted[n];
      if last.bbox.x0 > s.bbox.x0 {
        var init := sorted[..n];
        InsertByXSorted(init, s);
        assert XAtMost(init, last.bbox.x0);
        InsertByXBounded(init, s, last.bbox.x0);
        var r := InsertByX(init, s);
        assert InsertByX(sorted, s) == r + [last];
      } else {
        assert forall i :: 0 <= i < |sorted| ==> sorted[i].bbox.x0 <= s.bbox.x0;
      }
    }
  }

  /** The spans of a line in x order; equal x0 keep their input order. */
  function SortByX(spans: seq<Span>): (r: seq<Span>)
    ensures |r| == |spans|
    ensures multiset(r) == multiset(spans)
  {
    if spans == [] then []
    else
      var n := |spans| - 1;
      assert spans == spans[..n] + [spans[n]];
      InsertByX(SortByX(spans[..n]), spans[n])
  }

  /** The sorted line is ordered by x0 and is a permutation of the line. */
  lemma {:induction false} SortByXSorted(spans: seq<Span>)
    ensures SortedByX(SortByX(spans))
    decreases |spans|
  {
    if spans != [] {
      var n := |spans| - 1;
      SortByXSorted(spans[..n]);
      InsertByXSorted(SortByX(spans[..n]), spans[n]);
    }
  }

  // ---------------------------------------------------------------------
  // reconstruct_block_text
  // ---------------------------------------------------------------------

  /** A space goes between two spans when the previous one ends at a
      nonzero x, the gap is wider than 3, and the text so far does not
      already end in a space. */
  predicate NeedsGap(text: string, prevEnd: real, s: Span) {
    prevEnd != 0.0 && s.bbox.x0 - prevEnd > 3.0 && !EndsWithChar(text, ' ')
  }

  /** The text of one line, its spans taken in the given order. */
  function LineText(spans: seq<Span>): string {
    if spans == [] then ""
    else
      var n := |spans| - 1;
      var t := LineText(spans[..n]);
      (if n > 0 && NeedsGap(t, spans[n - 1].bbox.x1, spans[n]) then t + " " else t) + spans[n].text
  }

  /** The span texts one after another, with nothing in between. */
  function SpanConcat(spans: seq<Span>): string {
    if spans == [] then "" else SpanConcat(spans[..|spans| - 1]) + spans[|spans| - 1].text
  }

  /** The last span of a line, with the space that may precede it. */
  lemma LineTextLast(spans: seq<Span>)
    requires spans != []
    ensures var n := |spans| - 1;
      var t := LineText(spans[..n]);
      LineText(spans) == (t + (if n > 0 && NeedsGap(t, spans[n - 1].bbox.x1, spans[n]) then " " else "")) + spans[n].text
  {
  }

  /** Rebuilding a line only inserts spaces: its non-whitespace characters
      are those of the spans in order, and at most one character per span
      is added. */
  lemma LineTextOnlyAddsSpaces(spans: seq<Span>)
    ensures NonSpace(LineText(spans)) == NonSpace(SpanConcat(spans))
    ensures |SpanConcat(spans)| <= |LineText(spans)| <= |SpanConcat(spans)| + |spans|
  {
    LineTextNonSpace(spans);
    LineTextLength(spans);
  }

  lemma {:induction false} LineTextNonSpace(spans: seq<Span>)
    ensures NonSpace(LineText(spans)) == NonSpace(SpanConcat(spans))
    decreases |spans|
  {
    if spans != [] {
      var n := |spans| - 1;
      var t := LineText(spans[..n]);
      var c := SpanConcat(spans[..n]);
      var s := spans[n];
      var gap: string := if n > 0 && NeedsGap(t, spans[n - 1].bbox.x1, s) then " " else "";
      LineTextLast(spans);
      assert SpanConcat(spans) == c + s.text;
      LineTextNonSpace(spans[..n]);
      NonSpaceAppend(c, s.text);
      NonSpaceAppend(t, gap);
      assert NonSpace(gap) == [];
      NonSpaceAppend(t + gap, s.text);
    }
  }

  lemma {:induction false} LineTextLength(spans: seq<Span>)
    ensures |SpanConcat(spans)| <= |LineText(spans)| <= |SpanConcat(spans)| + |spans|
    decreases |spans|
  {
    if spans != [] {
      var n := |spans| - 1;
      LineTextLast(spans);
      LineTextLength(spans[..n]);
    }
  }

  /** Two spans further apart than 3 points get a space between them. */
  lemma SeparatedSpansGetSpace(a: Span, b: Span)
    requires a.bbox.x1 != 0.0 && b.bbox.x0 - a.bbox.x1 > 3.0 && !EndsWithChar(a.text, ' ')
    ensures LineText([a, b]) == a.text + " " + b.text
  {
    assert [a, b][..1] == [a];
    assert [a][..0] == [];
    assert LineText([a]) == a.text;
  }

  /** Adjacent spans are joined without a space. */
  lemma TouchingSpansJoin(a: Span, b: Span)
    requires b.bbox.x0 - a.bbox.x1 <= 3.0
    ensures LineText([a, b]) == a.text + b.text
  {
    assert [a, b][..1] == [a];
    assert [a][..0] == [];
    assert LineText([a]) == a.text;
  }

  /** The stripped texts of the non-blank lines. */
  function BlockLineTexts(lines: seq<Line>): (ts: seq<string>)
    ensures forall k :: 0 <= k < |ts| ==> ts[k] != [] && IsStripped(ts[k])
  {
    if lines == [] then []
    else
      var n := |lines| - 1;
      var t := LineText(SortByX(lines[n].spans));
      StripSpec(t);
      BlockLineTexts(lines[..n]) + (if Strip(t) != [] then [Strip(t)] else [])
  }

  /** reconstruct_block_text */
  function BlockText(lines: seq<Line>): string {
    JoinWith(BlockLineTexts(lines), " ")
  }

  /** The non-whitespace characters of a run of texts. */
  function NonSpaceAll(parts: seq<string>): string {
    if parts == [] then "" else NonSpaceAll(parts[..|parts| - 1]) + NonSpace(parts[|parts| - 1])
  }

  /** The non-whitespace characters of a block's lines, each in x order. */
  function LinesChars(lines: seq<Line>): string {
    if lines == [] then ""
    else LinesChars(lines[..|lines| - 1]) + NonSpace(SpanConcat(SortByX(lines[|lines| - 1].spans)))
  }

  lemma {:induction false} NonSpaceAllCons(p: string, parts: seq<string>)
    ensures NonSpaceAll([p] + parts) == NonSpace(p) + NonSpaceAll(parts)
    decreases |parts|
  {
    if parts != [] {
      var n := |parts| - 1;
      assert ([p] + parts)[..n + 1] == [p] + parts[..n];
      NonSpaceAllCons(p, parts[..n]);
    }
  }

  /** Joining with single spaces adds whitespace only. */
  lemma {:induction false} JoinChars(parts: seq<string>)
    ensures NonSpace(JoinWith(parts, " ")) == NonSpaceAll(parts)
    decreases |parts|
  {
    if |parts| == 1 {
      assert parts == [parts[0]] + [];
      NonSpaceAllCons(parts[0], []);
    } else if |parts| > 1 {
      JoinChars(parts[1..]);
      NonSpaceAppend(parts[0], " ");
      assert NonSpace(" ") == [];
      NonSpaceAppend(parts[0] + " ", JoinWith(parts[1..], " "));
      assert parts == [parts[0]] + parts[1..];
      NonSpaceAllCons(parts[0], parts[1..]);
    }
  }

  /** Joining stripped non-empty texts with single spaces gives a stripped
      text, empty only when there is nothing to join. */
  lemma {:induction false} JoinStripped(parts: seq<string>)
    requires forall k :: 0 <= k < |parts| ==> parts[k] != [] && IsStripped(parts[k])
    ensures IsStripped(JoinWith(parts, " "))
    ensures JoinWith(parts, " ") == [] <==> parts == []
    ensures parts != [] ==> JoinWith(parts, " ")[0] == parts[0][0]
    decreases |parts|
  {
    if |parts| > 1 {
      JoinStripped(parts[1..]);
      var j := JoinWith(parts, " ");
      var rest := JoinWith(parts[1..], " ");
      assert j == parts[0] + " " + rest;
      assert j[0] == parts[0][0];
      assert j[|j| - 1] == rest[|rest| - 1];
    }
  }

  /** One line's stripped text carries the line's characters; a blank
      line carries none. */
  lemma LineChars(spans: seq<Span>)
    ensures var t := LineText(SortByX(spans));
      NonSpace(Strip(t)) == NonSpace(SpanConcat(SortByX(spans))) &&
      (Strip(t) == [] ==> NonSpace(SpanConcat(SortByX(spans))) == [])
  {
    var t := LineText(SortByX(spans));
    LineTextOnlyAddsSpaces(SortByX(spans));
    NonSpaceStrip(t);
    if Strip(t) == [] {
      StripSpec(t);
      NonSpaceOfBlank(t);
    }
  }

  lemma {:induction false} LineTextsChars(lines: seq<Line>)
    ensures NonSpaceAll(BlockLineTexts(lines)) == LinesChars(lines)
    decreases |lines|
  {
    if lines != [] {
      var n := |lines| - 1;
      var t := LineText(SortByX(lines[n].spans));
      LineTextsChars(lines[..n]);
      LineChars(lines[n].spans);
      var ts := BlockLineTexts(lines);
      if Strip(t) != [] {
        assert ts == BlockLineTexts(lines[..n]) + [Strip(t)];
        assert ts[..|ts| - 1] == BlockLineTexts(lines[..n]);
      } else {
        assert ts == BlockLineTexts(lines[..n]);
      }
    }
  }

  /** reconstruct_block_text keeps every non-whitespace character of every
      span, line by line and each line in x order, and its result is
      already stripped, so the later strip() changes nothing. */
  lemma BlockTextSpec(lines: seq<Line>)
    ensures NonSpace(BlockText(lines)) == LinesChars(lines)
    ensures IsStripped(BlockText(lines))
    ensures BlockText(lines) == [] <==> BlockLineTexts(lines) == []
  {
    JoinChars(BlockLineTexts(lines));
    LineTextsChars(lines);
    JoinStripped(BlockLineTexts(lines));
  }

  /** The inner loop of reconstruct_block_text for one line. */
  method LineTextOf(sortedSpans: seq<Span>) returns (lineText: string)
    ensures lineText == LineText(sortedSpans)
  {
    lineText := "";
    var prevSpanEnd: Option<real> := None;
    for j := 0 to |sortedSpans|
      invariant lineText == LineText(sortedSpans[..j])
      invariant prevSpanEnd == (if j == 0 then None else Some(sortedSpans[j - 1].bbox.x1))
    {
      assert sortedSpans[..j + 1][..j] == sortedSpans[..j];
      var span := sortedSpans[j];
      if prevSpanEnd.Some? && prevSpanEnd.value != 0.0 && span.bbox.x0 - prevSpanEnd.value > 3.0 {
        if !EndsWithChar(lineText, ' ') {
          lineText := lineText + " ";
        }
      }
      lineText := lineText + span.text;
      prevSpanEnd := Some(span.bbox.x1);
    }
    assert sortedSpans[..|sortedSpans|] == sortedSpans;
  }

  /** reconstruct_block_text: each line's spans in x order, the non-blank
      lines stripped and joined by single spaces. */
  method ReconstructBlockText(lines: seq<Line>) returns (text: string)
    ensures text == BlockText(lines)
  {
    var allText: seq<string> := [];
    for i := 0 to |lines|
      invariant allText == BlockLineTexts(lines[..i])
    {
      assert lines[..i + 1][..i] == lines[..i];
      var sortedSpans := SortByX(lines[i].spans);
      var lineText := LineTextOf(sortedSpans);
      if Strip(lineText) != [] {
        allText := allText + [Strip(lineText)];
      }
    }
    assert lines[..|lines|] == lines;
    text := JoinWith(allText, " ");
  }

  // ---------------------------------------------------------------------
  // extract_formatted_text_blocks
  // ---------------------------------------------------------------------

  /** A block of a page's text dictionary: a text block with lines, or any
      other block (an image). */
  datatype RawBlock = TextBlock(lines: seq<Line>) | OtherBlock

  /** A page: its size and its blocks. */
  datatype Page = Page(width: real, height: real, blocks: seq<RawBlock>)

  /** A text block with a representative span always has a bbox. */
  lemma RepresentedBlockHasBBox(lines: seq<Line>)
    requires RepresentativeSpan(lines).Some?
    ensures BlockBBox(lines).Some?
  {
  }

  /** The text block for one raw block, if it has text and a representative
      span. */
  function BlockOf(raw: RawBlock, page: Page, pageNum: int): Option<Block> {
    match raw
    case OtherBlock => None
    case TextBlock(lines) =>
      var text := BlockText(lines);
      if Strip(text) == [] then None
      else
        match RepresentativeSpan(lines)
        case None => None
        case Some(span) =>
          RepresentedBlockHasBBox(lines);
          Some(Block(Strip(text), pageNum, BlockBBox(lines).value, page.width, page.height,
                     span.size, span.font, span.flags))
  }

  function PageBlocks(page: Page, raws: seq<RawBlock>, pageNum: int): seq<Block> {
    if raws == [] then []
    else
      var n := |raws| - 1;
      PageBlocks(page, raws[..n], pageNum) +
        (match BlockOf(raws[n], page, pageNum) case None => [] case Some(b) => [b])
  }

  /** b carries the text of the raw text block and the font data of its
      representative span. */
  predicate MadeFrom(b: Block, raw: RawBlock) {
    raw.TextBlock? && b.text == BlockText(raw.lines) &&
    RepresentativeSpan(raw.lines).Some? &&
    b.fontSize == RepresentativeSpan(raw.lines).value.size &&
    b.flags == RepresentativeSpan(raw.lines).value.flags
  }

  /** Every extracted block comes from one text block of the page: its text
      is that block's non-blank, stripped text; its page number and size are
      the page's; its font data is the representative span's. */
  lemma {:induction false} PageBlocksShape(page: Page, raws: seq<RawBlock>, pageNum: int, k: nat)
    requires k < |PageBlocks(page, raws, pageNum)|
    ensures var b := PageBlocks(page, raws, pageNum)[k];
      b.text != [] && IsStripped(b.text) && b.page == pageNum &&
      b.pageWidth == page.width && b.pageHeight == page.height &&
      exists i :: 0 <= i < |raws| && MadeFrom(b, raws[i])
    decreases |raws|
  {
    var n := |raws| - 1;
    var init := PageBlocks(page, raws[..n], pageNum);
    var b := PageBlocks(page, raws, pageNum)[k];
    if k < |init| {
      assert b == init[k];
      PageBlocksShape(page, raws[..n], pageNum, k);
      var i :| 0 <= i < n && MadeFrom(b, raws[..n][i]);
      assert raws[..n][i] == raws[i];
    } else {
      assert BlockOf(raws[n], page, pageNum) == Some(b);
      BlockOfShape(raws[n], page, pageNum);
    }
  }

  /** The block made from one raw block: its text is the block's non-blank,
      stripped text, its page data the page's, its font data the
      representative span's. */
  lemma BlockOfShape(raw: RawBlock, page: Page, pageNum: int)
    requires BlockOf(raw, page, pageNum).Some?
    ensures var b := BlockOf(raw, page, pageNum).value;
      b.text != [] && IsStripped(b.text) && b.page == pageNum &&
      b.pageWidth == page.width && b.pageHeight == page.height && MadeFrom(b, raw)
  {
    BlockTextSpec(raw.lines);
    StripSpec(BlockText(raw.lines));
  }

  /** extract_formatted_text_blocks: one text block per raw text block
      with non-blank text and a representative span, in page order. */
  method ExtractFormattedTextBlocks(page: Page, pageNum: int) returns (textBlocks: seq<Block>)
    ensures textBlocks == PageBlocks(page, page.blocks, pageNum)
  {
    textBlocks := [];
    var raws := page.blocks;
    for i := 0 to |raws|
      invariant textBlocks == PageBlocks(page, raws[..i], pageNum)
    {
      assert raws[..i + 1][..i] == raws[..i];
      if raws[i].TextBlock? {
        var lines := raws[i].lines;
        var blockText := ReconstructBlockText(lines);
        if Strip(blockText) != [] {
          var representativeSpan := GetRepresentativeSpan(lines);
          if representativeSpan.Some? {
            var span := representativeSpan.value;
            var bbox := GetBlockBBox(lines);
            RepresentedBlockHasBBox(lines);
            var textBlock := Block(Strip(blockText), pageNum, bbox.value, page.width, page.height,
                                   span.size, span.font, span.flags);
            textBlocks := textBlocks + [textBlock];
          }
        }
      }
    }
    assert raws[..|raws|] == raws;
  }

  // ---------------------------------------------------------------------
  // merge_multiline_headings / should_merge_headings
  // ---------------------------------------------------------------------

  /** should_merge_headings: same page and level, the second starts at most
      30 points below the end of the first, the first does not end a
      sentence, and together they have at most 150 characters. */
  predicate ShouldMergeHeadings(h1: Heading, h2: Heading) {
    h1.page == h2.page && h1.level == h2.level &&
    !(h2.bbox.y0 - h1.bbox.y1 > 30.0) &&
    !EndsWithChar(TrimRight(h1.text), '.') &&
    |h1.text| + |h2.text| <= 150
  }

  /** The entry of an unmerged heading. */
  function EntryOf(h: Heading): Entry {
    Entry(h.level, h.text, h.page)
  }

  /** The entry of two merged headings: the first's level and page. */
  function MergedEntry(h1: Heading, h2: Heading): Entry {
    Entry(h1.level, Strip(h1.text + " " + h2.text), h1.page)
  }

  /** merge_multiline_headings, read front to back: a heading absorbs the
      next one when they should merge, and the pair is then done. */
  function MergeAll(hs: seq<Heading>): seq<Entry>
    decreases |hs|
  {
    if hs == [] then []
    else if |hs| >= 2 && ShouldMergeHeadings(hs[0], hs[1]) then [MergedEntry(hs[0], hs[1])] + MergeAll(hs[2..])
    else [EntryOf(hs[0])] + MergeAll(hs[1..])
  }

  /** Merging at most halves the list: every entry consumes one or two
      headings. */
  lemma {:induction false} MergeAllLength(hs: seq<Heading>)
    ensures (|hs| + 1) / 2 <= |MergeAll(hs)| <= |hs|
    decreases |hs|
  {
    if hs != [] {
      if |hs| >= 2 && ShouldMergeHeadings(hs[0], hs[1]) {
        MergeAllLength(hs[2..]);
      } else {
        MergeAllLength(hs[1..]);
      }
    }
  }

  /** Without a pair to merge, every heading becomes its own entry. */
  lemma {:induction false} MergeAllWithoutPairs(hs: seq<Heading>)
    requires forall i :: 0 <= i < |hs| - 1 ==> !ShouldMergeHeadings(hs[i], hs[i + 1])
    ensures |MergeAll(hs)| == |hs|
    ensures forall i :: 0 <= i < |hs| ==> MergeAll(hs)[i] == EntryOf(hs[i])
    decreases |hs|
  {
    if hs != [] {
      assert |hs| >= 2 ==> !ShouldMergeHeadings(hs[0], hs[1]);
      var rest := hs[1..];
      assert forall i :: 0 <= i < |rest| ==> rest[i] == hs[i + 1];
      MergeAllWithoutPairs(rest);
    }
  }

  /** The non-whitespace characters of the heading texts, in order. */
  function HeadingChars(hs: seq<Heading>): string {
    if hs == [] then "" else NonSpace(hs[0].text) + HeadingChars(hs[1..])
  }

  function EntryChars(es: seq<Entry>): string {
    if es == [] then "" else NonSpace(es[0].text) + EntryChars(es[1..])
  }

  /** Merging loses no text: the output carries the non-whitespace
      characters of the input, in order. */
  lemma {:induction false} MergeAllKeepsText(hs: seq<Heading>)
    ensures EntryChars(MergeAll(hs)) == HeadingChars(hs)
    decreases |hs|
  {
    if hs != [] {
      var out := MergeAll(hs);
      assert HeadingChars(hs) == NonSpace(hs[0].text) + HeadingChars(hs[1..]);
      assert EntryChars(out) == NonSpace(out[0].text) + EntryChars(out[1..]);
      if |hs| >= 2 && ShouldMergeHeadings(hs[0], hs[1]) {
        assert out == [MergedEntry(hs[0], hs[1])] + MergeAll(hs[2..]);
        MergeAllKeepsText(hs[2..]);
        MergedChars(hs[0], hs[1]);
        assert hs[1..][1..] == hs[2..];
        assert HeadingChars(hs[1..]) == NonSpace(hs[1].text) + HeadingChars(hs[2..]);
        assert out[1..] == MergeAll(hs[2..]);
      } else {
        assert out == [EntryOf(hs[0])] + MergeAll(hs[1..]);
        MergeAllKeepsText(hs[1..]);
        assert out[1..] == MergeAll(hs[1..]);
      }
    }
  }

  /** A merged entry carries the non-whitespace characters of both
      headings, in order. */
  lemma MergedChars(h1: Heading, h2: Heading)
    ensures NonSpace(MergedEntry(h1, h2).text) == NonSpace(h1.text) + NonSpace(h2.text)
  {
    var a := h1.text;
    var b := h2.text;
    NonSpaceStrip(a + " " + b);
    NonSpaceAppend(a + " ", b);
    NonSpaceAppend(a, " ");
    assert NonSpace(" ") == [];
  }

  /** Every entry has the level and page of an input heading. */
  lemma {:induction false} MergeAllLevelsAndPages(hs: seq<Heading>, e: Entry)
    requires e in MergeAll(hs)
    ensures exists h :: h in hs && e.level == h.level && e.page == h.page
    decreases |hs|
  {
    var out := MergeAll(hs);
    if e != out[0] {
      if |hs| >= 2 && ShouldMergeHeadings(hs[0], hs[1]) {
        assert e in MergeAll(hs[2..]);
        MergeAllLevelsAndPages(hs[2..], e);
        var h :| h in hs[2..] && e.level == h.level && e.page == h.page;
        assert h in hs;
      } else {
        assert e in MergeAll(hs[1..]);
        MergeAllLevelsAndPages(hs[1..], e);
        var h :| h in hs[1..] && e.level == h.level && e.page == h.page;
        assert h in hs;
      }
    } else {
      assert hs[0] in hs;
    }
  }

  lemma MergeAllAt(hs: seq<Heading>, i: nat)
    requires i < |hs|
    ensures MergeAll(hs[i..]) ==
      if i + 1 < |hs| && ShouldMergeHeadings(hs[i], hs[i + 1])
      then [MergedEntry(hs[i], hs[i + 1])] + MergeAll(hs[i + 2..])
      else [EntryOf(hs[i])] + MergeAll(hs[i + 1..])
  {
    assert hs[i..][1..] == hs[i + 1..];
    if i + 1 < |hs| {
      assert hs[i..][2..] == hs[i + 2..];
    }
  }

  /** Entry e is made from hs[a..b]: two consecutive headings exactly when
      they should merge, otherwise one heading that does not merge with the
      next. */
  predicate SegmentEntry(hs: seq<Heading>, a: nat, b: nat, e: Entry)
    requires a < b <= |hs| && b <= a + 2
  {
    if b == a + 2 then ShouldMergeHeadings(hs[a], hs[a + 1]) && e == MergedEntry(hs[a], hs[a + 1])
    else (a + 1 < |hs| ==> !ShouldMergeHeadings(hs[a], hs[a + 1])) && e == EntryOf(hs[a])
  }

  /** Run k of st lies inside hs, holds one or two headings and makes
      entry k. */
  predicate RunAt(hs: seq<Heading>, out: seq<Entry>, st: seq<nat>, k: nat)
    requires k < |out| && |st| == |out| + 1
  {
    st[k] < st[k + 1] <= st[k] + 2 && st[k + 1] <= |hs| && SegmentEntry(hs, st[k], st[k + 1], out[k])
  }

  /** st cuts hs into consecutive, non-overlapping runs of one or two
      headings that together cover hs; output entry k is made from run k. */
  predicate MergeSegments(hs: seq<Heading>, out: seq<Entry>, st: seq<nat>) {
    |st| == |out| + 1 && st[0] == 0 && st[|out|] == |hs| &&
    forall k :: 0 <= k < |out| ==> RunAt(hs, out, st, k)
  }

  /** Every boundary moved w headings further. */
  function Shift(st: seq<nat>, w: nat): (r: seq<nat>)
    ensures |r| == |st| && forall i :: 0 <= i < |st| ==> r[i] == st[i] + w
  {
    seq(|st|, i requires 0 <= i < |st| => st[i] + w)
  }

  /** How many headings the first entry of MergeAll(hs) takes. */
  function FirstWidth(hs: seq<Heading>): nat
    requires hs != []
  {
    if |hs| >= 2 && ShouldMergeHeadings(hs[0], hs[1]) then 2 else 1
  }

  /** The run boundaries of MergeAll(hs). */
  function MergeStarts(hs: seq<Heading>): seq<nat>
    decreases |hs|
  {
    if hs == [] then [0] else [0] + Shift(MergeStarts(hs[FirstWidth(hs)..]), FirstWidth(hs))
  }

  lemma SegmentEntryShift(hs: seq<Heading>, w: nat, a: nat, b: nat, e: Entry)
    requires w <= |hs| && a < b <= |hs| - w && b <= a + 2
    ensures SegmentEntry(hs[w..], a, b, e) == SegmentEntry(hs, a + w, b + w, e)
  {
    assert hs[w..][a] == hs[a + w];
    if a + 1 < |hs| - w {
      assert hs[w..][a + 1] == hs[a + w + 1];
    }
  }

  /** A run of the tail hs[w..] is a run of hs once shifted by w. */
  lemma RunShift(hs: seq<Heading>, w: nat, out: seq<Entry>, st: seq<nat>, out0: seq<Entry>, st0: seq<nat>, k: nat)
    requires w <= |hs| && 1 <= k < |out| && |st| == |out| + 1 && |st0| == |out0| + 1 && |out0| == |out| - 1
    requires st[k] == st0[k - 1] + w && st[k + 1] == st0[k] + w && out[k] == out0[k - 1]
    requires RunAt(hs[w..], out0, st0, k - 1)
    ensures RunAt(hs, out, st, k)
  {
    SegmentEntryShift(hs, w, st0[k - 1], st0[k], out0[k - 1]);
  }

  /** The first entry of MergeAll(hs) is made from its first run. */
  lemma FirstRun(hs: seq<Heading>)
    requires hs != [] && |MergeStarts(hs[FirstWidth(hs)..])| == |MergeAll(hs[FirstWidth(hs)..])| + 1
    ensures var w := FirstWidth(hs);
      MergeAll(hs) == [MergeAll(hs)[0]] + MergeAll(hs[w..]) &&
      MergeStarts(hs) == [0] + Shift(MergeStarts(hs[w..]), w) &&
      |MergeStarts(hs)| == |MergeAll(hs)| + 1 && MergeStarts(hs)[1] == w &&
      RunAt(hs, MergeAll(hs), MergeStarts(hs), 0)
  {
    var w := FirstWidth(hs);
    var e := if w == 2 then MergedEntry(hs[0], hs[1]) else EntryOf(hs[0]);
    assert MergeAll(hs) == [e] + MergeAll(hs[w..]);
    assert SegmentEntry(hs, 0, w, e);
  }

  lemma {:induction false} MergeStartsSegment(hs: seq<Heading>)
    ensures MergeSegments(hs, MergeAll(hs), MergeStarts(hs))
    decreases |hs|
  {
    if hs != [] {
      var w := FirstWidth(hs);
      var rest := hs[w..];
      MergeStartsSegment(rest);
      var st0 := MergeStarts(rest);
      var out0 := MergeAll(rest);
      var st := MergeStarts(hs);
      var out := MergeAll(hs);
      FirstRun(hs);
      var shifted := Shift(st0, w);
      forall k | 1 <= k < |out|
        ensures RunAt(hs, out, st, k)
      {
        assert st[k] == shifted[k - 1] == st0[k - 1] + w;
        assert st[k + 1] == shifted[k] == st0[k] + w;
        assert out[k] == out0[k - 1];
        RunShift(hs, w, out, st, out0, st0, k);
      }
    }
  }

  /** merge_multiline_headings cuts the headings into consecutive,
      non-overlapping runs that cover them all: each entry is one heading
      that does not merge with the next, or the merge of two consecutive
      headings that should merge. */
  lemma MergeAllDecomposes(hs: seq<Heading>)
    ensures exists st :: MergeSegments(hs, MergeAll(hs), st)
  {
    MergeStartsSegment(hs);
  }

  /** The run boundaries only grow. */
  lemma {:induction false} StartsIncrease(hs: seq<Heading>, out: seq<Entry>, st: seq<nat>, i: nat, j: nat)
    requires MergeSegments(hs, out, st) && i <= j <= |out|
    ensures st[i] <= st[j]
    decreases j - i
  {
    if i < j {
      assert RunAt(hs, out, st, i);
      StartsIncrease(hs, out, st, i + 1, j);
    }
  }

  /** Dropping the first run of a cut leaves a cut of the rest. */
  lemma DropFirstRun(hs: seq<Heading>, out: seq<Entry>, st: seq<nat>) returns (st0: seq<nat>)
    requires MergeSegments(hs, out, st) && |out| > 0
    ensures st[1] <= |hs| && MergeSegments(hs[st[1]..], out[1..], st0)
  {
    var w := st[1];
    assert RunAt(hs, out, st, 0);
    forall i | 1 <= i <= |out|
      ensures w <= st[i]
    {
      StartsIncrease(hs, out, st, 1, i);
    }
    st0 := seq(|out|, i requires 0 <= i < |out| => if st[i + 1] >= w then st[i + 1] - w else 0);
    forall k | 0 <= k < |out| - 1
      ensures RunAt(hs[w..], out[1..], st0, k)
    {
      assert RunAt(hs, out, st, k + 1);
      SegmentEntryShift(hs, w, st0[k], st0[k + 1], out[k + 1]);
    }
  }

  /** The cut is forced: any output made of such runs is MergeAll's, so the
      greedy front-to-back pairing is the only one the rule allows. */
  lemma {:induction false} SegmentsDetermineMerge(hs: seq<Heading>, out: seq<Entry>, st: seq<nat>)
    requires MergeSegments(hs, out, st)
    ensures out == MergeAll(hs)
    decreases |hs|
  {
    if |out| > 0 {
      assert RunAt(hs, out, st, 0);
      var w := st[1];
      assert w == (if |hs| >= 2 && ShouldMergeHeadings(hs[0], hs[1]) then 2 else 1);
      var st0 := DropFirstRun(hs, out, st);
      SegmentsDetermineMerge(hs[w..], out[1..], st0);
      assert out == [out[0]] + out[1..];
    }
  }

  /** The two headings of every merged entry share page and level, the first
      does not end with '.' once trailing whitespace is removed, and the
      entry has at most 151 characters: the two texts and one space. */
  lemma MergedPairsAgree(hs: seq<Heading>, out: seq<Entry>, st: seq<nat>, k: nat)
    requires MergeSegments(hs, out, st) && k < |out| && st[k + 1] == st[k] + 2
    ensures st[k] + 1 < |hs|
    ensures var h1 := hs[st[k]]; var h2 := hs[st[k] + 1];
      h1.page == h2.page == out[k].page && h1.level == h2.level == out[k].level &&
      !EndsWithChar(TrimRight(h1.text), '.') && |out[k].text| <= 151
  {
    assert RunAt(hs, out, st, k);
  }

  /** merge_multiline_headings */
  method MergeMultilineHeadings(headings: seq<Heading>) returns (merged: seq<Entry>)
    ensures merged == MergeAll(headings)
  {
    if headings == [] {
      return [];
    }
    merged := [];
    var i := 0;
    while i < |headings|
      invariant 0 <= i <= |headings|
      invariant merged + MergeAll(headings[i..]) == MergeAll(headings)
      decreases |headings| - i
    {
      MergeAllAt(headings, i);
      var current := headings[i];
      if i + 1 < |headings| {
        var nextHeading := headings[i + 1];
        if ShouldMergeHeadings(current, nextHeading) {
          var mergedText := current.text + " " + nextHeading.text;
          var entry := Entry(current.level, Strip(mergedText), current.page);
          assert MergeAll(headings[i..]) == [entry] + MergeAll(headings[i + 2..]);
          assert (merged + [entry]) + MergeAll(headings[i + 2..]) == merged + MergeAll(headings[i..]);
          merged := merged + [entry];
          i := i + 2;
          continue;
        }
      }
      var entry := Entry(current.level, current.text, current.page);
      assert MergeAll(headings[i..]) == [entry] + MergeAll(headings[i + 1..]);
      assert (merged + [entry]) + MergeAll(headings[i + 1..]) == merged + MergeAll(headings[i..]);
      merged := merged + [entry];
      i := i + 1;
    }
    assert headings[|headings|..] == [];
  }
}
