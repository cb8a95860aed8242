/** challenge_1a/src/heading_classifier.py: which blocks are headings,
    their levels, the final clean-up of the outline, and the title. The
    classifier only reads the content filter's two sets and the font
    analyzer's statistics; they are passed in as one Context value. */
module HeadingClassifier {
  import opened Strings
  import opened Seqs
  import opened Blocks
  import opened Patterns
  import opened Utils
  import opened FilterRules
  import opened FontAnalysis

  /** What the classifier reads from the filter and the font analyzer. */
  datatype Context = Context(tablePatterns: set<string>, headersFooters: set<string>, fontStats: Option<FontStats>)

  /** The level names the pipeline produces and accepts. */
  const Levels: seq<string> := ["H1", "H2", "H3"]

  /** f"H{level}" for a font level. */
  function LevelName(n: int): (r: string)
    requires 1 <= n <= 3
    ensures r in Levels && r == Levels[n - 1]
  {
    if n == 1 then "H1" else if n == 2 then "H2" else "H3"
  }

  // ---------------------------------------------------------------------
  // is_valid_heading
  // ---------------------------------------------------------------------

  /** Footer words that keep a recurring footer text out of the outline. */
  const FooterBoilerplate: seq<string> := ["copyright", "©", "page", "confidential", "proprietary"]

  /** Words that mark a section name. */
  const SectionWords: seq<string> :=
    ["introduction", "overview", "content", "references", "acknowledgements", "history", "outcomes"]

  /** ^\d+\. */
  predicate NumberedPrefix(t: string) {
    match Plus(t, IsDigit)
    case None => false
    case Some(r) => StartsWith(r, ".")
  }

  /** ^\d+\.\d+ */
  predicate SubsectionPrefix(t: string) {
    (var r :- Plus(t, IsDigit);
     var r :- Lit(r, ".");
     Plus(r, IsDigit)).Some?
  }

  /** The text cues of a heading: a number prefix, a section word, a
      trailing colon, or an upper-case first letter with at most ten words. */
  predicate HeadingCue(t: string) {
    NumberedPrefix(t) || SubsectionPrefix(t) || ContainsAny(Lower(t), SectionWords) ||
    EndsWithChar(t, ':') || (|t| > 0 && IsUpper(t[0]) && |Words(t)| <= 10)
  }

  /** A recurring header/footer text that may still be a heading: long, in
      the footer area, and without boilerplate words. */
  predicate FooterExemption(t: string, b: Block) {
    |t| > 30 && IsFooterArea(b) && !ContainsAny(Lower(t), FooterBoilerplate)
  }

  /** The basic filters on the stripped text. */
  predicate RejectedByFilters(ctx: Context, t: string) {
    |t| < 3 || |t| > 200 || t in ctx.tablePatterns || IsLikelyTableContent(ctx.tablePatterns, t)
  }

  /** is_valid_heading */
  predicate IsValidHeading(ctx: Context, b: Block) {
    var t := Strip(b.text);
    if RejectedByFilters(ctx, t) then false
    else if t in ctx.headersFooters && !FooterExemption(t, b) then false
    else if !IsLeftOrCenterAligned(b) then false
    else HasVisualDistinction(ctx.fontStats, b) && HeadingCue(t)
  }

  /** The checks in their order: each rejection, and acceptance exactly for
      an aligned, visually distinct block with a heading cue. */
  lemma ValidHeadingCases(ctx: Context, b: Block)
    ensures var t := Strip(b.text);
      && (RejectedByFilters(ctx, t) ==> !IsValidHeading(ctx, b))
      && (t in ctx.headersFooters && !FooterExemption(t, b) ==> !IsValidHeading(ctx, b))
      && (!IsLeftOrCenterAligned(b) ==> !IsValidHeading(ctx, b))
      && (!HasVisualDistinction(ctx.fontStats, b) ==> !IsValidHeading(ctx, b))
      && (!RejectedByFilters(ctx, t) && (t !in ctx.headersFooters || FooterExemption(t, b)) &&
          IsLeftOrCenterAligned(b) && HasVisualDistinction(ctx.fontStats, b) ==>
            (IsValidHeading(ctx, b) <==> HeadingCue(t)))
  {
  }

  /** A heading has between 3 and 200 characters after stripping, is no
      recorded table pattern, and without font statistics nothing is a
      heading. */
  lemma ValidHeadingBounds(ctx: Context, b: Block)
    requires IsValidHeading(ctx, b)
    ensures 3 <= |Strip(b.text)| <= 200 && Strip(b.text) !in ctx.tablePatterns
    ensures ctx.fontStats.Some?
  {
  }

  // ---------------------------------------------------------------------
  // determine_heading_level
  // ---------------------------------------------------------------------

  /** Texts that are always top-level headings. */
  const TopLevelTitles: seq<string> := ["Revision History", "Table of Contents", "Acknowledgements"]

  /** determine_heading_level */
  function DetermineHeadingLevel(ctx: Context, b: Block): (level: string)
    ensures level in Levels
  {
    var t := Strip(b.text);
    if NumberedPrefix(t) then "H1"
    else if SubsectionPrefix(t) then "H2"
    else if t in TopLevelTitles then "H1"
    else LevelName(FontSizeLevel(ctx.fontStats, b.fontSize))
  }

  /** Every "N.N" prefix is also an "N." prefix, so the content-based H2
      branch is never taken. */
  lemma SubsectionIsNumbered(t: string)
    ensures SubsectionPrefix(t) ==> NumberedPrefix(t)
  {
  }

  /** The level of a block: H1 for an "N." prefix (including "N.N") or a
      top-level title, otherwise the font-size level. H2 comes only from
      the font size. */
  lemma HeadingLevelCases(ctx: Context, b: Block)
    ensures var t := Strip(b.text);
      && (NumberedPrefix(t) || t in TopLevelTitles ==> DetermineHeadingLevel(ctx, b) == "H1")
      && (!NumberedPrefix(t) && t !in TopLevelTitles ==>
            DetermineHeadingLevel(ctx, b) == LevelName(FontSizeLevel(ctx.fontStats, b.fontSize)))
      && (DetermineHeadingLevel(ctx, b) == "H2" ==> FontSizeLevel(ctx.fontStats, b.fontSize) == 2)
  {
    SubsectionIsNumbered(Strip(b.text));
  }

  /** "2.1 Scope" is an H1 heading by its content. */
  lemma SubsectionNumberIsH1(ctx: Context, b: Block)
    requires Strip(b.text) == "2.1 Scope"
    ensures DetermineHeadingLevel(ctx, b) == "H1"
  {
    var t := "2.1 Scope";
    assert t[1..] == ".1 Scope";
    assert RunLen(".1 Scope", IsDigit) == 0;
    assert Plus(t, IsDigit) == Some(".1 Scope");
  }

  // ---------------------------------------------------------------------
  // classify_headings
  // ---------------------------------------------------------------------

  /** The entry for an accepted block. */
  function HeadingOf(ctx: Context, b: Block): Heading {
    Heading(DetermineHeadingLevel(ctx, b), CleanHeadingText(b.text), b.page, b.fontSize, b.bbox)
  }

  /** The accepted blocks, as a predicate value. */
  function Accepts(ctx: Context): Block -> bool {
    b => IsValidHeading(ctx, b)
  }

  /** The headings of the accepted blocks, in input order. */
  function ClassifyAll(ctx: Context, blocks: seq<Block>): (hs: seq<Heading>)
    ensures |hs| <= |blocks|
  {
    if blocks == [] then []
    else
      var b := blocks[|blocks| - 1];
      ClassifyAll(ctx, blocks[..|blocks| - 1]) + (if IsValidHeading(ctx, b) then [HeadingOf(ctx, b)] else [])
  }

  /** classify_headings emits exactly one entry per accepted block, in
      input order: the i-th entry belongs to the i-th accepted block. */
  lemma {:induction false} ClassifyAllIsFilter(ctx: Context, blocks: seq<Block>)
    ensures var accepted := Filter(blocks, Accepts(ctx));
      |ClassifyAll(ctx, blocks)| == |accepted| &&
      forall k :: 0 <= k < |accepted| ==> ClassifyAll(ctx, blocks)[k] == HeadingOf(ctx, accepted[k])
    decreases |blocks|
  {
    if blocks != [] {
      var n := |blocks| - 1;
      var b := blocks[n];
      ClassifyAllIsFilter(ctx, blocks[..n]);
      var a0, h0 := Filter(blocks[..n], Accepts(ctx)), ClassifyAll(ctx, blocks[..n]);
      var accepted, hs := Filter(blocks, Accepts(ctx)), ClassifyAll(ctx, blocks);
      assert Accepts(ctx)(b) == IsValidHeading(ctx, b);
      assert accepted == a0 + (if IsValidHeading(ctx, b) then [b] else []);
      assert hs == h0 + (if IsValidHeading(ctx, b) then [HeadingOf(ctx, b)] else []);
      forall k | 0 <= k < |accepted|
        ensures hs[k] == HeadingOf(ctx, accepted[k])
      {
        if k < |a0| {
          assert hs[k] == h0[k] && accepted[k] == a0[k];
        }
      }
    }
  }

  /** Every heading has a level name, the cleaned text, and the page, size
      and bbox of an accepted block. */
  lemma ClassifiedHeadingsShape(ctx: Context, blocks: seq<Block>, k: nat)
    requires k < |ClassifyAll(ctx, blocks)|
    ensures var h := ClassifyAll(ctx, blocks)[k];
      h.level in Levels &&
      exists i :: 0 <= i < |blocks| && IsValidHeading(ctx, blocks[i]) && h == HeadingOf(ctx, blocks[i])
  {
    ClassifyAllIsFilter(ctx, blocks);
    var accepted := Filter(blocks, Accepts(ctx));
    assert accepted[k] in accepted;
  }

  method ClassifyHeadings(ctx: Context, blocks: seq<Block>) returns (headings: seq<Heading>)
    ensures headings == ClassifyAll(ctx, blocks)
  {
    headings := [];
    for i := 0 to |blocks|
      invariant headings == ClassifyAll(ctx, blocks[..i])
    {
      assert blocks[..i + 1][..i] == blocks[..i];
      var block := blocks[i];
      if IsValidHeading(ctx, block) {
        var level := DetermineHeadingLevel(ctx, block);
        var cleanText := CleanHeadingText(block.text);
        headings := headings + [Heading(level, cleanText, block.page, block.fontSize, block.bbox)];
      }
    }
    assert blocks[..|blocks|] == blocks;
  }

  // ---------------------------------------------------------------------
  // validate_and_clean_headings
  // ---------------------------------------------------------------------

  /** An entry survives when its stripped text has 3 to 200 characters, is
      no likely table content, and still has 3 characters once cleaned. */
  predicate KeepEntry(ctx: Context, e: Entry) {
    var t := Strip(e.text);
    3 <= |t| <= 200 && !IsLikelyTableContent(ctx.tablePatterns, t) && |CleanHeadingText(t)| >= 3
  }

  /** The surviving entry: same level and page, cleaned text. */
  function Cleaned(e: Entry): Entry {
    Entry(e.level, CleanHeadingText(Strip(e.text)), e.page)
  }

  function ValidateAll(ctx: Context, entries: seq<Entry>): (out: seq<Entry>)
    ensures |out| <= |entries|
  {
    if entries == [] then []
    else
      var e := entries[|entries| - 1];
      ValidateAll(ctx, entries[..|entries| - 1]) + (if KeepEntry(ctx, e) then [Cleaned(e)] else [])
  }

  /** The surviving entries, as a predicate value. */
  function Keeps(ctx: Context): Entry -> bool {
    e => KeepEntry(ctx, e)
  }

  /** The positions of the surviving entries. */
  function KeptIndices(ctx: Context, entries: seq<Entry>): (idx: seq<nat>)
    ensures forall k :: 0 <= k < |idx| ==> idx[k] < |entries|
  {
    Positions(entries, Keeps(ctx))
  }

  /** The kept positions increase, and a position is kept iff its entry
      passes. */
  lemma KeptIndicesExact(ctx: Context, entries: seq<Entry>)
    ensures var idx := KeptIndices(ctx, entries);
      && (forall k, l :: 0 <= k < l < |idx| ==> idx[k] < idx[l])
      && (forall j :: 0 <= j < |entries| ==> (KeepEntry(ctx, entries[j]) <==> j in idx))
  {
    PositionsExact(entries, Keeps(ctx));
  }

  /** validate_and_clean_headings returns an in-order subsequence: the
      k-th output is the cleaned input at the k-th kept position. */
  lemma {:induction false} ValidateAllAtKept(ctx: Context, entries: seq<Entry>)
    ensures var out := ValidateAll(ctx, entries);
      var idx := KeptIndices(ctx, entries);
      |idx| == |out| && forall k :: 0 <= k < |idx| ==> out[k] == Cleaned(entries[idx[k]])
    decreases |entries|
  {
    if entries != [] {
      var n := |entries| - 1;
      var init := entries[..n];
      ValidateAllAtKept(ctx, init);
      var o0, i0 := ValidateAll(ctx, init), KeptIndices(ctx, init);
      var out, idx := ValidateAll(ctx, entries), KeptIndices(ctx, entries);
      var keep := KeepEntry(ctx, entries[n]);
      assert out == o0 + (if keep then [Cleaned(entries[n])] else []);
      assert idx == i0 + (if keep then [n] else []);
      forall k | 0 <= k < |idx|
        ensures out[k] == Cleaned(entries[idx[k]])
      {
        if k < |i0| {
          assert out[k] == o0[k] && idx[k] == i0[k] && init[i0[k]] == entries[i0[k]];
        }
      }
    }
  }

  /** Every surviving text is cleaned (single-spaced, no leading bullet)
      and has 3 to 200 characters; level and page are kept. */
  lemma ValidatedEntriesShape(ctx: Context, entries: seq<Entry>, k: nat)
    requires k < |ValidateAll(ctx, entries)|
    ensures var e := ValidateAll(ctx, entries)[k];
      3 <= |e.text| <= 200 && SingleSpaced(e.text) &&
      exists j :: 0 <= j < |entries| && KeepEntry(ctx, entries[j]) &&
        e.level == entries[j].level && e.page == entries[j].page
  {
    ValidateAllAtKept(ctx, entries);
    KeptIndicesExact(ctx, entries);
    var idx := KeptIndices(ctx, entries);
    var j := idx[k];
    assert j in idx;
  }

  method ValidateAndCleanHeadings(ctx: Context, headings: seq<Entry>) returns (validated: seq<Entry>)
    ensures validated == ValidateAll(ctx, headings)
  {
    validated := [];
    for i := 0 to |headings|
      invariant validated == ValidateAll(ctx, headings[..i])
    {
      assert headings[..i + 1][..i] == headings[..i];
      var heading := headings[i];
      var text := Strip(heading.text);
      if |text| < 3 || |text| > 200 {
        continue;
      }
      if IsLikelyTableContent(ctx.tablePatterns, text) {
        continue;
      }
      var cleanedText := CleanHeadingText(text);
      if |cleanedText| >= 3 {
        validated := validated + [Entry(heading.level, cleanedText, heading.page)];
      }
    }
    assert headings[..|headings|] == headings;
  }

  // ---------------------------------------------------------------------
  // detect_title
  // ---------------------------------------------------------------------

  /** Words that raise a title candidate's score. */
  const TitleWords: seq<string> := ["foundation", "level", "extension", "overview"]

  /** The blocks of the first two pages. */
  predicate IsEarly(b: Block) { b.page <= 2 }

  /** early_blocks: the blocks of pages 1 and 2, in order. */
  function EarlyBlocks(blocks: seq<Block>): (early: seq<Block>)
    ensures forall b :: b in early <==> b in blocks && b.page <= 2
  {
    Filter(blocks, IsEarly)
  }

  /** A block on the first pages whose stripped text passes the filters. */
  predicate TitleCandidate(ctx: Context, b: Block) {
    var t := Strip(b.text);
    !(|t| < 5 || t in ctx.tablePatterns || t in ctx.headersFooters || IsLikelyTableContent(ctx.tablePatterns, t))
  }

  /** The font-size part of the score. */
  function SizeScore(size: real): real {
    if size >= 20.0 then 20.0 else if size >= 16.0 then 15.0 else if size >= 14.0 then 10.0 else 0.0
  }

  /** The score of a candidate with stripped text t. */
  function TitleScore(b: Block, t: string): real
    requires b.pageHeight != 0.0
  {
    SizeScore(b.fontSize) + (1.0 - b.bbox.y0 / b.pageHeight) * 15.0 + ((3 - b.page) as real) * 10.0 +
    (if ContainsAny(Lower(t), TitleWords) then 15.0 else 0.0) +
    (if 10 <= |t| <= 100 then 10.0 else 0.0)
  }

  datatype Candidate = Candidate(text: string, score: real)

  /** The candidate list; None when a candidate's page height is zero, where
      the division raises ZeroDivisionError. */
  function CandidatesOf(ctx: Context, blocks: seq<Block>): Option<seq<Candidate>> {
    if blocks == [] then Some([])
    else
      var cs :- CandidatesOf(ctx, blocks[..|blocks| - 1]);
      var b := blocks[|blocks| - 1];
      var t := Strip(b.text);
      if !TitleCandidate(ctx, b) then Some(cs)
      else if b.pageHeight == 0.0 then None
      else Some(cs + [Candidate(t, TitleScore(b, t))])
  }

  /** The index of max(candidates, key=score): the first highest score. */
  function Best(cs: seq<Candidate>): (k: nat)
    requires cs != []
    ensures k < |cs|
    ensures forall j :: 0 <= j < |cs| ==> cs[j].score <= cs[k].score
    ensures forall j :: 0 <= j < k ==> cs[j].score < cs[k].score
  {
    ArgMaxFirst(cs, (c: Candidate) => c.score)
  }

  /** detect_title; None stands for the ZeroDivisionError. */
  function DetectTitleSpec(ctx: Context, blocks: seq<Block>): Option<string> {
    var cs :- CandidatesOf(ctx, EarlyBlocks(blocks));
    if cs == [] then Some("Untitled Document")
    else Some(CleanHeadingText(cs[Best(cs)].text))
  }

  lemma CandidatesStep(ctx: Context, blocks: seq<Block>, i: nat)
    requires i < |blocks|
    ensures CandidatesOf(ctx, blocks[..i + 1]) ==
      (var cs :- CandidatesOf(ctx, blocks[..i]);
       var b := blocks[i];
       var t := Strip(b.text);
       if !TitleCandidate(ctx, b) then Some(cs)
       else if b.pageHeight == 0.0 then None
       else Some(cs + [Candidate(t, TitleScore(b, t))]))
  {
    assert blocks[..i + 1][..i] == blocks[..i];
  }

  /** Once the division has failed, later blocks do not matter. */
  lemma {:induction false} CandidatesErrorPersists(ctx: Context, blocks: seq<Block>, i: nat)
    requires i <= |blocks| && CandidatesOf(ctx, blocks[..i]).None?
    ensures CandidatesOf(ctx, blocks).None?
    decreases |blocks| - i
  {
    if i < |blocks| {
      CandidatesStep(ctx, blocks, i);
      CandidatesErrorPersists(ctx, blocks, i + 1);
    } else {
      assert blocks[..i] == blocks;
    }
  }

  /** The division fails exactly when some candidate has page height 0. */
  lemma {:induction false} CandidatesErrorCases(ctx: Context, blocks: seq<Block>)
    ensures CandidatesOf(ctx, blocks).None? <==>
      exists i :: 0 <= i < |blocks| && TitleCandidate(ctx, blocks[i]) && blocks[i].pageHeight == 0.0
    decreases |blocks|
  {
    if blocks != [] {
      var init := blocks[..|blocks| - 1];
      CandidatesErrorCases(ctx, init);
      assert forall i :: 0 <= i < |init| ==> init[i] == blocks[i];
    }
  }

  /** detect_title fails exactly when a passing block of the first two
      pages has page height 0. */
  lemma TitleErrorCases(ctx: Context, blocks: seq<Block>)
    ensures var early := EarlyBlocks(blocks);
      DetectTitleSpec(ctx, blocks).None? <==>
        exists i :: 0 <= i < |early| && TitleCandidate(ctx, early[i]) && early[i].pageHeight == 0.0
  {
    CandidatesErrorCases(ctx, EarlyBlocks(blocks));
  }

  /** Every candidate is the stripped text of a passing block with its
      score. */
  lemma {:induction false} CandidatesFromBlocks(ctx: Context, blocks: seq<Block>, c: Candidate)
    requires CandidatesOf(ctx, blocks).Some? && c in CandidatesOf(ctx, blocks).value
    ensures exists i :: (0 <= i < |blocks| && TitleCandidate(ctx, blocks[i]) && blocks[i].pageHeight != 0.0 &&
      c.text == Strip(blocks[i].text) && c.score == TitleScore(blocks[i], c.text))
    decreases |blocks|
  {
    var init := blocks[..|blocks| - 1];
    var b := blocks[|blocks| - 1];
    var cs := CandidatesOf(ctx, init).value;
    if c in cs {
      CandidatesFromBlocks(ctx, init, c);
      var i :| 0 <= i < |init| && TitleCandidate(ctx, init[i]) && init[i].pageHeight != 0.0 &&
        c.text == Strip(init[i].text) && c.score == TitleScore(init[i], c.text);
      assert blocks[i] == init[i];
    } else {
      assert c == Candidate(Strip(b.text), TitleScore(b, Strip(b.text)));
    }
  }

  /** The passing blocks, as a predicate value. */
  function Passes(ctx: Context): Block -> bool {
    b => TitleCandidate(ctx, b)
  }

  /** The candidate a passing block becomes: its stripped text and score. */
  function CandidateFor(b: Block): Candidate
    requires b.pageHeight != 0.0
  {
    Candidate(Strip(b.text), TitleScore(b, Strip(b.text)))
  }

  /** The candidate list is exactly the passing blocks, each turned into its
      candidate, in input order: no passing block is skipped. */
  lemma {:induction false} CandidatesExact(ctx: Context, blocks: seq<Block>)
    requires CandidatesOf(ctx, blocks).Some?
    ensures var cs := CandidatesOf(ctx, blocks).value;
      var ps := Filter(blocks, Passes(ctx));
      |cs| == |ps| &&
      forall j :: 0 <= j < |ps| ==> ps[j].pageHeight != 0.0 && cs[j] == CandidateFor(ps[j])
    decreases |blocks|
  {
    if blocks != [] {
      var init := blocks[..|blocks| - 1];
      var b := blocks[|blocks| - 1];
      assert blocks == init + [b];
      FilterSnoc(init, b, Passes(ctx));
      CandidatesExact(ctx, init);
      var cs0 := CandidatesOf(ctx, init).value;
      var ps0 := Filter(init, Passes(ctx));
      var cs := CandidatesOf(ctx, blocks).value;
      var ps := Filter(blocks, Passes(ctx));
      if TitleCandidate(ctx, b) {
        assert cs == cs0 + [CandidateFor(b)];
        assert ps == ps0 + [b];
        forall j | 0 <= j < |ps|
          ensures ps[j].pageHeight != 0.0 && cs[j] == CandidateFor(ps[j])
        {
          if j < |ps0| {
            assert ps[j] == ps0[j] && cs[j] == cs0[j];
          }
        }
      }
    }
  }

  /** ps[k] scores at least as much as every block of ps, and strictly more
      than those before it; every block of ps has a non-zero page height. */
  predicate IsBestPassing(ps: seq<Block>, k: int) {
    0 <= k < |ps| &&
    (forall j :: 0 <= j < |ps| ==> ps[j].pageHeight != 0.0) &&
    (forall j :: 0 <= j < |ps| ==> CandidateFor(ps[j]).score <= CandidateFor(ps[k]).score) &&
    (forall j :: 0 <= j < k ==> CandidateFor(ps[j]).score < CandidateFor(ps[k]).score)
  }

  /** Without a ZeroDivisionError and with some passing block on pages 1-2,
      the title is the cleaned text of a passing early block whose score is
      at least that of every passing early block, and strictly above those
      before it. */
  lemma TitleBeatsEveryPassingBlock(ctx: Context, blocks: seq<Block>)
    requires DetectTitleSpec(ctx, blocks).Some?
    requires exists b :: b in EarlyBlocks(blocks) && TitleCandidate(ctx, b)
    ensures var ps := Filter(EarlyBlocks(blocks), Passes(ctx));
      exists k :: IsBestPassing(ps, k) &&
        DetectTitleSpec(ctx, blocks) == Some(CleanHeadingText(Strip(ps[k].text)))
  {
    var early := EarlyBlocks(blocks);
    var ps := Filter(early, Passes(ctx));
    var cs := CandidatesOf(ctx, early).value;
    CandidatesExact(ctx, early);
    var b :| b in early && TitleCandidate(ctx, b);
    assert b in ps;
    var k := Best(cs);
    assert cs[k] == CandidateFor(ps[k]);
    assert DetectTitleSpec(ctx, blocks) == Some(CleanHeadingText(cs[k].text));
    forall j | 0 <= j < |ps|
      ensures CandidateFor(ps[j]).score <= CandidateFor(ps[k]).score
      ensures j < k ==> CandidateFor(ps[j]).score < CandidateFor(ps[k]).score
    {
      assert cs[j] == CandidateFor(ps[j]);
    }
    assert IsBestPassing(ps, k);
  }

  /** Without a passing block on the first two pages the title is
      "Untitled Document". */
  lemma {:induction false} NoCandidateIsUntitled(ctx: Context, blocks: seq<Block>)
    requires forall i :: 0 <= i < |blocks| && IsEarly(blocks[i]) ==> !TitleCandidate(ctx, blocks[i])
    ensures DetectTitleSpec(ctx, blocks) == Some("Untitled Document")
  {
    var early := EarlyBlocks(blocks);
    NoCandidates(ctx, early);
  }

  lemma {:induction false} NoCandidates(ctx: Context, blocks: seq<Block>)
    requires forall b :: b in blocks ==> !TitleCandidate(ctx, b)
    ensures CandidatesOf(ctx, blocks) == Some([])
    decreases |blocks|
  {
    if blocks != [] {
      var init := blocks[..|blocks| - 1];
      assert forall b :: b in init ==> b in blocks;
      NoCandidates(ctx, init);
    }
  }

  /** The title is the cleaned text of the first highest-scoring candidate
      of a block on pages 1 and 2. */
  lemma TitleIsBestCandidate(ctx: Context, blocks: seq<Block>)
    requires var cs := CandidatesOf(ctx, EarlyBlocks(blocks)); cs.Some? && cs.value != []
    ensures var cs := CandidatesOf(ctx, EarlyBlocks(blocks)).value;
      exists k :: 0 <= k < |cs| &&
        DetectTitleSpec(ctx, blocks) == Some(CleanHeadingText(cs[k].text)) &&
        (forall j :: 0 <= j < |cs| ==> cs[j].score <= cs[k].score) &&
        (forall j :: 0 <= j < k ==> cs[j].score < cs[k].score)
  {
    var cs := CandidatesOf(ctx, EarlyBlocks(blocks)).value;
    var k := Best(cs);
    assert DetectTitleSpec(ctx, blocks) == Some(CleanHeadingText(cs[k].text));
  }

  /** Blocks after page 2 never change the title. */
  lemma LaterPagesIgnored(ctx: Context, blocks: seq<Block>, later: seq<Block>)
    requires forall b :: b in later ==> !IsEarly(b)
    ensures DetectTitleSpec(ctx, blocks + later) == DetectTitleSpec(ctx, blocks)
  {
    FilterAppend(blocks, later, IsEarly);
    FilterNone(later, IsEarly);
    assert Filter(blocks + later, IsEarly) == Filter(blocks, IsEarly);
  }

  /** The same block scores ten points more on page 1 than on page 2. */
  lemma FirstPageScoresMore(b: Block, t: string)
    requires b.pageHeight != 0.0 && b.page == 2
    ensures TitleScore(b.(page := 1), t) == TitleScore(b, t) + 10.0
  {
  }

  /** detect_title: the candidates of the first two pages are scored in
      order, and the cleaned text of the first best one is returned. */
  method DetectTitle(ctx: Context, blocks: seq<Block>) returns (title: Option<string>)
    ensures title == DetectTitleSpec(ctx, blocks)
  {
    var earlyBlocks := EarlyBlocks(blocks);
    var candidates: seq<Candidate> := [];
    for i := 0 to |earlyBlocks|
      invariant CandidatesOf(ctx, earlyBlocks[..i]) == Some(candidates)
    {
      CandidatesStep(ctx, earlyBlocks, i);
      var block := earlyBlocks[i];
      var text := Strip(block.text);
      if |text| < 5 || text in ctx.tablePatterns || text in ctx.headersFooters ||
         IsLikelyTableContent(ctx.tablePatterns, text) {
        assert !TitleCandidate(ctx, block);
        continue;
      }
      assert TitleCandidate(ctx, block);
      var score := 0.0;
      if block.fontSize >= 20.0 {
        score := score + 20.0;
      } else if block.fontSize >= 16.0 {
        score := score + 15.0;
      } else if block.fontSize >= 14.0 {
        score := score + 10.0;
      }
      assert score == SizeScore(block.fontSize);
      if block.pageHeight == 0.0 {
        CandidatesErrorPersists(ctx, earlyBlocks, i + 1);
        return None;
      }
      var positionRatio := 1.0 - block.bbox.y0 / block.pageHeight;
      score := score + positionRatio * 15.0;
      score := score + ((3 - block.page) as real) * 10.0;
      if ContainsAny(Lower(text), TitleWords) {
        score := score + 15.0;
      }
      if 10 <= |text| <= 100 {
        score := score + 10.0;
      }
      assert score == TitleScore(block, text);
      candidates := candidates + [Candidate(text, score)];
    }
    assert earlyBlocks[..|earlyBlocks|] == earlyBlocks;
    if candidates != [] {
      var best := Best(candidates);
      return Some(CleanHeadingText(candidates[best].text));
    }
    return Some("Untitled Document");
  }
}
