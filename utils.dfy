/** challenge_1a/src/utils.py: block geometry predicates, page-number
    recognition, the block bounding box, the representative span and the
    heading/title text cleaners. */
module Utils {
  import opened Strings
  import opened Seqs
  import opened Blocks
  import opened Patterns

  // ---------------------------------------------------------------------
  // Position predicates
  // ---------------------------------------------------------------------

  /** is_left_or_center_aligned: x0 < 0.7 w, or x0 within 0.25 w of the
      page centre. Together the two rules accept exactly x0 < 0.75 w. */
  function IsLeftOrCenterAligned(b: Block): (r: bool)
    ensures b.pageWidth > 0.0 ==> (r <==> b.bbox.x0 < 0.75 * b.pageWidth)
    ensures b.pageWidth <= 0.0 ==> (r <==> b.bbox.x0 < 0.7 * b.pageWidth)
  {
    var x := b.bbox.x0;
    var w := b.pageWidth;
    var d := x - w / 2.0;
    x < w * 0.7 || (if d < 0.0 then -d else d) < w * 0.25
  }

  /** is_footer_area */
  predicate IsFooterArea(b: Block) {
    b.bbox.y0 > b.pageHeight * 0.85
  }

  // ---------------------------------------------------------------------
  // is_page_number
  // ---------------------------------------------------------------------

  /** ^\d{1,3}$ */
  predicate ShortNumber(t: string) {
    1 <= |t| <= 3 && AllDigits(t)
  }

  /** ^Page\s+\d+ (ignoring case; a prefix match) */
  predicate PageLabel(t: string) {
    (var r :- LitCI(t, "page");
     var r :- Plus(r, IsSpace);
     Plus(r, IsDigit)).Some?
  }

  /** ^\d+\s+of\s+\d+$ (ignoring case) */
  predicate PageOfPages(t: string) {
    AtEnd(
      var r :- Plus(t, IsDigit);
      var r :- Plus(r, IsSpace);
      var r :- LitCI(r, "of");
      var r :- Plus(r, IsSpace);
      Plus(r, IsDigit))
  }

  predicate IsRomanLetter(c: char) {
    c == 'i' || c == 'v' || c == 'x' || c == 'l' || c == 'c' || c == 'd' || c == 'm'
  }

  /** ^[ivxlcdm]{1,6}$ (ignoring case) */
  predicate RomanNumeral(t: string) {
    1 <= |t| <= 6 && forall i :: 0 <= i < |t| ==> IsRomanLetter(ToLower(t[i]))
  }

  /** is_page_number: the stripped text matches one of the four patterns. */
  predicate IsPageNumber(text: string) {
    var t := Strip(text);
    ShortNumber(t) || PageLabel(t) || PageOfPages(t) || RomanNumeral(t)
  }

  lemma PageOfPagesLower(t: string)
    ensures PageOfPages(Lower(t)) == PageOfPages(t)
  {
    CaseBlindClasses();
    PlusLower(t, IsDigit);
    var o1 := Plus(t, IsDigit);
    if o1.Some? {
      PlusLower(o1.value, IsSpace);
      var o2 := Plus(o1.value, IsSpace);
      if o2.Some? {
        LitCILower(o2.value, "of");
        var o3 := LitCI(o2.value, "of");
        if o3.Some? {
          PlusLower(o3.value, IsSpace);
          var o4 := Plus(o3.value, IsSpace);
          if o4.Some? {
            PlusLower(o4.value, IsDigit);
          }
        }
      }
    }
  }

  lemma PageLabelLower(t: string)
    ensures PageLabel(Lower(t)) == PageLabel(t)
  {
    CaseBlindClasses();
    LitCILower(t, "page");
    var p1 := LitCI(t, "page");
    if p1.Some? {
      PlusLower(p1.value, IsSpace);
      var p2 := Plus(p1.value, IsSpace);
      if p2.Some? {
        PlusLower(p2.value, IsDigit);
      }
    }
  }

  lemma ShortNumberLower(t: string)
    ensures ShortNumber(Lower(t)) == ShortNumber(t)
  {
    assert forall i :: 0 <= i < |t| ==> (IsDigit(Lower(t)[i]) <==> IsDigit(t[i]));
  }

  lemma RomanNumeralLower(t: string)
    ensures RomanNumeral(Lower(t)) == RomanNumeral(t)
  {
    assert forall i :: 0 <= i < |t| ==> ToLower(Lower(t)[i]) == ToLower(t[i]);
  }

  /** The four patterns are matched ignoring case. */
  lemma PageNumberIgnoresCase(text: string)
    ensures IsPageNumber(Lower(text)) == IsPageNumber(text)
  {
    StripLower(text);
    var t := Strip(text);
    ShortNumberLower(t);
    RomanNumeralLower(t);
    PageOfPagesLower(t);
    PageLabelLower(t);
  }

  /** Four digits are too many for the short-number pattern. */
  lemma FourDigitsIsNotPageNumber()
    ensures !IsPageNumber("1234")
  {
    assert Strip("1234") == "1234";
    assert RunLen("1234", IsDigit) == 4 by {
      assert "1234"[1..] == "234" && "234"[1..] == "34" && "34"[1..] == "4" && "4"[1..] == "";
    }
    assert !PageOfPages("1234");
    assert !PageLabel("1234");
    assert !RomanNumeral("1234") by {
      assert !IsRomanLetter(ToLower("1234"[0]));
    }
  }

  // ---------------------------------------------------------------------
  // get_block_bbox
  // ---------------------------------------------------------------------

  function Min(a: real, b: real): real { if a <= b then a else b }

  function Max(a: real, b: real): real { if a >= b then a else b }

  /** One step of the min/max accumulation; None is the (inf, inf, -inf, -inf) seed. */
  function Extend(acc: Option<BBox>, r: BBox): BBox {
    match acc
    case None => r
    case Some(b) => BBox(Min(b.x0, r.x0), Min(b.y0, r.y0), Max(b.x1, r.x1), Max(b.y1, r.y1))
  }

  /** The accumulated bounds of a run of spans; None while no span has been seen. */
  function SpanBounds(spans: seq<Span>): (r: Option<BBox>)
    ensures r.None? <==> spans == []
    ensures r.Some? ==> forall i :: 0 <= i < |spans| ==> Inside(spans[i].bbox, r.value)
  {
    if spans == [] then None
    else Some(Extend(SpanBounds(spans[..|spans| - 1]), spans[|spans| - 1].bbox))
  }

  /** Every coordinate of the bounds is the coordinate of some span. */
  lemma {:induction false} SpanBoundsAttained(spans: seq<Span>)
    requires spans != []
    ensures exists i :: 0 <= i < |spans| && spans[i].bbox.x0 == SpanBounds(spans).value.x0
    ensures exists i :: 0 <= i < |spans| && spans[i].bbox.y0 == SpanBounds(spans).value.y0
    ensures exists i :: 0 <= i < |spans| && spans[i].bbox.x1 == SpanBounds(spans).value.x1
    ensures exists i :: 0 <= i < |spans| && spans[i].bbox.y1 == SpanBounds(spans).value.y1
    decreases |spans|
  {
    var n := |spans| - 1;
    var init := spans[..n];
    if init == [] {
      assert SpanBounds(spans).value == spans[0].bbox;
    } else {
      SpanBoundsAttained(init);
      var b := SpanBounds(init).value;
      var r := SpanBounds(spans).value;
      var i0 :| 0 <= i0 < |init| && init[i0].bbox.x0 == b.x0;
      var i1 :| 0 <= i1 < |init| && init[i1].bbox.y0 == b.y0;
      var i2 :| 0 <= i2 < |init| && init[i2].bbox.x1 == b.x1;
      var i3 :| 0 <= i3 < |init| && init[i3].bbox.y1 == b.y1;
      assert spans[i0] == init[i0] && spans[i1] == init[i1];
      assert spans[i2] == init[i2] && spans[i3] == init[i3];
      assert r.x0 == spans[i0].bbox.x0 || r.x0 == spans[n].bbox.x0;
      assert r.y0 == spans[i1].bbox.y0 || r.y0 == spans[n].bbox.y0;
      assert r.x1 == spans[i2].bbox.x1 || r.x1 == spans[n].bbox.x1;
      assert r.y1 == spans[i3].bbox.y1 || r.y1 == spans[n].bbox.y1;
    }
  }

  /** get_block_bbox as a value: [0, 0, 0, 0] for a block without lines,
      otherwise the union of all span rectangles (None: lines without spans,
      where the source returns its infinite seeds). */
  function BlockBBox(lines: seq<Line>): (r: Option<BBox>)
    ensures lines == [] ==> r == Some(BBox(0.0, 0.0, 0.0, 0.0))
    ensures lines != [] ==> (r.None? <==> AllSpans(lines) == [])
    ensures lines != [] && r.Some? ==>
      forall s :: s in AllSpans(lines) ==> Inside(s.bbox, r.value)
  {
    if lines == [] then Some(BBox(0.0, 0.0, 0.0, 0.0)) else SpanBounds(AllSpans(lines))
  }

  /** Taking one more span into the bounds extends them by its box. */
  lemma SpanBoundsStep(before: seq<Span>, spans: seq<Span>, j: nat)
    requires j < |spans|
    ensures SpanBounds(before + spans[..j + 1]) == Some(Extend(SpanBounds(before + spans[..j]), spans[j].bbox))
  {
    assert (before + spans[..j + 1])[..|before| + j] == before + spans[..j];
  }

  /** get_block_bbox: the min/max accumulation over every span of every line. */
  method GetBlockBBox(lines: seq<Line>) returns (r: Option<BBox>)
    ensures r == BlockBBox(lines)
  {
    if lines == [] {
      return Some(BBox(0.0, 0.0, 0.0, 0.0));
    }
    var acc: Option<BBox> := None;
    for i := 0 to |lines|
      invariant acc == SpanBounds(AllSpans(lines[..i]))
    {
      var spans := lines[i].spans;
      ghost var before := AllSpans(lines[..i]);
      assert before + spans[..0] == before;
      for j := 0 to |spans|
        invariant acc == SpanBounds(before + spans[..j])
      {
        SpanBoundsStep(before, spans, j);
        acc := Some(Extend(acc, spans[j].bbox));
      }
      assert spans[..|spans|] == spans;
      AllSpansStep(lines, i);
    }
    assert lines[..|lines|] == lines;
    r := acc;
  }

  // ---------------------------------------------------------------------
  // get_representative_span
  // ---------------------------------------------------------------------

  predicate NonBlankSpan(s: Span) {
    Strip(s.text) != []
  }

  /** span_priority: stripped length, +100 when bold, + 2 * size. */
  function SpanPriority(s: Span): real {
    (|Strip(s.text)| as real) + (if IsBold(s.flags) then 100.0 else 0.0) + s.size * 2.0
  }

  /** get_representative_span as a value: None without spans, the first span
      when all are blank, otherwise the first non-blank span of highest
      priority. */
  function RepresentativeSpan(lines: seq<Line>): (r: Option<Span>)
    ensures r.None? <==> AllSpans(lines) == []
    ensures r.Some? ==> r.value in AllSpans(lines)
    ensures AllSpans(lines) != [] && Filter(AllSpans(lines), NonBlankSpan) == [] ==>
      r == Some(AllSpans(lines)[0])
    ensures var ne := Filter(AllSpans(lines), NonBlankSpan);
      ne != [] ==>
        exists k :: 0 <= k < |ne| && r == Some(ne[k]) &&
          (forall j :: 0 <= j < |ne| ==> SpanPriority(ne[j]) <= SpanPriority(ne[k])) &&
          (forall j :: 0 <= j < k ==> SpanPriority(ne[j]) < SpanPriority(ne[k]))
  {
    var all := AllSpans(lines);
    if all == [] then None
    else
      var ne := Filter(all, NonBlankSpan);
      if ne == [] then Some(all[0])
      else
        var k := ArgMaxFirst(ne, SpanPriority);
        assert ne[k] in ne;
        Some(ne[k])
  }

  lemma RepresentativeIsNonBlank(lines: seq<Line>)
    requires exists s :: s in AllSpans(lines) && NonBlankSpan(s)
    ensures RepresentativeSpan(lines).Some? && NonBlankSpan(RepresentativeSpan(lines).value)
  {
    var s :| s in AllSpans(lines) && NonBlankSpan(s);
    assert s in Filter(AllSpans(lines), NonBlankSpan);
  }

  /** get_representative_span: gathers the spans line by line, then picks. */
  method GetRepresentativeSpan(lines: seq<Line>) returns (r: Option<Span>)
    ensures r == RepresentativeSpan(lines)
  {
    var allSpans: seq<Span> := [];
    for i := 0 to |lines|
      invariant allSpans == AllSpans(lines[..i])
    {
      AllSpansStep(lines, i);
      allSpans := allSpans + lines[i].spans;
    }
    assert lines[..|lines|] == lines;
    if allSpans == [] {
      return None;
    }
    var nonEmpty := Filter(allSpans, NonBlankSpan);
    if nonEmpty == [] {
      return Some(allSpans[0]);
    }
    r := Some(nonEmpty[ArgMaxFirst(nonEmpty, SpanPriority)]);
  }

  // ---------------------------------------------------------------------
  // clean_heading_text / clean_title_text
  // ---------------------------------------------------------------------

  /** The leading-bullet class [\•\-\*\+►▪▫◦‣⁃\s]. */
  predicate IsBulletOrSpace(c: char) {
    IsSpace(c) || c == '\U{2022}' || c == '-' || c == '*' || c == '+' || c == '\U{25BA}' ||
    c == '\U{25AA}' || c == '\U{25AB}' || c == '\U{25E6}' || c == '\U{2023}' || c == '\U{2043}'
  }

  /** The first two steps of clean_heading_text: strip, collapse whitespace
      runs to one space, drop the leading bullets and spaces. */
  function NormalizeHeading(text: string): string {
    var c := CollapseSpaces(Strip(text));
    c[RunLen(c, IsBulletOrSpace)..]
  }

  /** The trailing-period condition: ends in '.', more than one word, and the
      last word is longer than three characters. */
  predicate PeriodRuleApplies(n: string) {
    var ws := Words(n);
    EndsWithChar(n, '.') && |ws| > 1 && |ws[|ws| - 1]| > 3
  }

  lemma NormalizeHeadingShape(text: string)
    ensures SingleSpaced(NormalizeHeading(text))
    ensures |NormalizeHeading(text)| <= |text|
    ensures NormalizeHeading(text) != [] ==> !IsBulletOrSpace(NormalizeHeading(text)[0])
  {
    var c := CollapseSpaces(Strip(text));
    StripSpec(text);
    CollapseStrippedIsSingleSpaced(Strip(text));
    var k := RunLen(c, IsBulletOrSpace);
    var n := c[k..];
    CollapsedSlice(c, k, |c|);
    assert n != [] ==> n[|n| - 1] == c[|c| - 1];
  }

  /** clean_heading_text */
  function CleanHeadingText(text: string): (r: string)
    ensures SingleSpaced(r)
    ensures r != [] ==> !IsBulletOrSpace(r[0])
    ensures |r| <= |text|
  {
    var n := NormalizeHeading(text);
    NormalizeHeadingShape(text);
    var c := if PeriodRuleApplies(n) then TrimRightChar(n, '.') else n;
    assert c == n[..|c|];
    CollapsedSlice(n, 0, |c|);
    StripCollapsed(c);
    assert c != [] ==> c[0] == n[0];
    assert c != [] ==> TrimLeft(c) == c;
    TrimRightSpec(c);
    Strip(c)
  }

  /** The period rule is the only step after normalisation: without it the
      cleaned text is the normalised text itself, with it every trailing
      '.' is removed before the final strip. */
  lemma CleanHeadingPeriodRule(text: string)
    ensures var n := NormalizeHeading(text);
      && (PeriodRuleApplies(n) ==> CleanHeadingText(text) == Strip(TrimRightChar(n, '.')))
      && (!PeriodRuleApplies(n) ==> CleanHeadingText(text) == n)
  {
    NormalizeHeadingShape(text);
  }

  /** clean_title_text: strip, then collapse whitespace runs; only
      whitespace changes. */
  function CleanTitleText(text: string): (r: string)
    ensures SingleSpaced(r)
    ensures Words(r) == Words(text)
    ensures r == JoinWith(Words(text), " ")
    ensures NonSpace(r) == NonSpace(text)
    ensures |r| <= |text|
  {
    StripSpec(text);
    CollapseStrippedIsSingleSpaced(Strip(text));
    WordsCollapse(Strip(text));
    WordsStrip(text);
    SingleSpacedIsJoin(CollapseSpaces(Strip(text)));
    NonSpaceCollapse(Strip(text));
    NonSpaceStrip(text);
    CollapseSpaces(Strip(text))
  }
}
