/** challenge_1a/src/font_analyzer.py (and its identical copy under src/):
    the body font size and family, the size hierarchy, and the two queries
    the heading classifier asks about a block. The analyzer consults a
    content filter; which filter it is does not matter here, so its
    validity test is passed in as a predicate on blocks. */
module FontAnalysis {
  import opened Blocks
  import opened Seqs

  /** What analyze_font_patterns returns. The fallback for a document
      without valid blocks has no "unique_sizes" entry (None here). */
  datatype FontStats = FontStats(
    bodyFontSize: real,
    bodyFontFamily: string,
    fontSizeHierarchy: seq<real>,
    uniqueSizes: Option<seq<real>>)

  /** The answer for a document without valid blocks. */
  const DefaultStats: FontStats := FontStats(12.0, "Arial", [], None)

  // ---------------------------------------------------------------------
  // Counter(xs).most_common(1)[0][0]
  // ---------------------------------------------------------------------

  /** The most frequent value; among equally frequent values the one seen
      first, as a Counter keeps first-insertion order and most_common sorts
      stably by count. */
  function MostCommon<T(==)>(xs: seq<T>): (m: T)
    requires |xs| > 0
    ensures m in xs
    ensures forall y :: y in xs ==> multiset(xs)[y] <= multiset(xs)[m]
    ensures forall j :: 0 <= j < |xs| && multiset(xs)[xs[j]] == multiset(xs)[m] ==>
      exists i :: 0 <= i <= j && xs[i] == m
  {
    var k := ArgMaxFirst(xs, x => multiset(xs)[x] as real);
    var m := xs[k];
    assert forall y :: y in xs ==> multiset(xs)[y] <= multiset(xs)[m] by {
      forall y | y in xs
        ensures multiset(xs)[y] <= multiset(xs)[m]
      {
        var j :| 0 <= j < |xs| && xs[j] == y;
      }
    }
    assert forall j :: 0 <= j < |xs| && multiset(xs)[xs[j]] == multiset(xs)[m] ==>
      exists i :: 0 <= i <= j && xs[i] == m by {
      forall j | 0 <= j < |xs| && multiset(xs)[xs[j]] == multiset(xs)[m]
        ensures exists i :: 0 <= i <= j && xs[i] == m
      {
        assert k <= j;
      }
    }
    m
  }

  // ---------------------------------------------------------------------
  // sorted(set(xs), reverse=True)
  // ---------------------------------------------------------------------

  /** Strictly descending: sorted high to low without repeats. */
  predicate StrictlyDescending(s: seq<real>) {
    forall i, j :: 0 <= i < j < |s| ==> s[i] > s[j]
  }

  /** Inserts x into a strictly descending sequence, unless it is there. */
  function Insert(x: real, s: seq<real>): (r: seq<real>)
    requires StrictlyDescending(s)
    ensures StrictlyDescending(r)
    ensures forall y :: y in r <==> y == x || y in s
    ensures r != [] && (s == [] || r[0] == if x > s[0] then x else s[0])
  {
    if s == [] then [x]
    else if x > s[0] then [x] + s
    else if x == s[0] then s
    else
      var rest := Insert(x, s[1..]);
      assert forall y :: y in s[1..] ==> y < s[0];
      [s[0]] + rest
  }

  /** The distinct values of xs from the largest to the smallest. */
  function UniqueDescending(xs: seq<real>): (r: seq<real>)
    ensures StrictlyDescending(r)
    ensures forall y :: y in r <==> y in xs
  {
    if xs == [] then []
    else Insert(xs[|xs| - 1], UniqueDescending(xs[..|xs| - 1]))
  }

  /** A strictly descending sequence has no repeats. */
  lemma DescendingIsUnique(s: seq<real>, i: nat, j: nat)
    requires StrictlyDescending(s)
    requires i < |s| && j < |s| && s[i] == s[j]
    ensures i == j
  {
  }

  // ---------------------------------------------------------------------
  // analyze_font_patterns
  // ---------------------------------------------------------------------

  /** [block["font_size"] for block in blocks] */
  function FontSizes(blocks: seq<Block>): (sizes: seq<real>)
    ensures |sizes| == |blocks|
    ensures forall i :: 0 <= i < |blocks| ==> sizes[i] == blocks[i].fontSize
  {
    seq(|blocks|, i requires 0 <= i < |blocks| => blocks[i].fontSize)
  }

  /** [block["font_family"] for block in blocks] */
  function FontFamilies(blocks: seq<Block>): (families: seq<string>)
    ensures |families| == |blocks|
    ensures forall i :: 0 <= i < |blocks| ==> families[i] == blocks[i].fontFamily
  {
    seq(|blocks|, i requires 0 <= i < |blocks| => blocks[i].fontFamily)
  }

  /** The heading sizes (larger than the body size, still descending)
      followed by the body size. */
  function Hierarchy(unique: seq<real>, body: real): seq<real> {
    Filter(unique, size => size > body) + [body]
  }

  /** The statistics of a non-empty list of valid blocks. */
  function StatsOf(valid: seq<Block>): FontStats
    requires valid != []
  {
    var sizes := FontSizes(valid);
    var body := MostCommon(sizes);
    var unique := UniqueDescending(sizes);
    FontStats(body, MostCommon(FontFamilies(valid)), Hierarchy(unique, body), Some(unique))
  }

  /** Filtering keeps the order of what it keeps. */
  lemma {:induction false} FilterDescending(s: seq<real>, p: real -> bool)
    requires StrictlyDescending(s)
    ensures StrictlyDescending(Filter(s, p))
    decreases |s|
  {
    if s != [] {
      var init := s[..|s| - 1];
      FilterDescending(init, p);
      var f := Filter(init, p);
      forall y | y in f
        ensures y > s[|s| - 1]
      {
        var i :| 0 <= i < |init| && init[i] == y;
      }
      if p(s[|s| - 1]) {
        var r := f + [s[|s| - 1]];
        forall i, j | 0 <= i < j < |r|
          ensures r[i] > r[j]
        {
          if j == |r| - 1 {
            assert r[i] in f;
          }
        }
      } else {
        assert Filter(s, p) == f;
      }
    }
  }

  /** Over a descending list of unique sizes, the hierarchy is strictly
      descending, ends with the body size, and holds exactly the body size
      and the listed sizes above it. */
  lemma HierarchyShape(unique: seq<real>, body: real)
    requires StrictlyDescending(unique)
    ensures var h := Hierarchy(unique, body);
      && StrictlyDescending(h) && h[|h| - 1] == body
      && forall s :: s in h <==> s == body || (s > body && s in unique)
  {
    var heads := Filter(unique, size => size > body);
    FilterDescending(unique, size => size > body);
    var h := heads + [body];
    forall i, j | 0 <= i < j < |h|
      ensures h[i] > h[j]
    {
      if j == |h| - 1 {
        assert h[i] in heads;
      }
    }
  }

  /** The size hierarchy of a document is strictly descending, ends with
      the body size, and holds the body size and every occurring size above
      it, and nothing else. */
  lemma HierarchyOfDocument(valid: seq<Block>, s: real)
    requires valid != []
    ensures var st := StatsOf(valid);
      && StrictlyDescending(st.fontSizeHierarchy)
      && st.fontSizeHierarchy[|st.fontSizeHierarchy| - 1] == st.bodyFontSize
      && (s in st.fontSizeHierarchy <==>
            s == st.bodyFontSize || (s > st.bodyFontSize && exists i :: 0 <= i < |valid| && valid[i].fontSize == s))
  {
    var sizes := FontSizes(valid);
    var unique := UniqueDescending(sizes);
    var st := StatsOf(valid);
    assert st.fontSizeHierarchy == Hierarchy(unique, st.bodyFontSize);
    HierarchyShape(unique, st.bodyFontSize);
    assert s in unique <==> s in sizes;
    if s in sizes {
      var i :| 0 <= i < |sizes| && sizes[i] == s;
      assert valid[i].fontSize == s;
    }
    if exists i :: 0 <= i < |valid| && valid[i].fontSize == s {
      var i :| 0 <= i < |valid| && valid[i].fontSize == s;
      assert sizes[i] == s;
    }
  }

  /** The hierarchy of the blocks a filter keeps: strictly descending,
      holding the body size and exactly the larger sizes of kept blocks. */
  lemma HierarchyOfFiltered(blocks: seq<Block>, p: Block -> bool, s: real)
    requires Filter(blocks, p) != []
    ensures var st := StatsOf(Filter(blocks, p));
      && StrictlyDescending(st.fontSizeHierarchy)
      && (s in st.fontSizeHierarchy <==>
            s == st.bodyFontSize || (s > st.bodyFontSize && exists b :: b in blocks && p(b) && b.fontSize == s))
  {
    HierarchyOfDocument(Filter(blocks, p), s);
    FilteredSizes(blocks, p, s);
  }

  /** A size occurs among the kept blocks exactly when a block of the
      input that passes the filter has it. */
  lemma FilteredSizes(blocks: seq<Block>, p: Block -> bool, s: real)
    ensures (exists i :: 0 <= i < |Filter(blocks, p)| && Filter(blocks, p)[i].fontSize == s) <==>
      (exists b :: b in blocks && p(b) && b.fontSize == s)
  {
    var valid := Filter(blocks, p);
    if exists b :: b in blocks && p(b) && b.fontSize == s {
      var b :| b in blocks && p(b) && b.fontSize == s;
      assert b in valid;
      var i :| 0 <= i < |valid| && valid[i] == b;
      assert Filter(blocks, p)[i].fontSize == s;
    } else {
      forall i | 0 <= i < |valid|
        ensures valid[i].fontSize != s
      {
        assert valid[i] in valid;
      }
    }
  }

  /** The body size is a size that occurs most often among the valid
      blocks, and it is among the unique sizes; the body family is the
      family of some valid block. */
  lemma BodyIsMostCommon(valid: seq<Block>, i: nat)
    requires valid != [] && i < |valid|
    ensures var st := StatsOf(valid);
      && multiset(FontSizes(valid))[valid[i].fontSize] <= multiset(FontSizes(valid))[st.bodyFontSize]
      && st.uniqueSizes.Some? && st.bodyFontSize in st.uniqueSizes.value
      && exists k :: 0 <= k < |valid| && valid[k].fontFamily == st.bodyFontFamily
  {
    var sizes := FontSizes(valid);
    assert sizes[i] in sizes;
    var fam := MostCommon(FontFamilies(valid));
    var k :| 0 <= k < |valid| && FontFamilies(valid)[k] == fam;
  }

  /** The hierarchy is never empty once the statistics exist. */
  lemma HierarchyNonEmpty(valid: seq<Block>)
    requires valid != []
    ensures StatsOf(valid).fontSizeHierarchy != []
  {
  }

  class FontAnalyzer {
    /** font_stats: None until a document with valid blocks is analysed. */
    var fontStats: Option<FontStats>

    constructor ()
      ensures fontStats == None
    {
      fontStats := None;
    }

    /** analyze_font_patterns: keep the blocks the filter accepts; without
        any, answer the default and leave font_stats as it was; otherwise
        store and answer the statistics of the valid blocks. */
    method AnalyzeFontPatterns(blocks: seq<Block>, isValid: Block -> bool) returns (stats: FontStats)
      modifies this
      ensures var valid := Filter(blocks, isValid);
        if valid == [] then stats == DefaultStats && fontStats == old(fontStats)
        else stats == StatsOf(valid) && fontStats == Some(stats)
    {
      var validBlocks: seq<Block> := [];
      for i := 0 to |blocks|
        invariant validBlocks == Filter(blocks[..i], isValid)
      {
        assert blocks[..i + 1][..i] == blocks[..i];
        if isValid(blocks[i]) {
          validBlocks := validBlocks + [blocks[i]];
        }
      }
      assert blocks[..|blocks|] == blocks;
      if validBlocks == [] {
        return DefaultStats;
      }
      var fontSizes := FontSizes(validBlocks);
      var bodyFontSize := MostCommon(fontSizes);
      var uniqueSizes := UniqueDescending(fontSizes);
      var headingSizes := Filter(uniqueSizes, size => size > bodyFontSize);
      var bodyFontFamily := MostCommon(FontFamilies(validBlocks));
      fontStats := Some(FontStats(bodyFontSize, bodyFontFamily, headingSizes + [bodyFontSize], Some(uniqueSizes)));
      stats := fontStats.value;
    }
  }

  // ---------------------------------------------------------------------
  // has_visual_distinction and get_font_size_level
  // ---------------------------------------------------------------------

  /** has_visual_distinction: bold, italic, larger than the body size, or
      another font family; never without statistics. */
  predicate HasVisualDistinction(stats: Option<FontStats>, b: Block) {
    stats.Some? &&
    (IsBold(b.flags) || IsItalic(b.flags) || b.fontSize > stats.value.bodyFontSize ||
     b.fontFamily != stats.value.bodyFontFamily)
  }

  /** A plain block in the body size and family is not distinct; any one
      of the four cues makes it distinct. */
  lemma VisualDistinctionCases(stats: FontStats, b: Block)
    ensures (!IsBold(b.flags) && !IsItalic(b.flags) && b.fontSize <= stats.bodyFontSize &&
             b.fontFamily == stats.bodyFontFamily) ==> !HasVisualDistinction(Some(stats), b)
    ensures IsBold(b.flags) ==> HasVisualDistinction(Some(stats), b)
    ensures IsItalic(b.flags) ==> HasVisualDistinction(Some(stats), b)
    ensures b.fontSize > stats.bodyFontSize ==> HasVisualDistinction(Some(stats), b)
    ensures b.fontFamily != stats.bodyFontFamily ==> HasVisualDistinction(Some(stats), b)
    ensures !HasVisualDistinction(None, b)
  {
  }

  /** get_font_size_level: 2 without statistics or hierarchy; otherwise 1
      above body + 2, 2 above the body size, 3 at or below it. */
  function FontSizeLevel(stats: Option<FontStats>, size: real): (level: int)
    ensures 1 <= level <= 3
    ensures stats.None? || stats.value.fontSizeHierarchy == [] ==> level == 2
    ensures stats.Some? && stats.value.fontSizeHierarchy != [] ==>
      (level == 1 <==> size > stats.value.bodyFontSize + 2.0) &&
      (level == 3 <==> size <= stats.value.bodyFontSize)
  {
    if stats.None? || stats.value.fontSizeHierarchy == [] then 2
    else
      var body := stats.value.bodyFontSize;
      if size > body + 2.0 then 1
      else if size > body then 2
      else 3
  }

  /** A larger font never gets a deeper level. */
  lemma FontSizeLevelMonotone(stats: Option<FontStats>, small: real, large: real)
    requires small <= large
    ensures FontSizeLevel(stats, large) <= FontSizeLevel(stats, small)
  {
  }

  /** After an analysis with valid blocks, level 2 means strictly between
      the body size and body + 2. */
  lemma LevelTwoBand(valid: seq<Block>, size: real)
    requires valid != []
    ensures var st := StatsOf(valid);
      FontSizeLevel(Some(st), size) == 2 <==> st.bodyFontSize < size <= st.bodyFontSize + 2.0
  {
    var st := StatsOf(valid);
    assert st.fontSizeHierarchy != [] by { HierarchyNonEmpty(valid); }
    var body := st.bodyFontSize;
    assert FontSizeLevel(Some(st), size) == if size > body + 2.0 then 1 else if size > body then 2 else 3;
  }
}
