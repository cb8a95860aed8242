/** Character classes and the string operations the outline pipeline relies
    on: Python's str.strip, str.split, str.lower and str.rstrip, the
    whitespace collapse re.sub(r'\s+', ' ', s), and the run lengths that the
    hand-written regular-expression predicates are built from.

    Whitespace is the set Python's str.isspace accepts, which is also what
    \s, str.strip and str.split use. Digits, letters and word characters are
    the ASCII ones; Python's Unicode classes for those are wider (see README). */
module Strings {

  // ---------------------------------------------------------------------
  // Character classes
  // ---------------------------------------------------------------------

  /** The characters str.isspace accepts: matched by \s, removed by
      str.strip and separating the words of str.split. */
  predicate IsSpace(c: char) {
    ('\t' <= c <= '\r') || ('\U{1C}' <= c <= ' ') || c == '\U{85}' || c == '\U{A0}'
    || c == '\U{1680}' || ('\U{2000}' <= c <= '\U{200A}') || c == '\U{2028}' || c == '\U{2029}'
    || c == '\U{202F}' || c == '\U{205F}' || c == '\U{3000}'
  }

  predicate IsNonSpace(c: char) { !IsSpace(c) }

  predicate IsDigit(c: char) { '0' <= c <= '9' }

  predicate IsUpper(c: char) { 'A' <= c <= 'Z' }

  predicate IsLowerLetter(c: char) { 'a' <= c <= 'z' }

  predicate IsAlpha(c: char) { IsUpper(c) || IsLowerLetter(c) }

  /** \w */
  predicate IsWordChar(c: char) { IsAlpha(c) || IsDigit(c) || c == '_' }

  function ToLower(c: char): char {
    if IsUpper(c) then (c as int + 32) as char else c
  }

  /** str.lower() */
  function Lower(s: string): string {
    seq(|s|, i requires 0 <= i < |s| => ToLower(s[i]))
  }

  lemma LowerAppend(a: string, b: string)
    ensures Lower(a + b) == Lower(a) + Lower(b)
  {
  }

  lemma LowerSlice(s: string, i: nat, j: nat)
    requires i <= j <= |s|
    ensures Lower(s[i..j]) == Lower(s)[i..j]
  {
  }

  lemma LowerIdempotent(s: string)
    ensures Lower(Lower(s)) == Lower(s)
  {
  }

  /** p gives the same answer for a character and its lower-case form. */
  predicate CaseBlind(p: char -> bool) {
    forall c :: p(ToLower(c)) == p(c)
  }

  lemma CaseBlindClasses()
    ensures CaseBlind(IsSpace) && CaseBlind(IsNonSpace) && CaseBlind(IsDigit) && CaseBlind(IsWordChar)
  {
  }

  predicate AllDigits(s: string) {
    forall i :: 0 <= i < |s| ==> IsDigit(s[i])
  }

  predicate AllAlpha(s: string) {
    forall i :: 0 <= i < |s| ==> IsAlpha(s[i])
  }

  /** No character of s is whitespace: str.strip() of s is empty. */
  predicate IsBlank(s: string) {
    forall i :: 0 <= i < |s| ==> IsSpace(s[i])
  }

  // ---------------------------------------------------------------------
  // Runs and prefix tests
  // ---------------------------------------------------------------------

  /** Length of the longest prefix of s whose characters all satisfy p. */
  function RunLen(s: string, p: char -> bool): (n: nat)
    ensures n <= |s|
    ensures forall i :: 0 <= i < n ==> p(s[i])
    ensures n < |s| ==> !p(s[n])
    ensures |s| > 0 && p(s[0]) ==> n > 0
  {
    if |s| > 0 && p(s[0]) then 1 + RunLen(s[1..], p) else 0
  }

  lemma {:induction false} RunLenLower(s: string, p: char -> bool)
    requires CaseBlind(p)
    ensures RunLen(Lower(s), p) == RunLen(s, p)
    decreases |s|
  {
    if |s| > 0 {
      assert Lower(s)[1..] == Lower(s[1..]);
      assert p(Lower(s)[0]) == p(s[0]);
      RunLenLower(s[1..], p);
    }
  }

  /** Length of the longest suffix of s whose characters all satisfy p. */
  function TailRunLen(s: string, p: char -> bool): (n: nat)
    ensures n <= |s|
    ensures forall i :: |s| - n <= i < |s| ==> p(s[i])
    ensures n < |s| ==> !p(s[|s| - n - 1])
  {
    if |s| > 0 && p(s[|s| - 1]) then 1 + TailRunLen(s[..|s| - 1], p) else 0
  }

  predicate StartsWith(s: string, prefix: string) {
    |prefix| <= |s| && s[..|prefix|] == prefix
  }

  /** Case-insensitive prefix test; `prefix` is given in lower case. */
  predicate StartsWithCI(s: string, prefix: string) {
    |prefix| <= |s| && Lower(s[..|prefix|]) == prefix
  }

  predicate EndsWithChar(s: string, c: char) {
    |s| > 0 && s[|s| - 1] == c
  }

  /** Python's `sub in s`. */
  predicate Contains(s: string, sub: string)
    decreases |s|
  {
    StartsWith(s, sub) || (|s| > 0 && Contains(s[1..], sub))
  }

  /** `any(k in s for k in keys)` */
  predicate ContainsAny(s: string, keys: seq<string>) {
    exists i :: 0 <= i < |keys| && Contains(s, keys[i])
  }

  // ---------------------------------------------------------------------
  // strip / rstrip
  // ---------------------------------------------------------------------

  function TrimLeft(s: string): (r: string)
    ensures |r| <= |s|
  {
    if |s| > 0 && IsSpace(s[0]) then TrimLeft(s[1..]) else s
  }

  /** TrimLeft removes exactly the leading whitespace. */
  lemma {:induction false} TrimLeftSpec(s: string)
    ensures TrimLeft(s) == s[|s| - |TrimLeft(s)|..]
    ensures TrimLeft(s) == [] || !IsSpace(TrimLeft(s)[0])
    ensures forall i :: 0 <= i < |s| - |TrimLeft(s)| ==> IsSpace(s[i])
    decreases |s|
  {
    if |s| > 0 && IsSpace(s[0]) {
      TrimLeftSpec(s[1..]);
    }
  }

  function TrimRight(s: string): (r: string)
    ensures |r| <= |s|
  {
    if |s| > 0 && IsSpace(s[|s| - 1]) then TrimRight(s[..|s| - 1]) else s
  }

  /** TrimRight removes exactly the trailing whitespace. */
  lemma {:induction false} TrimRightSpec(s: string)
    ensures TrimRight(s) == s[..|TrimRight(s)|]
    ensures TrimRight(s) == [] || !IsSpace(TrimRight(s)[|TrimRight(s)| - 1])
    ensures forall i :: |TrimRight(s)| <= i < |s| ==> IsSpace(s[i])
    decreases |s|
  {
    if |s| > 0 && IsSpace(s[|s| - 1]) {
      TrimRightSpec(s[..|s| - 1]);
    }
  }

  lemma {:induction false} TrimLeftLower(s: string)
    ensures TrimLeft(Lower(s)) == Lower(TrimLeft(s))
    decreases |s|
  {
    if |s| > 0 {
      assert Lower(s)[1..] == Lower(s[1..]);
      assert IsSpace(Lower(s)[0]) == IsSpace(s[0]);
      TrimLeftLower(s[1..]);
    }
  }

  lemma {:induction false} TrimRightLower(s: string)
    ensures TrimRight(Lower(s)) == Lower(TrimRight(s))
    decreases |s|
  {
    if |s| > 0 {
      assert Lower(s)[..|s| - 1] == Lower(s[..|s| - 1]);
      assert IsSpace(Lower(s)[|s| - 1]) == IsSpace(s[|s| - 1]);
      TrimRightLower(s[..|s| - 1]);
    }
  }

  /** Neither end of s is whitespace. */
  predicate IsStripped(s: string) {
    s == [] || (!IsSpace(s[0]) && !IsSpace(s[|s| - 1]))
  }

  /** str.strip() */
  function Strip(s: string): (r: string)
    ensures |r| <= |s|
  {
    TrimRight(TrimLeft(s))
  }

  lemma {:induction false} TrimLeftStripped(s: string)
    requires IsStripped(s)
    ensures TrimLeft(s) == s
  {
  }

  lemma {:induction false} TrimRightStripped(s: string)
    requires IsStripped(s)
    ensures TrimRight(s) == s
  {
  }

  lemma {:induction false} TrimLeftOfBlank(s: string)
    requires IsBlank(s)
    ensures TrimLeft(s) == []
    decreases |s|
  {
    if s != [] {
      TrimLeftOfBlank(s[1..]);
    }
  }

  /** What strip promises: the result has no whitespace at either end, is
      the text itself when that is already stripped, and is empty exactly
      for blank text. */
  lemma StripSpec(s: string)
    ensures IsStripped(Strip(s))
    ensures IsStripped(s) ==> Strip(s) == s
    ensures Strip(s) == [] <==> IsBlank(s)
  {
    var t := TrimLeft(s);
    TrimLeftSpec(s);
    TrimRightSpec(t);
    if t != [] {
      assert !IsSpace(t[0]);
      assert TrimRight(t) != [] && TrimRight(t)[0] == t[0];
    }
    if IsStripped(s) {
      TrimLeftStripped(s);
      TrimRightStripped(s);
    }
    if IsBlank(s) {
      TrimLeftOfBlank(s);
    }
    if t == [] {
      assert forall i :: 0 <= i < |s| ==> IsSpace(s[i]);
    }
  }

  /** Lowering commutes with strip: whitespace has no case. */
  lemma StripLower(s: string)
    ensures Strip(Lower(s)) == Lower(Strip(s))
  {
    TrimLeftLower(s);
    TrimRightLower(TrimLeft(s));
  }

  /** Strip(s) is the slice of s between its leading and trailing whitespace. */
  lemma StripIsSlice(s: string)
    ensures var a := |s| - |TrimLeft(s)|;
            a + |Strip(s)| <= |s| && Strip(s) == s[a..a + |Strip(s)|]
  {
    var t := TrimLeft(s);
    var a := |s| - |t|;
    TrimLeftSpec(s);
    TrimRightSpec(t);
    assert t == s[a..];
    assert Strip(s) == t[..|Strip(s)|];
  }

  lemma StripIdempotent(s: string)
    ensures Strip(Strip(s)) == Strip(s)
  {
    StripSpec(s);
    StripSpec(Strip(s));
  }

  /** str.rstrip(c) */
  function TrimRightChar(s: string, c: char): (r: string)
    ensures |r| <= |s| && r == s[..|r|]
    ensures r == [] || r[|r| - 1] != c
  {
    if |s| > 0 && s[|s| - 1] == c then TrimRightChar(s[..|s| - 1], c) else s
  }

  // ---------------------------------------------------------------------
  // split / join / whitespace collapse
  // ---------------------------------------------------------------------

  /** str.split() with no argument: the maximal runs of non-whitespace. */
  function Words(s: string): (ws: seq<string>)
    decreases |s|
  {
    var t := TrimLeft(s);
    if t == [] then []
    else
      var n := RunLen(t, IsNonSpace);
      TrimLeftSpec(s);
      assert n > 0;
      [t[..n]] + Words(t[n..])
  }

  /** sep.join(parts) */
  function JoinWith(parts: seq<string>, sep: string): string {
    if |parts| == 0 then ""
    else if |parts| == 1 then parts[0]
    else parts[0] + sep + JoinWith(parts[1..], sep)
  }

  /** re.sub(r'\s+', ' ', s) */
  function CollapseSpaces(s: string): (r: string)
    ensures |r| <= |s|
    decreases |s|
  {
    if s == [] then []
    else if IsSpace(s[0]) then [' '] + CollapseSpaces(s[RunLen(s, IsSpace)..])
    else [s[0]] + CollapseSpaces(s[1..])
  }

  /** Every whitespace character is a plain space and none follows another. */
  predicate SpacesCollapsed(s: string) {
    forall i :: 0 <= i < |s| && IsSpace(s[i]) ==>
      s[i] == ' ' && (i + 1 < |s| ==> !IsSpace(s[i + 1]))
  }

  /** Text in normal form: stripped, with single spaces between words. */
  predicate SingleSpaced(s: string) {
    IsStripped(s) && SpacesCollapsed(s)
  }

  lemma ConsCollapsed(c: char, rest: string)
    requires SpacesCollapsed(rest)
    requires IsSpace(c) ==> c == ' ' && (rest == [] || !IsSpace(rest[0]))
    ensures SpacesCollapsed([c] + rest)
  {
    var t := [c] + rest;
    forall i | 0 <= i < |t| && IsSpace(t[i])
      ensures t[i] == ' ' && (i + 1 < |t| ==> !IsSpace(t[i + 1]))
    {
      if i > 0 {
        assert t[i] == rest[i - 1];
        if i + 1 < |t| {
          assert t[i + 1] == rest[i];
        }
      }
    }
  }

  lemma {:induction false} CollapseSpacesCollapsed(s: string)
    ensures SpacesCollapsed(CollapseSpaces(s))
    ensures |s| > 0 ==> |CollapseSpaces(s)| > 0 && (IsSpace(CollapseSpaces(s)[0]) <==> IsSpace(s[0]))
    decreases |s|
  {
    if s == [] {
    } else if IsSpace(s[0]) {
      var rest := s[RunLen(s, IsSpace)..];
      CollapseSpacesCollapsed(rest);
      ConsCollapsed(' ', CollapseSpaces(rest));
    } else {
      CollapseSpacesCollapsed(s[1..]);
      ConsCollapsed(s[0], CollapseSpaces(s[1..]));
    }
  }

  lemma {:induction false} CollapseSpacesLast(s: string)
    requires |s| > 0 && !IsSpace(s[|s| - 1])
    ensures |CollapseSpaces(s)| > 0
    ensures CollapseSpaces(s)[|CollapseSpaces(s)| - 1] == s[|s| - 1]
    decreases |s|
  {
    if IsSpace(s[0]) {
      var n := RunLen(s, IsSpace);
      assert n < |s|;
      CollapseSpacesLast(s[n..]);
    } else if |s| > 1 {
      CollapseSpacesLast(s[1..]);
    }
  }

  /** Collapsing the whitespace of stripped text yields single-spaced text. */
  lemma CollapseStrippedIsSingleSpaced(s: string)
    requires IsStripped(s)
    ensures SingleSpaced(CollapseSpaces(s))
  {
    CollapseSpacesCollapsed(s);
    if |s| > 0 {
      CollapseSpacesLast(s);
    }
  }

  lemma CollapsedSlice(s: string, i: nat, j: nat)
    requires SpacesCollapsed(s) && i <= j <= |s|
    ensures SpacesCollapsed(s[i..j])
  {
    var t := s[i..j];
    forall k | 0 <= k < |t| && IsSpace(t[k])
      ensures t[k] == ' ' && (k + 1 < |t| ==> !IsSpace(t[k + 1]))
    {
      assert t[k] == s[i + k];
      if k + 1 < |t| {
        assert t[k + 1] == s[i + k + 1];
      }
    }
  }

  /** Stripping single-spaced-collapsed text gives single-spaced text. */
  lemma StripCollapsed(s: string)
    requires SpacesCollapsed(s)
    ensures SingleSpaced(Strip(s))
  {
    var t := Strip(s);
    var a := |s| - |TrimLeft(s)|;
    assert a + |t| <= |s| && t == s[a..a + |t|] by {
      StripIsSlice(s);
    }
    assert SpacesCollapsed(t) by {
      CollapsedSlice(s, a, a + |t|);
    }
    assert IsStripped(t) by {
      StripSpec(s);
    }
  }

  // ---------------------------------------------------------------------
  // The non-whitespace content of a text
  // ---------------------------------------------------------------------

  /** The characters of s that are not whitespace, in order. */
  function NonSpace(s: string): string {
    if s == [] then [] else NonSpace(s[..|s| - 1]) + (if IsSpace(s[|s| - 1]) then [] else [s[|s| - 1]])
  }

  lemma {:induction false} NonSpaceAppend(a: string, b: string)
    ensures NonSpace(a + b) == NonSpace(a) + NonSpace(b)
    decreases |b|
  {
    if b == [] {
      assert a + b == a;
    } else {
      var b' := b[..|b| - 1];
      assert (a + b)[..|a + b| - 1] == a + b';
      NonSpaceAppend(a, b');
    }
  }

  lemma {:induction false} NonSpaceOfBlank(s: string)
    requires IsBlank(s)
    ensures NonSpace(s) == []
    decreases |s|
  {
    if s != [] {
      NonSpaceOfBlank(s[..|s| - 1]);
    }
  }

  lemma NonSpaceCons(c: char, s: string)
    ensures NonSpace([c] + s) == (if IsSpace(c) then [] else [c]) + NonSpace(s)
  {
    NonSpaceAppend([c], s);
    assert [c][..0] == [];
  }

  lemma {:induction false} NonSpaceTrimLeft(s: string)
    ensures NonSpace(TrimLeft(s)) == NonSpace(s)
    decreases |s|
  {
    if |s| > 0 && IsSpace(s[0]) {
      assert s == [s[0]] + s[1..];
      NonSpaceCons(s[0], s[1..]);
      NonSpaceTrimLeft(s[1..]);
    }
  }

  lemma {:induction false} NonSpaceTrimRight(s: string)
    ensures NonSpace(TrimRight(s)) == NonSpace(s)
    decreases |s|
  {
    if |s| > 0 && IsSpace(s[|s| - 1]) {
      NonSpaceTrimRight(s[..|s| - 1]);
    }
  }

  /** Stripping removes whitespace only. */
  lemma NonSpaceStrip(s: string)
    ensures NonSpace(Strip(s)) == NonSpace(s)
  {
    NonSpaceTrimLeft(s);
    NonSpaceTrimRight(TrimLeft(s));
  }

  /** Collapsing whitespace removes whitespace only. */
  lemma {:induction false} NonSpaceCollapse(s: string)
    ensures NonSpace(CollapseSpaces(s)) == NonSpace(s)
    decreases |s|
  {
    if s == [] {
    } else if IsSpace(s[0]) {
      var n := RunLen(s, IsSpace);
      assert s == s[..n] + s[n..];
      NonSpaceAppend(s[..n], s[n..]);
      NonSpaceOfBlank(s[..n]);
      NonSpaceCollapse(s[n..]);
      NonSpaceCons(' ', CollapseSpaces(s[n..]));
    } else {
      assert s == [s[0]] + s[1..];
      NonSpaceCons(s[0], s[1..]);
      NonSpaceCollapse(s[1..]);
      NonSpaceCons(s[0], CollapseSpaces(s[1..]));
    }
  }

  // ---------------------------------------------------------------------
  // The words of a text
  // ---------------------------------------------------------------------

  /** Leading whitespace does not change the words. */
  lemma {:induction false} TrimLeftDrop(s: string, k: nat)
    requires k <= |s| && IsBlank(s[..k])
    ensures TrimLeft(s) == TrimLeft(s[k..])
    decreases k
  {
    if k > 0 {
      assert s[0] == s[..k][0];
      assert s[1..][..k - 1] == s[..k][1..];
      TrimLeftDrop(s[1..], k - 1);
      assert s[1..][k - 1..] == s[k..];
    }
  }

  /** A run of p-characters stops at the end of a or where b begins when b
      starts with a character outside p. */
  lemma {:induction false} RunLenAppend(a: string, b: string, p: char -> bool)
    requires RunLen(a, p) < |a| || b == [] || !p(b[0])
    ensures RunLen(a + b, p) == RunLen(a, p)
    decreases |a|
  {
    if a == [] {
      assert a + b == b;
    } else if p(a[0]) {
      assert (a + b)[1..] == a[1..] + b;
      RunLenAppend(a[1..], b, p);
    }
  }

  lemma {:induction false} TrimLeftAppend(a: string, b: string)
    requires TrimLeft(a) != []
    ensures TrimLeft(a + b) == TrimLeft(a) + b
    decreases |a|
  {
    if IsSpace(a[0]) {
      assert (a + b)[1..] == a[1..] + b;
      TrimLeftAppend(a[1..], b);
    }
  }

  /** Trailing whitespace does not change the words. */
  lemma {:induction false} WordsAppendBlank(a: string, b: string)
    requires IsBlank(b)
    ensures Words(a + b) == Words(a)
    decreases |a|
  {
    var t := TrimLeft(a);
    TrimLeftSpec(a);
    if t == [] {
      assert IsBlank(a + b) by {
        assert forall i :: 0 <= i < |a| ==> IsSpace(a[i]);
      }
      TrimLeftOfBlank(a + b);
    } else {
      TrimLeftAppend(a, b);
      var n := RunLen(t, IsNonSpace);
      RunLenAppend(t, b, IsNonSpace);
      assert (t + b)[..n] == t[..n];
      assert (t + b)[n..] == t[n..] + b;
      WordsAppendBlank(t[n..], b);
    }
  }

  /** The run of non-space characters at the head of collapsed text is the
      same run as in the original. */
  lemma {:induction false} CollapseRun(s: string, n: nat)
    requires n <= RunLen(s, IsNonSpace)
    ensures CollapseSpaces(s) == s[..n] + CollapseSpaces(s[n..])
    decreases n
  {
    if n > 0 {
      assert !IsSpace(s[0]);
      assert CollapseSpaces(s) == [s[0]] + CollapseSpaces(s[1..]);
      assert RunLen(s[1..], IsNonSpace) == RunLen(s, IsNonSpace) - 1;
      CollapseRun(s[1..], n - 1);
      assert s[1..][n - 1..] == s[n..];
      assert s[..n] == [s[0]] + s[1..][..n - 1];
    }
  }

  /** Collapsing whitespace keeps the words of str.split. */
  lemma {:induction false} WordsCollapse(s: string)
    ensures Words(CollapseSpaces(s)) == Words(s)
    decreases |s|
  {
    if s == [] {
    } else if IsSpace(s[0]) {
      var k := RunLen(s, IsSpace);
      var c := CollapseSpaces(s[k..]);
      WordsCollapse(s[k..]);
      assert ([' '] + c)[1..] == c;
      TrimLeftDrop(s, k);
    } else {
      var n := RunLen(s, IsNonSpace);
      var c := CollapseSpaces(s[n..]);
      CollapseRun(s, n);
      CollapseSpacesCollapsed(s[n..]);
      var w := s[..n];
      assert RunLen(w, IsNonSpace) == n;
      RunLenAppend(w, c, IsNonSpace);
      assert (w + c)[..n] == w;
      assert (w + c)[n..] == c;
      WordsCollapse(s[n..]);
    }
  }

  /** Stripping keeps the words of str.split. */
  lemma WordsStrip(s: string)
    ensures Words(Strip(s)) == Words(s)
  {
    var t := TrimLeft(s);
    TrimLeftSpec(s);
    assert TrimLeft(t) == t;
    var r := TrimRight(t);
    TrimRightSpec(t);
    assert t == r + t[|r|..];
    WordsAppendBlank(r, t[|r|..]);
  }

  /** The first word of text that starts with a word and continues with one
      separator character. */
  lemma WordsAfterFirst(s: string, n: nat)
    requires 0 < n < |s| && !IsSpace(s[0]) && n == RunLen(s, IsNonSpace)
    ensures Words(s) == [s[..n]] + Words(s[n + 1..])
  {
    assert TrimLeft(s) == s;
    assert s[n..][..1] == [s[n]];
    TrimLeftDrop(s[n..], 1);
    assert s[n..][1..] == s[n + 1..];
  }

  lemma JoinCons(w: string, ws: seq<string>, sep: string)
    requires ws != []
    ensures JoinWith([w] + ws, sep) == w + sep + JoinWith(ws, sep)
  {
    assert ([w] + ws)[1..] == ws;
  }

  /** Text without whitespace is one word. */
  lemma WordsOfWord(s: string)
    requires s != [] && RunLen(s, IsNonSpace) == |s|
    ensures Words(s) == [s]
  {
    assert TrimLeft(s) == s;
    assert s[..|s|] == s && s[|s|..] == [];
  }

  lemma SplitAround(s: string, n: nat)
    requires n < |s|
    ensures s == s[..n] + [s[n]] + s[n + 1..]
  {
  }

  /** A suffix of single-spaced text that starts at a non-space character
      is single-spaced. */
  lemma SingleSpacedTail(s: string, k: nat)
    requires SingleSpaced(s) && k < |s| && !IsSpace(s[k])
    ensures SingleSpaced(s[k..])
  {
    CollapsedSlice(s, k, |s|);
    assert s[k..][|s| - k - 1] == s[|s| - 1];
  }

  /** Single-spaced text with a space in it is a word, one ' ', and
      single-spaced text again. */
  lemma SplitAtSpace(s: string, n: nat)
    requires SingleSpaced(s) && s != [] && n == RunLen(s, IsNonSpace) && n < |s|
    ensures s == s[..n] + " " + s[n + 1..]
    ensures s[n + 1..] != [] && SingleSpaced(s[n + 1..])
  {
    assert n + 1 < |s| && s[n] == ' ' && !IsSpace(s[n + 1]) by {
      assert IsSpace(s[n]);
      assert SpacesCollapsed(s);
    }
    SingleSpacedTail(s, n + 1);
    SplitAround(s, n);
  }

  /** Single-spaced text is its words joined by one space. */
  lemma {:induction false} SingleSpacedIsJoin(s: string)
    requires SingleSpaced(s)
    ensures s == JoinWith(Words(s), " ")
    decreases |s|
  {
    if s != [] {
      var n := RunLen(s, IsNonSpace);
      if n == |s| {
        WordsOfWord(s);
      } else {
        var rest := s[n + 1..];
        SplitAtSpace(s, n);
        WordsAfterFirst(s, n);
        SingleSpacedIsJoin(rest);
        TrimLeftStripped(rest);
        assert Words(rest) != [];
        JoinCons(s[..n], Words(rest), " ");
      }
    }
  }
}
