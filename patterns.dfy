/** Building blocks for the regular expressions the pipeline applies with
    re.match: each one consumes a prefix and yields the rest of the text,
    or None when it cannot match. Runs are taken maximal; every pattern
    built from them follows a run with a token that cannot start with a
    character of the run, where the regular-expression engine could not
    backtrack into the run either. */
module Patterns {
  import opened Strings
  import opened Blocks

  /** p+ */
  function Plus(s: string, p: char -> bool): (r: Option<string>)
    ensures r.Some? <==> |s| > 0 && p(s[0])
    ensures r.Some? ==> |r.value| < |s| && r.value == s[RunLen(s, p)..]
  {
    var n := RunLen(s, p);
    if n > 0 then Some(s[n..]) else None
  }

  /** p* */
  function Star(s: string, p: char -> bool): (r: string)
    ensures |r| <= |s| && r == s[|s| - |r|..]
  {
    s[RunLen(s, p)..]
  }

  /** p{lo,hi}, followed by a token that cannot match p. */
  function Between(s: string, p: char -> bool, lo: nat, hi: nat): (r: Option<string>)
    ensures r.Some? <==> lo <= RunLen(s, p) <= hi
    ensures r.Some? ==> r.value == s[RunLen(s, p)..]
  {
    var n := RunLen(s, p);
    if lo <= n <= hi then Some(s[n..]) else None
  }

  /** p{n} at the end of a prefix pattern: n characters of class p. */
  function Exactly(s: string, p: char -> bool, n: nat): (r: Option<string>)
    ensures r.Some? <==> n <= |s| && forall i :: 0 <= i < n ==> p(s[i])
    ensures r.Some? ==> r.value == s[n..]
  {
    if n <= |s| && forall i :: 0 <= i < n ==> p(s[i]) then Some(s[n..]) else None
  }

  /** A literal compared exactly. */
  function Lit(s: string, w: string): (r: Option<string>)
    ensures r.Some? <==> StartsWith(s, w)
    ensures r.Some? ==> s == w + r.value
  {
    if StartsWith(s, w) then Some(s[|w|..]) else None
  }

  /** A literal under re.IGNORECASE; w is written in lower case. */
  function LitCI(s: string, w: string): (r: Option<string>)
    ensures r.Some? <==> StartsWithCI(s, w)
    ensures r.Some? ==> r.value == s[|w|..]
  {
    if StartsWithCI(s, w) then Some(s[|w|..]) else None
  }

  /** (w1|w2|...) under re.IGNORECASE: the first alternative that matches. */
  function AltCI(s: string, ws: seq<string>): (r: Option<string>)
    ensures r.Some? <==> exists k :: 0 <= k < |ws| && StartsWithCI(s, ws[k])
    ensures r.Some? ==> exists k :: 0 <= k < |ws| && StartsWithCI(s, ws[k]) && r.value == s[|ws[k]|..]
  {
    if ws == [] then None
    else if StartsWithCI(s, ws[0]) then Some(s[|ws[0]|..])
    else
      var r := AltCI(s, ws[1..]);
      assert forall k :: 1 <= k < |ws| ==> ws[k] == ws[1..][k - 1];
      r
  }

  /** .*w under re.IGNORECASE: the rest after the first occurrence of w
      that lies on the first line ('.' does not match a line break). The
      first occurrence leaves the most text for whatever follows. */
  function FindCI(s: string, w: string): (r: Option<string>)
    ensures r.Some? ==> |r.value| <= |s| - |w|
  {
    if StartsWithCI(s, w) then Some(s[|w|..])
    else if |s| > 0 && s[0] != '\n' then FindCI(s[1..], w)
    else None
  }

  /** .*p{n}: n characters of class p somewhere on the first line. */
  predicate FindRun(s: string, p: char -> bool, n: nat) {
    Exactly(s, p, n).Some? || (|s| > 0 && s[0] != '\n' && FindRun(s[1..], p, n))
  }

  /** No line break: what '.*' can span. */
  predicate OneLine(s: string) {
    forall i :: 0 <= i < |s| ==> s[i] != '\n'
  }

  /** A pattern anchored with $ at the end. */
  predicate AtEnd(r: Option<string>) {
    r == Some([])
  }

  function LowerOpt(o: Option<string>): Option<string> {
    match o
    case None => None
    case Some(r) => Some(Lower(r))
  }

  lemma PlusLower(s: string, p: char -> bool)
    requires CaseBlind(p)
    ensures Plus(Lower(s), p) == LowerOpt(Plus(s, p))
  {
    RunLenLower(s, p);
    var n := RunLen(s, p);
    assert Lower(s)[n..] == Lower(s[n..]);
  }

  lemma LitCILower(s: string, w: string)
    ensures LitCI(Lower(s), w) == LowerOpt(LitCI(s, w))
  {
    if |w| <= |s| {
      assert Lower(s)[..|w|] == Lower(s[..|w|]);
      assert Lower(s)[|w|..] == Lower(s[|w|..]);
      LowerIdempotent(s[..|w|]);
    }
  }
}
