/** `StoryService.ExtractFirstJsonObject`: pick the first brace-balanced
    `{ ... }` out of a model's free-text reply. The scan counts braces only;
    quotes, escapes and string literals mean nothing to it. */
module JsonExtraction {
  import opened Wrappers
  import opened Text

  /** How one character moves the brace depth: `{` opens a level, `}` closes
      one, and every other character, a quote included, leaves it alone. */
  function Delta(c: char): int {
    if c == '{' then 1 else if c == '}' then -1 else 0
  }

  /** Brace depth reached after reading the first `i` characters of `s`. */
  function DepthTo(s: string, i: nat): int
    requires i <= |s|
  {
    if i == 0 then 0 else DepthTo(s, i - 1) + Delta(s[i - 1])
  }

  /** How far `s[i..j]` moves the depth. */
  function Span(s: string, i: nat, j: nat): int
    requires i <= j <= |s|
  {
    DepthTo(s, j) - DepthTo(s, i)
  }

  /** The depth a whole string leaves behind. */
  function Depth(s: string): int {
    DepthTo(s, |s|)
  }

  /** The depth is the `{` count minus the `}` count. */
  lemma {:induction false} DepthIsCountDifference(s: string, i: nat)
    requires i <= |s|
    ensures DepthTo(s, i) == Count(s[..i], '{') - Count(s[..i], '}')
  {
    if i > 0 {
      DepthIsCountDifference(s, i - 1);
      assert s[..i] == s[..i - 1] + [s[i - 1]];
      CountAppend(s[..i - 1], [s[i - 1]], '{');
      CountAppend(s[..i - 1], [s[i - 1]], '}');
    }
  }

  lemma {:induction false} DepthToPrefix(s: string, t: string, i: nat)
    requires i <= |s| && i <= |t| && s[..i] == t[..i]
    ensures DepthTo(s, i) == DepthTo(t, i)
  {
    if i > 0 {
      assert s[i - 1] == s[..i][i - 1] == t[..i][i - 1] == t[i - 1];
      assert s[..i - 1] == s[..i][..i - 1];
      assert t[..i - 1] == t[..i][..i - 1];
      DepthToPrefix(s, t, i - 1);
    }
  }

  /** Appending a character moves the depth by that character's delta alone:
      only `{` and `}` change it, and a quote leaves it where it was. */
  lemma DepthStep(s: string, c: char)
    ensures Depth(s + [c]) == Depth(s) + Delta(c)
    ensures c != '{' && c != '}' ==> Depth(s + [c]) == Depth(s)
  {
    assert (s + [c])[..|s|] == s[..|s|];
    DepthToPrefix(s + [c], s, |s|);
  }

  /** `string.IndexOf(char)`, with `None` for -1. */
  function IndexOf(s: string, c: char): (r: Option<nat>)
    ensures r.None? ==> forall j :: 0 <= j < |s| ==> s[j] != c
    ensures r.Some? ==> r.value < |s| && s[r.value] == c
    ensures r.Some? ==> forall j :: 0 <= j < r.value ==> s[j] != c
  {
    if s == [] then None
    else if s[0] == c then Some(0)
    else
      match IndexOf(s[1..], c)
      case None => None
      case Some(i) =>
        assert forall j :: 1 <= j < |s| ==> s[j] == s[1..][j - 1];
        Some(i + 1)
  }

  /** Scans `j = lo, lo + 1, ...` for the first place where `s[start..j]` is balanced. */
  function BalancedEnd(s: string, start: nat, lo: nat): (r: Option<nat>)
    requires start <= lo
    decreases |s| + 1 - lo
    ensures r.Some? ==> lo <= r.value <= |s|
  {
    if lo > |s| then None
    else if Span(s, start, lo) == 0 then Some(lo)
    else BalancedEnd(s, start, lo + 1)
  }

  /** The scan finds the least `j` in `[lo, |s|]` at which `s[start..j]` is
      balanced, and finds nothing exactly when there is no such `j`. */
  lemma {:induction false} BalancedEndIsLeast(s: string, start: nat, lo: nat)
    requires start <= lo
    decreases |s| + 1 - lo
    ensures var r := BalancedEnd(s, start, lo);
      && (r.Some? ==> Span(s, start, r.value) == 0)
      && (r.Some? ==> forall k :: lo <= k < r.value ==> Span(s, start, k) != 0)
      && (r.None? <==> forall k :: lo <= k <= |s| ==> Span(s, start, k) != 0)
  {
    if lo <= |s| && Span(s, start, lo) != 0 {
      BalancedEndIsLeast(s, start, lo + 1);
    }
  }

  /** The text after the first `{` never brings the depth back to 0. */
  predicate NeverCloses(input: string, firstBrace: nat)
    requires firstBrace <= |input|
  {
    forall k :: firstBrace < k <= |input| ==> Span(input, firstBrace, k) != 0
  }

  /** `t` is balanced and every proper non-empty prefix of it is strictly open,
      so no shorter prefix is balanced. */
  predicate ShortestBalanced(t: string) {
    && |t| > 0
    && Depth(t) == 0
    && forall k :: 0 < k < |t| ==> DepthTo(t, k) > 0
  }

  /** Reference definition of the extractor: from the first `{`, the shortest
      balanced stretch, or `None` when there is no `{` or no such stretch. */
  function FirstJsonObject(input: string): Option<string>
  {
    match IndexOf(input, '{')
    case None => None
    case Some(fb) =>
      match BalancedEnd(input, fb, fb + 1)
      case None => None
      case Some(e) => Some(input[fb..e])
  }

  /** The extractor finds nothing exactly when the input has no `{`, or when
      the braces counted from the first `{` never bring the depth back to 0. */
  lemma FirstJsonObjectNone(input: string)
    ensures FirstJsonObject(input).None? <==>
      ('{' !in input || NeverCloses(input, IndexOf(input, '{').value))
  {
    match IndexOf(input, '{')
    case None =>
    case Some(fb) =>
      BalancedEndIsLeast(input, fb, fb + 1);
  }

  /** A result starts at the first `{` of the input (nothing before that
      brace is included), ends with `}`, is at least two characters long,
      holds as many `{` as `}`, and is the shortest such stretch: every
      proper non-empty prefix has strictly more `{` than `}`. */
  lemma FirstJsonObjectSome(input: string)
    requires FirstJsonObject(input).Some?
    ensures var t := FirstJsonObject(input).value;
      var fb := IndexOf(input, '{').value;
      && fb + |t| <= |input|
      && t == input[fb..fb + |t|]
      && '{' !in input[..fb]
      && ShortestBalanced(t)
      && |t| >= 2 && t[0] == '{' && t[|t| - 1] == '}'
      && Count(t, '{') == Count(t, '}')
  {
    var fb := IndexOf(input, '{').value;
    BalancedEndIsLeast(input, fb, fb + 1);
    var e := BalancedEnd(input, fb, fb + 1).value;
    var t := input[fb..e];
    assert t == FirstJsonObject(input).value;
    SpanOfSlice(input, fb, e);
    OpenUntilBalanced(t);
    DepthIsCountDifference(t, |t|);
    assert t[..|t|] == t;
    assert '{' !in input[..fb] by {
      assert forall j :: 0 <= j < fb ==> input[..fb][j] == input[j];
    }
  }

  /** Depths measured inside a slice are spans of the whole string. */
  lemma {:induction false} SpanOfSlice(s: string, i: nat, j: nat)
    requires i <= j <= |s|
    ensures forall k :: 0 <= k <= j - i ==> DepthTo(s[i..j], k) == Span(s, i, i + k)
  {
    forall k | 0 <= k <= j - i
      ensures DepthTo(s[i..j], k) == Span(s, i, i + k)
    {
      SpanOfSliceAt(s, i, j, k);
    }
  }

  lemma {:induction false} SpanOfSliceAt(s: string, i: nat, j: nat, k: nat)
    requires i <= j <= |s| && k <= j - i
    ensures DepthTo(s[i..j], k) == Span(s, i, i + k)
  {
    if k > 0 {
      SpanOfSliceAt(s, i, j, k - 1);
      assert s[i..j][k - 1] == s[i + k - 1];
    }
  }

  /** A string that starts with `{` and is not balanced at any proper
      non-empty prefix stays strictly open on all of them; if it is balanced
      as a whole it is at least two characters long and ends with `}`. */
  lemma OpenUntilBalanced(t: string)
    requires |t| > 0 && t[0] == '{'
    requires forall k :: 0 < k < |t| ==> DepthTo(t, k) != 0
    ensures forall k :: 0 < k < |t| ==> DepthTo(t, k) > 0
    ensures Depth(t) == 0 ==> |t| >= 2 && t[|t| - 1] == '}'
  {
    var k := 1;
    while k < |t|
      invariant 1 <= k <= |t|
      invariant forall m :: 0 < m <= k ==> DepthTo(t, m) > 0
    {
      assert DepthTo(t, k + 1) != 0 || k + 1 == |t|;
      if k + 1 == |t| {
        break;
      }
      k := k + 1;
    }
  }

  /** `ExtractFirstJsonObject` as the C# loop writes it: find the first `{`,
      then walk forward keeping a running depth and stop as soon as it is 0. */
  method ExtractFirstJsonObject(input: string) returns (r: Option<string>)
    ensures r == FirstJsonObject(input)
  {
    var firstBrace := IndexOf(input, '{');
    if firstBrace.None? {
      return None;
    }
    var fb := firstBrace.value;
    BalancedEndIsLeast(input, fb, fb + 1);
    var depth := 0;
    var i := fb;
    while i < |input|
      invariant fb <= i <= |input|
      invariant depth == Span(input, fb, i)
      invariant forall k :: fb < k <= i ==> Span(input, fb, k) != 0
    {
      if input[i] == '{' {
        depth := depth + 1;
      } else if input[i] == '}' {
        depth := depth - 1;
      }
      if depth == 0 {
        assert Span(input, fb, i + 1) == 0;
        return Some(input[fb..i + 1]);
      }
      i := i + 1;
    }
    return None;
  }

  // ---------------------------------------------------------------- properties

  /** Text before the first `{` never reaches the result: putting brace-free
      chatter in front of a reply leaves the extracted object unchanged. */
  lemma {:induction false} LeadingTextIgnored(p: string, s: string)
    requires '{' !in p
    ensures FirstJsonObject(p + s) == FirstJsonObject(s)
  {
    var ps := p + s;
    IndexOfShift(p, s, '{');
    match IndexOf(s, '{')
    case None =>
      assert IndexOf(ps, '{') == None;
    case Some(fb) =>
      assert IndexOf(ps, '{') == Some(|p| + fb);
      BalancedEndShift(p, s, fb, fb + 1);
      match BalancedEnd(s, fb, fb + 1)
      case None =>
        assert BalancedEnd(ps, |p| + fb, |p| + fb + 1) == None;
      case Some(e) =>
        assert BalancedEnd(ps, |p| + fb, |p| + fb + 1) == Some(|p| + e);
        assert ps[|p| + fb..|p| + e] == s[fb..e];
        assert FirstJsonObject(ps) == Some(ps[|p| + fb..|p| + e]);
  }

  lemma {:induction false} IndexOfShift(p: string, s: string, c: char)
    requires c !in p
    ensures IndexOf(p + s, c) == (match IndexOf(s, c) case None => None case Some(i) => Some(|p| + i))
  {
    if p != [] {
      assert (p + s)[1..] == p[1..] + s;
      assert c !in p[1..];
      IndexOfShift(p[1..], s, c);
    } else {
      assert p + s == s;
    }
  }

  lemma {:induction false} DepthToShift(p: string, s: string, k: nat)
    requires k <= |s|
    ensures DepthTo(p + s, |p| + k) == DepthTo(p, |p|) + DepthTo(s, k)
  {
    if k == 0 {
      assert (p + s)[..|p|] == p[..|p|];
      DepthToPrefix(p + s, p, |p|);
    } else {
      DepthToShift(p, s, k - 1);
      assert (p + s)[|p| + k - 1] == s[k - 1];
    }
  }

  lemma {:induction false} BalancedEndShift(p: string, s: string, start: nat, lo: nat)
    requires start <= lo
    ensures BalancedEnd(p + s, |p| + start, |p| + lo)
         == (match BalancedEnd(s, start, lo) case None => None case Some(e) => Some(|p| + e))
    decreases |s| + 1 - lo
  {
    if lo <= |s| {
      DepthToShift(p, s, start);
      DepthToShift(p, s, lo);
      BalancedEndShift(p, s, start, lo + 1);
    }
  }

  /** A quote is counted like any other letter: in `{"}"}` the `}` inside the
      string literal closes the object, and the extractor returns `{"}`. */
  lemma QuotesAreNotSpecial()
    ensures FirstJsonObject("{\"}\"}") == Some("{\"}")
  {
    var s := "{\"}\"}";
    assert IndexOf(s, '{') == Some(0);
    assert DepthTo(s, 1) == 1 && DepthTo(s, 2) == 1 && DepthTo(s, 3) == 0;
    assert BalancedEnd(s, 0, 1) == Some(3);
    assert s[0..3] == "{\"}";
  }
}
