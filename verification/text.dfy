/** The .NET string primitives the services rely on: `char.IsWhiteSpace`,
    `string.IsNullOrWhiteSpace`, `string.Trim`, `string.Length` (which counts
    UTF-16 code units, while a Dafny `char` is a whole Unicode scalar value),
    ordinal case-insensitive equality, and `string.Join` with its inverse, `Split`. */
module Text {
  import opened Wrappers

  /** `char.IsWhiteSpace`: the Unicode separators (categories Zs, Zl, Zp) plus
      U+0009..U+000D and U+0085. */
  predicate IsWhiteSpace(c: char) {
    || ('\t' <= c <= '\r')
    || c == ' '
    || c == '\U{85}'
    || c == '\U{A0}'
    || c == '\U{1680}'
    || ('\U{2000}' <= c <= '\U{200A}')
    || c == '\U{2028}'
    || c == '\U{2029}'
    || c == '\U{202F}'
    || c == '\U{205F}'
    || c == '\U{3000}'
  }

  predicate AllWhiteSpace(s: string) {
    forall i :: 0 <= i < |s| ==> IsWhiteSpace(s[i])
  }

  /** `string.IsNullOrWhiteSpace`; `None` is a null reference. */
  predicate IsNullOrWhiteSpace(s: Option<string>) {
    s.None? || AllWhiteSpace(s.value)
  }

  /** `string.IsNullOrEmpty`. */
  predicate IsNullOrEmpty(s: Option<string>) {
    s.None? || s.value == []
  }

  // ---------------------------------------------------------------- Trim

  /** `r` is the infix `s[i..j]` with only whitespace around it and no
      whitespace at either of its ends. */
  predicate TrimmedAt(r: string, s: string, i: nat, j: nat) {
    && i <= j <= |s|
    && r == s[i..j]
    && (forall k :: 0 <= k < i ==> IsWhiteSpace(s[k]))
    && (forall k :: j <= k < |s| ==> IsWhiteSpace(s[k]))
    && (r != [] ==> !IsWhiteSpace(r[0]) && !IsWhiteSpace(r[|r| - 1]))
  }

  /** `r` is what is left of `s` once the whitespace run at each end is cut off. */
  ghost predicate TrimmedFrom(r: string, s: string) {
    exists i: nat, j: nat :: TrimmedAt(r, s, i, j)
  }

  function TrimStart(s: string): (r: string)
    ensures |r| <= |s| && r == s[|s| - |r|..]
    ensures forall k :: 0 <= k < |s| - |r| ==> IsWhiteSpace(s[k])
    ensures r == [] || !IsWhiteSpace(r[0])
  {
    if |s| > 0 && IsWhiteSpace(s[0]) then
      var r := TrimStart(s[1..]);
      assert forall k :: 1 <= k < |s| ==> s[1..][k - 1] == s[k];
      r
    else s
  }

  function TrimEnd(s: string): (r: string)
    ensures |r| <= |s| && r == s[..|r|]
    ensures forall k :: |r| <= k < |s| ==> IsWhiteSpace(s[k])
    ensures r == [] || !IsWhiteSpace(r[|r| - 1])
  {
    if |s| > 0 && IsWhiteSpace(s[|s| - 1]) then
      var r := TrimEnd(s[..|s| - 1]);
      assert forall k :: 0 <= k < |s| - 1 ==> s[..|s| - 1][k] == s[k];
      r
    else s
  }

  /** `string.Trim()`: strips leading and trailing `char.IsWhiteSpace` characters. */
  function Trim(s: string): (r: string)
    ensures TrimmedFrom(r, s)
    ensures r == [] <==> AllWhiteSpace(s)
  {
    var t := TrimStart(s);
    var r := TrimEnd(t);
    TrimmedAtFromEnds(s, t, r);
    TrimmedFromUnique(r, [], s);
    r
  }

  /** Cutting the leading whitespace off `s` to get `t`, then the trailing
      whitespace off `t` to get `r`, leaves `r` trimmed from `s`. */
  lemma TrimmedAtFromEnds(s: string, t: string, r: string)
    requires |t| <= |s| && t == s[|s| - |t|..]
    requires forall k :: 0 <= k < |s| - |t| ==> IsWhiteSpace(s[k])
    requires t == [] || !IsWhiteSpace(t[0])
    requires |r| <= |t| && r == t[..|r|]
    requires forall k :: |r| <= k < |t| ==> IsWhiteSpace(t[k])
    requires r == [] || !IsWhiteSpace(r[|r| - 1])
    ensures TrimmedAt(r, s, |s| - |t|, |s| - |t| + |r|)
  {
    var i := |s| - |t|;
    var j := i + |r|;
    assert r == s[i..j];
    forall k | j <= k < |s|
      ensures IsWhiteSpace(s[k])
    {
      assert s[k] == t[k - i];
    }
    if r != [] {
      assert r[0] == t[0];
    }
  }

  lemma TrimmedAtEmpty(r: string, s: string, i: nat, j: nat)
    requires TrimmedAt(r, s, i, j)
    ensures r == [] <==> AllWhiteSpace(s)
  {
    if r != [] {
      assert s[i] == r[0];
    }
  }

  lemma TrimmedAtEnds(r: string, s: string, i: nat, j: nat)
    requires TrimmedAt(r, s, i, j) && r != []
    ensures i < j && !IsWhiteSpace(s[i]) && !IsWhiteSpace(s[j - 1])
  {
    assert s[i] == r[0] && s[j - 1] == r[|r| - 1];
  }

  /** Only one string is `s` trimmed; it is empty exactly when `s` is all whitespace. */
  lemma TrimmedFromUnique(r1: string, r2: string, s: string)
    requires TrimmedFrom(r1, s)
    ensures TrimmedFrom(r2, s) ==> r1 == r2
    ensures r1 == [] <==> AllWhiteSpace(s)
  {
    var i1: nat, j1: nat :| TrimmedAt(r1, s, i1, j1);
    TrimmedAtEmpty(r1, s, i1, j1);
    if TrimmedFrom(r2, s) {
      var i2: nat, j2: nat :| TrimmedAt(r2, s, i2, j2);
      TrimmedAtEmpty(r2, s, i2, j2);
      if r1 != [] && r2 != [] {
        TrimmedAtEnds(r1, s, i1, j1);
        TrimmedAtEnds(r2, s, i2, j2);
        assert i1 == i2;
        assert j1 == j2;
      }
    }
  }

  /** Trimming a trimmed string changes nothing. */
  lemma TrimIdempotent(s: string)
    ensures Trim(Trim(s)) == Trim(s)
  {
    var r := Trim(s);
    var i: nat, j: nat :| TrimmedAt(r, s, i, j);
    assert r[0..|r|] == r;
    assert TrimmedAt(r, r, 0, |r|);
    TrimmedFromUnique(Trim(r), r, r);
  }

  // ---------------------------------------------------------------- Length

  /** `string.Length` in .NET: the number of UTF-16 code units, two for every
      scalar value outside the Basic Multilingual Plane. */
  function Utf16Length(s: string): (n: nat)
    ensures |s| <= n <= 2 * |s|
    ensures n == |s| <==> forall i :: 0 <= i < |s| ==> s[i] as int <= 0xFFFF
  {
    if s == [] then 0
    else
      var n := (if s[0] as int > 0xFFFF then 2 else 1) + Utf16Length(s[1..]);
      assert forall i :: 1 <= i < |s| ==> s[1..][i - 1] == s[i];
      n
  }

  /** One character is one code unit inside the Basic Multilingual Plane and
      a surrogate pair outside it. */
  lemma Utf16LengthChar(c: char)
    ensures Utf16Length([c]) == if c as int > 0xFFFF then 2 else 1
  {
    assert [c][1..] == [];
  }

  /** Number of characters outside the Basic Multilingual Plane. */
  function NonBmpCount(s: string): nat {
    if s == [] then 0 else (if s[0] as int > 0xFFFF then 1 else 0) + NonBmpCount(s[1..])
  }

  /** Every character is one code unit, plus one more for each character
      that needs a surrogate pair. */
  lemma {:induction false} Utf16LengthCountsSurrogates(s: string)
    ensures Utf16Length(s) == |s| + NonBmpCount(s)
  {
    if s != [] {
      Utf16LengthCountsSurrogates(s[1..]);
    }
  }

  /** The length of a concatenation is the sum of the lengths; with
      `Utf16LengthChar` this fixes the length of every string. */
  lemma {:induction false} Utf16LengthAppend(a: string, b: string)
    ensures Utf16Length(a + b) == Utf16Length(a) + Utf16Length(b)
  {
    if a == [] {
      assert a + b == b;
    } else {
      Utf16LengthAppend(a[1..], b);
      assert (a + b)[0] == a[0];
      assert (a + b)[1..] == a[1..] + b;
    }
  }

  // ---------------------------------------------------------------- Case

  /** Case folding used for `StringComparison.OrdinalIgnoreCase`, restricted to ASCII letters. */
  function FoldAscii(c: char): (u: char)
    ensures 'a' <= c <= 'z' ==> u as int == c as int - 32
    ensures !('a' <= c <= 'z') ==> u == c
  {
    if 'a' <= c <= 'z' then (c as int - 32) as char else c
  }

  predicate EqualsIgnoreCase(a: string, b: string) {
    |a| == |b| && forall i :: 0 <= i < |a| ==> FoldAscii(a[i]) == FoldAscii(b[i])
  }

  // ---------------------------------------------------------------- Count

  /** Number of occurrences of `c` in `s`. */
  function Count(s: string, c: char): (n: nat)
    ensures n <= |s|

  {
    if s == [] then 0
    else (if s[0] == c then 1 else 0) + Count(s[1..], c)
  }

  lemma {:induction false} CountAppend(a: string, b: string, c: char)
    ensures Count(a + b, c) == Count(a, c) + Count(b, c)
  {
    if a == [] {
      assert a + b == b;
    } else {
      assert (a + b)[1..] == a[1..] + b;
      CountAppend(a[1..], b, c);
    }
  }

  // ---------------------------------------------------------------- Join / Split

  /** `string.Join(sep, parts)`. */
  function Join(sep: string, parts: seq<string>): string
  {
    if parts == [] then []
    else if |parts| == 1 then parts[0]
    else parts[0] + sep + Join(sep, parts[1..])
  }

  /** Splits `s` at every occurrence of `c` (`string.Split(c)`): one piece more
      than there are separators, and no piece contains the separator. */
  function Split(s: string, c: char): (r: seq<string>)
    ensures |r| == Count(s, c) + 1
    ensures forall k :: 0 <= k < |r| ==> c !in r[k]
  {
    if s == [] then [[]]
    else
      var rest := Split(s[1..], c);
      if s[0] == c then [[]] + rest
      else
        var r := [[s[0]] + rest[0]] + rest[1..];
        assert forall k :: 1 <= k < |r| ==> r[k] == rest[k];
        r
  }

  lemma {:induction false} SplitWithout(a: string, c: char)
    requires c !in a
    ensures Split(a, c) == [a]
  {
    if a != [] {
      assert c !in a[1..];
      SplitWithout(a[1..], c);
      assert [a[0]] + a[1..] == a;
    }
  }

  lemma {:induction false} SplitAt(a: string, b: string, c: char)
    requires c !in a
    ensures Split(a + [c] + b, c) == [a] + Split(b, c)
  {
    if a == [] {
      assert (a + [c] + b)[1..] == b;
    } else {
      assert (a + [c] + b)[1..] == a[1..] + [c] + b;
      SplitAt(a[1..], b, c);
      assert [a[0]] + a[1..] == a;
    }
  }

  /** Splitting a join at its one-character separator gives the parts back,
      provided no part contains the separator. */
  lemma {:induction false} SplitJoin(parts: seq<string>, c: char)
    requires parts != []
    requires forall k :: 0 <= k < |parts| ==> c !in parts[k]
    ensures Split(Join([c], parts), c) == parts
  {
    if |parts| == 1 {
      SplitWithout(parts[0], c);
    } else {
      SplitJoin(parts[1..], c);
      SplitAt(parts[0], Join([c], parts[1..]), c);
      assert [parts[0]] + parts[1..] == parts;
    }
  }
}
