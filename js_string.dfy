/**
 * `String.prototype.trim` as the web app uses it: leading and trailing
 * white space and line terminators removed (ECMAScript's WhiteSpace and
 * LineTerminator productions). Strings are sequences of Dafny `char`s,
 * that is of Unicode scalar values rather than UTF-16 code units.
 */
module JsString {

  /** TAB, LF, VT, FF, CR, SPACE, NBSP, ZWNBSP, the Zs space separators, LS and PS. */
  predicate IsJsWhitespace(c: char)
  {
    var n := c as int;
    (0x09 <= n <= 0x0D) || n == 0x20 || n == 0xA0 || n == 0x1680 || (0x2000 <= n <= 0x200A) ||
    n == 0x2028 || n == 0x2029 || n == 0x202F || n == 0x205F || n == 0x3000 || n == 0xFEFF
  }

  /** Every character of `s` is white space (vacuously so for the empty string). */
  predicate AllWhitespace(s: string)
  {
    forall k :: 0 <= k < |s| ==> IsJsWhitespace(s[k])
  }

  /** `s` with its leading white space removed: a suffix of `s`. */
  function TrimStart(s: string): (r: string)
    ensures |r| <= |s| && r == s[|s| - |r|..]
    ensures AllWhitespace(s[..|s| - |r|])
    ensures r != [] ==> !IsJsWhitespace(r[0])
  {
    if |s| > 0 && IsJsWhitespace(s[0]) then
      var r := TrimStart(s[1..]);
      assert s[..|s| - |r|] == [s[0]] + s[1..][..|s| - 1 - |r|];
      r
    else s
  }

  /** `s` with its trailing white space removed: a prefix of `s`. */
  function TrimEnd(s: string): (r: string)
    ensures |r| <= |s| && r == s[..|r|]
    ensures AllWhitespace(s[|r|..])
    ensures r != [] ==> !IsJsWhitespace(r[|r| - 1])
  {
    if |s| > 0 && IsJsWhitespace(s[|s| - 1]) then
      var r := TrimEnd(s[..|s| - 1]);
      assert s[..|s| - 1][..|r|] == s[..|r|];
      assert s[|r|..] == s[..|s| - 1][|r|..] + [s[|s| - 1]];
      AllWhitespaceConcat(s[..|s| - 1][|r|..], [s[|s| - 1]]);
      r
    else s
  }

  /** `r` is the slice `s[i..i + |r|]` and everything of `s` around it is white space. */
  predicate TrimmedSlice(s: string, r: string, i: nat)
  {
    && i + |r| <= |s|
    && r == s[i..i + |r|]
    && AllWhitespace(s[..i])
    && AllWhitespace(s[i + |r|..])
  }

  /** `s.trim()`. */
  function Trim(s: string): (r: string)
    ensures TrimmedSlice(s, r, |s| - |TrimStart(s)|)
    ensures r != [] ==> !IsJsWhitespace(r[0]) && !IsJsWhitespace(r[|r| - 1])
    ensures r == [] <==> AllWhitespace(s)
  {
    TrimCut(s);
    TrimEmptyIff(s);
    TrimEnd(TrimStart(s))
  }

  /** `Trim` gives the empty string exactly for an all-white-space string. */
  lemma TrimEmptyIff(s: string)
    ensures TrimEnd(TrimStart(s)) == [] <==> AllWhitespace(s)
  {
    var a := TrimStart(s);
    if TrimEnd(a) == [] {
      TrimEmptyAllWhitespace(s, a);
    } else {
      TrimNonEmptyNotAllWhitespace(s, a);
    }
  }

  lemma TrimEmptyAllWhitespace(s: string, a: string)
    requires a == TrimStart(s) && TrimEnd(a) == []
    ensures AllWhitespace(s)
  {
    var i := |s| - |a|;
    assert AllWhitespace(s[..i]);
    forall k | 0 <= k < |s| ensures IsJsWhitespace(s[k]) {
      assert s[k] == s[..i][k];
    }
  }

  lemma TrimNonEmptyNotAllWhitespace(s: string, a: string)
    requires a == TrimStart(s) && TrimEnd(a) != []
    ensures !AllWhitespace(s)
  {
    var r := TrimEnd(a);
    var i := |s| - |a|;
    assert a[0] == r[0];
    assert s[i] == a[0];
  }

  /** Where the two halves of `Trim` cut `s`. */
  lemma TrimCut(s: string)
    ensures TrimmedSlice(s, TrimEnd(TrimStart(s)), |s| - |TrimStart(s)|)
  {
    var a := TrimStart(s);
    var r := TrimEnd(a);
    var i := |s| - |a|;
    assert s[i..] == a;
    SliceOfSuffix(s, i, |r|);
    assert r == s[i..i + |r|];
    assert AllWhitespace(s[..i]);
    assert AllWhitespace(s[i + |r|..]);
    assert TrimmedSlice(s, r, i);
  }

  /** Slicing a suffix `s[i..]` at `n`. */
  lemma SliceOfSuffix(s: string, i: nat, n: nat)
    requires i + n <= |s|
    ensures s[i..][..n] == s[i..i + n]
    ensures s[i..][n..] == s[i + n..]
  {
  }

  lemma AllWhitespaceConcat(x: string, y: string)
    requires AllWhitespace(x) && AllWhitespace(y)
    ensures AllWhitespace(x + y)
  {
    forall k | 0 <= k < |x + y| ensures IsJsWhitespace((x + y)[k]) {
      if k >= |x| {
        assert (x + y)[k] == y[k - |x|];
      }
    }
  }

  /** A trimmed string trims to itself. */
  lemma TrimIdempotent(s: string)
    ensures Trim(Trim(s)) == Trim(s)
  {
    TrimOfTrimmed(Trim(s));
  }

  /** A string with no white space at either end is its own trim. */
  lemma TrimOfTrimmed(s: string)
    requires s != [] ==> !IsJsWhitespace(s[0]) && !IsJsWhitespace(s[|s| - 1])
    ensures Trim(s) == s
  {
    if s != [] {
      assert TrimStart(s) == s;
      assert TrimEnd(s) == s;
    }
  }
}
