/** The string operations the application calls: `toLowerCase` (restricted to
    ASCII), `startsWith`, `includes` and `trim`. */
module Strings {

  /** ASCII lower-casing of one character; every other character is kept. */
  function LowerChar(c: char): char
  {
    if 'A' <= c <= 'Z' then (c as int + 32) as char else c
  }

  function Lower(s: string): string
  {
    seq(|s|, i requires 0 <= i < |s| => LowerChar(s[i]))
  }

  /** `s.startsWith(p)`. */
  predicate StartsWith(s: string, p: string)
  {
    |p| <= |s| && s[..|p|] == p
  }

  /** `t` occurs in `s` beginning at position `i`. */
  predicate OccursAt(t: string, s: string, i: int)
  {
    0 <= i && i + |t| <= |s| && s[i..i + |t|] == t
  }

  /** `s.includes(t)`: `t` is a prefix of `s` or of one of its suffixes. */
  predicate Contains(s: string, t: string)
    decreases |s|
  {
    StartsWith(s, t) || (|s| > 0 && Contains(s[1..], t))
  }

  /** `Contains` holds exactly when `t` occurs somewhere in `s`. */
  lemma {:induction false} ContainsIffOccurs(s: string, t: string)
    ensures Contains(s, t) <==> exists i :: OccursAt(t, s, i)
    decreases |s|
  {
    if StartsWith(s, t) {
      assert OccursAt(t, s, 0);
    } else if |s| > 0 {
      var tail := s[1..];
      ContainsIffOccurs(tail, t);
      if Contains(tail, t) {
        var i :| OccursAt(t, tail, i);
        assert s[i + 1..i + 1 + |t|] == tail[i..i + |t|];
        assert OccursAt(t, s, i + 1);
      }
      forall i | OccursAt(t, s, i)
        ensures Contains(tail, t)
      {
        if i > 0 {
          assert tail[i - 1..i - 1 + |t|] == s[i..i + |t|];
          assert OccursAt(t, tail, i - 1);
        }
      }
    }
  }

  /** The empty string is included in every string. */
  lemma ContainsEmpty(s: string)
    ensures Contains(s, "")
  {
    assert StartsWith(s, "");
  }

  /** A left-to-right search for the first occurrence of `t` in `s`. */
  method Includes(s: string, t: string) returns (found: bool)
    ensures found <==> Contains(s, t)
    ensures found <==> exists i :: OccursAt(t, s, i)
  {
    ContainsIffOccurs(s, t);
    var i := 0;
    while i + |t| <= |s|
      invariant 0 <= i <= |s| + 1
      invariant forall k :: 0 <= k < i ==> !OccursAt(t, s, k)
    {
      if s[i..i + |t|] == t {
        assert OccursAt(t, s, i);
        return true;
      }
      i := i + 1;
    }
    return false;
  }

  /** The characters `String.prototype.trim` removes: ECMAScript WhiteSpace
      (tab, vertical tab, form feed, space, no-break space, the byte order
      mark and the space separators of Unicode category Zs) and
      LineTerminator (line feed, carriage return, U+2028, U+2029). */
  predicate IsWhiteSpace(c: char)
  {
    || c == '\t' || c == '\U{000B}' || c == '\U{000C}' || c == ' '
    || c == '\U{00A0}' || c == '\U{FEFF}' || c == '\U{1680}'
    || ('\U{2000}' <= c <= '\U{200A}')
    || c == '\U{202F}' || c == '\U{205F}' || c == '\U{3000}'
    || c == '\n' || c == '\r' || c == '\U{2028}' || c == '\U{2029}'
  }

  predicate AllWhiteSpace(s: string)
  {
    forall i :: 0 <= i < |s| ==> IsWhiteSpace(s[i])
  }

  /** A concatenation is all white space when both parts are. */
  lemma WhiteSpaceConcat(a: string, b: string)
    requires AllWhiteSpace(a) && AllWhiteSpace(b)
    ensures AllWhiteSpace(a + b)
  {
  }

  /** Positions `i` and `j` cut `s` with only white space before `i` and after `j`. */
  predicate TrimBounds(s: string, i: int, j: int)
  {
    0 <= i <= j <= |s| && AllWhiteSpace(s[..i]) && AllWhiteSpace(s[j..])
  }

  /** `s` with its leading white space removed. */
  function TrimStart(s: string): (r: string)
    ensures |r| <= |s| && r == s[|s| - |r|..]
    ensures AllWhiteSpace(s[..|s| - |r|])
    ensures r == [] || !IsWhiteSpace(r[0])
    decreases |s|
  {
    if |s| > 0 && IsWhiteSpace(s[0]) then
      var t := s[1..];
      var r := TrimStart(t);
      assert r == s[|s| - |r|..];
      assert s[..|s| - |r|] == [s[0]] + t[..|t| - |r|];
      WhiteSpaceConcat([s[0]], t[..|t| - |r|]);
      r
    else s
  }

  /** `s` with its trailing white space removed. */
  function TrimEnd(s: string): (r: string)
    ensures |r| <= |s| && r == s[..|r|]
    ensures AllWhiteSpace(s[|r|..])
    ensures r == [] || !IsWhiteSpace(r[|r| - 1])
    decreases |s|
  {
    if |s| > 0 && IsWhiteSpace(s[|s| - 1]) then
      var t := s[..|s| - 1];
      var r := TrimEnd(t);
      assert r == s[..|r|];
      assert s[|r|..] == t[|r|..] + [s[|s| - 1]];
      WhiteSpaceConcat(t[|r|..], [s[|s| - 1]]);
      r
    else s
  }

  /** `s.trim()`: the slice of `s` left once the white space at both ends is
      removed; it neither starts nor ends with white space. */
  function Trim(s: string): (r: string)
    ensures exists i, j :: TrimBounds(s, i, j) && r == s[i..j]
    ensures r == [] || (!IsWhiteSpace(r[0]) && !IsWhiteSpace(r[|r| - 1]))
  {
    var a := TrimStart(s);
    var r := TrimEnd(a);
    TrimSlices(s, a, r);
    r
  }

  /** Removing white space from the front and then from the back leaves a
      slice of `s` bounded by white space on both sides. */
  lemma TrimSlices(s: string, a: string, r: string)
    requires |a| <= |s| && a == s[|s| - |a|..] && AllWhiteSpace(s[..|s| - |a|])
    requires |r| <= |a| && r == a[..|r|] && AllWhiteSpace(a[|r|..])
    ensures TrimBounds(s, |s| - |a|, |s| - |a| + |r|)
    ensures r == s[|s| - |a|..|s| - |a| + |r|]
    ensures r != [] ==> r[0] == a[0]
  {
    var i := |s| - |a|;
    var j := i + |r|;
    assert s[j..] == a[|r|..];
  }

  /** `trim` yields the empty string exactly for strings made only of white space. */
  lemma TrimEmptyIff(s: string)
    ensures Trim(s) == "" <==> AllWhiteSpace(s)
  {
    var r := Trim(s);
    if r == "" {
      var i, j :| TrimBounds(s, i, j) && r == s[i..j];
      forall k | 0 <= k < |s|
        ensures IsWhiteSpace(s[k])
      {
        if k < i {
          assert s[k] == s[..i][k];
        } else {
          assert s[k] == s[j..][k - j];
        }
      }
    }
  }

  /** A string that neither starts nor ends with white space is its own trim. */
  lemma TrimKeepsTrimmed(s: string)
    requires s == [] || (!IsWhiteSpace(s[0]) && !IsWhiteSpace(s[|s| - 1]))
    ensures Trim(s) == s
  {
    assert TrimStart(s) == s;
    assert TrimEnd(s) == s;
  }

  /** Trimming twice is trimming once. */
  lemma TrimIdempotent(s: string)
    ensures Trim(Trim(s)) == Trim(s)
  {
    TrimKeepsTrimmed(Trim(s));
  }
}
