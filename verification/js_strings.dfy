/**
 * The two string operations of the JavaScript runtime that the model
 * relies on: `String.prototype.trim` and the ordering of strings.
 */
module JsStrings {

  /** The characters `trim` removes: white space and line terminators. */
  predicate IsWhitespace(c: char) {
    || c == ' ' || c == '\t' || c == '\n' || c == '\r' || c == '\U{000B}' || c == '\U{000C}'
    || c == '\U{00A0}' || c == '\U{1680}' || ('\U{2000}' <= c <= '\U{200A}')
    || c == '\U{2028}' || c == '\U{2029}' || c == '\U{202F}' || c == '\U{205F}'
    || c == '\U{3000}' || c == '\U{FEFF}'
  }

  /** The string consists of white space only (or is empty). */
  predicate IsBlank(s: string) {
    forall i | 0 <= i < |s| :: IsWhitespace(s[i])
  }

  /** Drops the leading white space: the rest is a suffix that starts with a non-space. */
  function TrimStart(s: string): (r: string)
    ensures |r| <= |s| && r == s[|s| - |r|..]
    ensures forall i | 0 <= i < |s| - |r| :: IsWhitespace(s[i])
    ensures r != [] ==> !IsWhitespace(r[0])
  {
    if s != [] && IsWhitespace(s[0]) then TrimStart(s[1..]) else s
  }

  /** Drops the trailing white space: the rest is a prefix that ends with a non-space. */
  function TrimEnd(s: string): (r: string)
    ensures |r| <= |s| && r == s[..|r|]
    ensures forall i | |r| <= i < |s| :: IsWhitespace(s[i])
    ensures r != [] ==> !IsWhitespace(r[|r| - 1])
  {
    if s != [] && IsWhitespace(s[|s| - 1]) then TrimEnd(s[..|s| - 1]) else s
  }

  /** `s` is the blank text `lead`, then `r`, then the blank text `trail`. */
  predicate Surrounded(s: string, lead: string, r: string, trail: string) {
    s == lead + r + trail && IsBlank(lead) && IsBlank(trail)
  }

  /**
   * `trim`: the part of `s` between its leading and its trailing white
   * space, which neither starts nor ends with white space.
   */
  function Trim(s: string): (r: string)
    ensures exists lead, trail :: Surrounded(s, lead, r, trail)
    ensures r != [] ==> !IsWhitespace(r[0]) && !IsWhitespace(r[|r| - 1])
  {
    var t := TrimStart(s);
    var r := TrimEnd(t);
    SurroundedByTrimming(s, t, r);
    r
  }

  /** A prefix `r` of a suffix `t` of `s`, with only white space cut off, is surrounded by blank text in `s`. */
  lemma SurroundedByTrimming(s: string, t: string, r: string)
    requires |t| <= |s| && t == s[|s| - |t|..]
    requires forall i | 0 <= i < |s| - |t| :: IsWhitespace(s[i])
    requires |r| <= |t| && r == t[..|r|]
    requires forall i | |r| <= i < |t| :: IsWhitespace(t[i])
    ensures Surrounded(s, s[..|s| - |t|], r, t[|r|..])
  {
    var lead, trail := s[..|s| - |t|], t[|r|..];
    assert s == lead + t;
    assert t == r + trail;
    assert s == lead + r + trail;
    assert IsBlank(trail) by {
      forall k | 0 <= k < |trail| ensures IsWhitespace(trail[k]) {
        assert trail[k] == t[|r| + k];
      }
    }
  }

  /** Trimming yields the empty string exactly when the input is blank. */
  lemma TrimEmptyIffBlank(s: string)
    ensures Trim(s) == [] <==> IsBlank(s)
  {
    var r := Trim(s);
    var lead, trail :| Surrounded(s, lead, r, trail);
    if r == [] {
      forall k | 0 <= k < |s| ensures IsWhitespace(s[k]) {
        if k < |lead| {
          assert s[k] == lead[k];
        } else {
          assert s[k] == trail[k - |lead|];
        }
      }
    } else {
      assert s[|lead|] == r[0];
    }
  }

  /** Trimming twice is trimming once. */
  lemma TrimIdempotent(s: string)
    ensures Trim(Trim(s)) == Trim(s)
  {
  }

  /**
   * `a` and `b` agree on their first `i` characters, and there `a` either
   * ends while `b` goes on, or has the smaller character.
   */
  predicate FirstDifference(a: string, b: string, i: int) {
    && 0 <= i <= |a| && i <= |b|
    && a[..i] == b[..i]
    && ((i == |a| && i < |b|) || (i < |a| && i < |b| && a[i] < b[i]))
  }

  /** Agreeing heads: a first difference of the tails is one of the strings, one further on. */
  lemma FirstDifferenceTail(a: string, b: string)
    requires a != [] && b != [] && a[0] == b[0]
    ensures (exists i :: FirstDifference(a, b, i)) <==> (exists j :: FirstDifference(a[1..], b[1..], j))
  {
    if j :| FirstDifference(a[1..], b[1..], j) {
      assert a[..j + 1] == [a[0]] + a[1..][..j] && b[..j + 1] == [b[0]] + b[1..][..j];
      assert FirstDifference(a, b, j + 1);
    }
    if i :| FirstDifference(a, b, i) {
      assert a[1..][..i - 1] == a[..i][1..] && b[1..][..i - 1] == b[..i][1..];
      assert FirstDifference(a[1..], b[1..], i - 1);
    }
  }

  /**
   * The order of strings by their code points: at the first difference the
   * smaller character decides, and a proper prefix comes first.
   */
  function StrLess(a: string, b: string): (r: bool)
    ensures r ==> a != b
    ensures |a| <= |b| && a == b[..|a|] ==> (r <==> |a| < |b|)
  {
    if a == [] then b != []
    else if b == [] then false
    else if a[0] != b[0] then a[0] < b[0]
    else
      assert |a| <= |b| && a == b[..|a|] ==> a[1..] == b[1..][..|a| - 1];
      StrLess(a[1..], b[1..])
  }

  /** `StrLess` is the first-difference order of the two strings. */
  lemma {:induction false} StrLessIsFirstDifference(a: string, b: string)
    ensures StrLess(a, b) <==> exists i :: FirstDifference(a, b, i)
  {
    if a == [] {
      if b != [] {
        assert FirstDifference(a, b, 0);
      }
    } else if b == [] {
    } else if a[0] != b[0] {
      if a[0] < b[0] {
        assert FirstDifference(a, b, 0);
      }
      assert forall i | 1 <= i <= |a| && i <= |b| :: a[..i][0] == a[0] && b[..i][0] == b[0];
    } else {
      StrLessIsFirstDifference(a[1..], b[1..]);
      FirstDifferenceTail(a, b);
    }
  }

  lemma {:induction false} StrLessIrreflexive(a: string)
    ensures !StrLess(a, a)
  {
    if a != [] {
      StrLessIrreflexive(a[1..]);
    }
  }

  lemma {:induction false} StrLessTransitive(a: string, b: string, c: string)
    requires StrLess(a, b) && StrLess(b, c)
    ensures StrLess(a, c)
  {
    if a != [] && b != [] && c != [] && a[0] == b[0] == c[0] {
      StrLessTransitive(a[1..], b[1..], c[1..]);
    }
  }

  lemma {:induction false} StrLessTotal(a: string, b: string)
    ensures a == b || StrLess(a, b) || StrLess(b, a)
  {
    if a != [] && b != [] && a[0] == b[0] {
      StrLessTotal(a[1..], b[1..]);
      if a[1..] == b[1..] {
        assert a == [a[0]] + a[1..] && b == [b[0]] + b[1..];
      }
    }
  }
}
