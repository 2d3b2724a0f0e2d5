/** Normalisation of a user-supplied extension before it is checked and stored:
    lower-case it, trim white space at both ends, then strip every leading '.'.
    Lower-casing is modelled on ASCII letters; trimming uses the ECMAScript
    white-space and line-terminator characters. */
module Normalization {

  /** An ASCII upper-case letter. */
  predicate IsUpper(c: char) {
    'A' <= c <= 'Z'
  }

  /** The lower-case counterpart of an ASCII upper-case letter; any other character is kept. */
  function LowerChar(c: char): (d: char)
    ensures !IsUpper(d)
    ensures !IsUpper(c) ==> d == c
    ensures IsUpper(c) ==> 'a' <= d <= 'z' && d as int - c as int == 'a' as int - 'A' as int
  {
    if IsUpper(c) then (c as int - 'A' as int + 'a' as int) as char else c
  }

  /** `toLowerCase` on ASCII letters: same length, no upper-case letter left,
      every other character in place. */
  function Lower(s: string): (r: string)
    ensures |r| == |s|
    ensures forall i :: 0 <= i < |r| ==> !IsUpper(r[i])
    ensures forall i :: 0 <= i < |s| ==> r[i] == LowerChar(s[i])
  {
    seq(|s|, i requires 0 <= i < |s| => LowerChar(s[i]))
  }

  /** The characters `trim` removes: ECMAScript WhiteSpace and LineTerminator. */
  predicate IsWhiteSpace(c: char) {
    c == '\t' || c == '\n' || c == '\U{B}' || c == '\U{C}' || c == '\r' || c == ' '
    || c == '\U{A0}' || c == '\U{1680}' || ('\U{2000}' <= c <= '\U{200A}')
    || c == '\U{2028}' || c == '\U{2029}' || c == '\U{202F}' || c == '\U{205F}'
    || c == '\U{3000}' || c == '\U{FEFF}'
  }

  /** Drops the white space at the start of `s`. */
  function TrimStart(s: string): (r: string)
    ensures |r| <= |s| && r == s[|s| - |r|..]
    ensures forall i :: 0 <= i < |s| - |r| ==> IsWhiteSpace(s[i])
    ensures r == [] || !IsWhiteSpace(r[0])
  {
    if s != [] && IsWhiteSpace(s[0]) then
      var r := TrimStart(s[1..]);
      assert forall i :: 1 <= i < |s| ==> s[i] == s[1..][i - 1];
      r
    else s
  }

  /** Drops the white space at the end of `s`. */
  function TrimEnd(s: string): (r: string)
    ensures |r| <= |s| && r == s[..|r|]
    ensures forall i :: |r| <= i < |s| ==> IsWhiteSpace(s[i])
    ensures r == [] || !IsWhiteSpace(r[|r| - 1])
  {
    if s != [] && IsWhiteSpace(s[|s| - 1]) then
      var r := TrimEnd(s[..|s| - 1]);
      assert forall i :: 0 <= i < |s| - 1 ==> s[i] == s[..|s| - 1][i];
      r
    else s
  }

  /** Neither end is white space. */
  predicate IsTrimmed(s: string) {
    s == [] || (!IsWhiteSpace(s[0]) && !IsWhiteSpace(s[|s| - 1]))
  }

  /** `trim`: the result has no white space at either end, it is empty exactly
      when `s` is all white space, and a string already trimmed is kept. */
  function Trim(s: string): (r: string)
    ensures |r| <= |s|
    ensures IsTrimmed(r)
    ensures r == [] <==> forall i :: 0 <= i < |s| ==> IsWhiteSpace(s[i])
    ensures IsTrimmed(s) ==> r == s
  {
    var t := TrimStart(s);
    var r := TrimEnd(t);
    assert r != [] ==> r[0] == t[0];
    assert r == [] ==> t == [];
    r
  }

  /** What `trim` removes is white space only: the result is the middle of `s`
      once the white space at both ends is cut off. */
  lemma TrimCutsEnds(s: string)
    ensures exists a :: (0 <= a <= |s| - |Trim(s)| && s[a..][..|Trim(s)|] == Trim(s)
      && (forall c :: c in s[..a] ==> IsWhiteSpace(c))
      && (forall c :: c in s[a..][|Trim(s)|..] ==> IsWhiteSpace(c)))
  {
    var t := TrimStart(s);
    var r := Trim(s);
    var a := |s| - |t|;
    assert s[a..] == t && t[..|r|] == r;
  }

  /** `replace(/^\.+/, '')`: drops every leading '.'. */
  function StripLeadingDots(s: string): (r: string)
    ensures |r| <= |s| && r == s[|s| - |r|..]
    ensures forall i :: 0 <= i < |s| - |r| ==> s[i] == '.'
    ensures r == [] || r[0] != '.'
  {
    if s != [] && s[0] == '.' then
      var r := StripLeadingDots(s[1..]);
      assert forall i :: 1 <= i < |s| ==> s[i] == s[1..][i - 1];
      r
    else s
  }

  /** The shape of every normalised identifier: no upper-case letter, no
      leading '.', no trailing white space. */
  predicate IsNormalised(s: string) {
    (forall i :: 0 <= i < |s| ==> !IsUpper(s[i]))
    && (s == [] || (s[0] != '.' && !IsWhiteSpace(s[|s| - 1])))
  }

  /** Lower-case, then trim, then strip leading dots. */
  function Normalize(s: string): (r: string)
    ensures |r| <= |s|
    ensures IsNormalised(r)
  {
    NormalizedShape(s);
    StripLeadingDots(Trim(Lower(s)))
  }

  /** The three steps leave no upper-case letter, no leading '.' and no
      trailing white space, and never lengthen the input. */
  lemma NormalizedShape(s: string)
    ensures |StripLeadingDots(Trim(Lower(s)))| <= |s|
    ensures IsNormalised(StripLeadingDots(Trim(Lower(s))))
  {
    var l := Lower(s);
    var t := Trim(l);
    TrimKeepsNoUpper(l);
    var r := StripLeadingDots(t);
    SuffixKeepsNoUpper(t, |t| - |r|);
    assert r != [] ==> r[|r| - 1] == t[|t| - 1];
  }

  /** A suffix of a string with no upper-case letter has none. */
  lemma SuffixKeepsNoUpper(s: string, k: nat)
    requires k <= |s|
    requires forall i :: 0 <= i < |s| ==> !IsUpper(s[i])
    ensures forall i :: 0 <= i < |s[k..]| ==> !IsUpper(s[k..][i])
  {
  }

  /** Trimming a string with no upper-case letter leaves none. */
  lemma TrimKeepsNoUpper(s: string)
    requires forall i :: 0 <= i < |s| ==> !IsUpper(s[i])
    ensures forall i :: 0 <= i < |Trim(s)| ==> !IsUpper(Trim(s)[i])
  {
    var t := TrimStart(s);
    assert Trim(s) == t[..|Trim(s)|];
  }

  /** Every normalised shape is reached: `Normalize` maps `"." + t` to `t`.
      So `IsNormalised` is exactly the image of `Normalize`. */
  lemma NormalizeOnto(t: string)
    requires IsNormalised(t)
    ensures Normalize(['.'] + t) == t
  {
    DotPrefixShape(t);
    NormalizeTrimmedLowerCase(['.'] + t);
    StripOneDot(t);
  }

  /** Putting a '.' in front of a normalised string adds no upper-case letter
      and no white space at either end. */
  lemma DotPrefixShape(t: string)
    requires IsNormalised(t)
    ensures forall i :: 0 <= i < |['.'] + t| ==> !IsUpper((['.'] + t)[i])
    ensures IsTrimmed(['.'] + t)
  {
    var s := ['.'] + t;
    forall i | 1 <= i < |s| ensures !IsUpper(s[i]) {
      assert s[i] == t[i - 1];
    }
    assert s[|s| - 1] == if t == [] then '.' else t[|t| - 1];
  }

  /** One leading '.' in front of a string that does not start with '.' is
      stripped and nothing else is. */
  lemma StripOneDot(t: string)
    requires t == [] || t[0] != '.'
    ensures StripLeadingDots(['.'] + t) == t
  {
    assert (['.'] + t)[1..] == t;
  }

  /** On a trimmed string with no upper-case letter, normalisation only strips
      the leading dots. */
  lemma NormalizeTrimmedLowerCase(s: string)
    requires forall i :: 0 <= i < |s| ==> !IsUpper(s[i])
    requires IsTrimmed(s)
    ensures Normalize(s) == StripLeadingDots(s)
  {
    LowerKeepsLowerCase(s);
  }

  /** A string without upper-case letters is its own lower-case form. */
  lemma LowerKeepsLowerCase(s: string)
    requires forall i :: 0 <= i < |s| ==> !IsUpper(s[i])
    ensures Lower(s) == s
  {
    var l := Lower(s);
    assert forall i :: 0 <= i < |s| ==> l[i] == s[i];
  }

  /** Normalising again changes nothing, unless the normalised form starts
      with white space. */
  lemma NormalizeFixesUnpadded(t: string)
    requires IsNormalised(t)
    requires t == [] || !IsWhiteSpace(t[0])
    ensures Normalize(t) == t
  {
    LowerKeepsLowerCase(t);
    assert IsTrimmed(t);
    assert StripLeadingDots(t) == t;
  }

  /** ".SH" gives "sh": lower-cased, then its leading dot dropped. */
  lemma NormalizeDotAndCase()
    ensures Normalize(".SH") == "sh"
  {
    assert Lower(".SH") == ".sh";
    assert IsTrimmed(".sh");
    assert ".sh"[1..] == "sh";
    assert StripLeadingDots(".sh") == StripLeadingDots("sh") == "sh";
  }

  /** White space only. */
  predicate AllWhiteSpace(w: string) {
    forall i :: 0 <= i < |w| ==> IsWhiteSpace(w[i])
  }

  /** `TrimStart` drops exactly the white-space padding in front. */
  lemma {:induction false} TrimStartPadding(w: string, u: string)
    requires AllWhiteSpace(w)
    requires u == [] || !IsWhiteSpace(u[0])
    ensures TrimStart(w + u) == u
  {
    if w == [] {
      assert w + u == u;
    } else {
      assert (w + u)[1..] == w[1..] + u;
      TrimStartPadding(w[1..], u);
    }
  }

  /** `TrimEnd` drops exactly the white-space padding behind. */
  lemma {:induction false} TrimEndPadding(u: string, w: string)
    requires AllWhiteSpace(w)
    requires u == [] || !IsWhiteSpace(u[|u| - 1])
    ensures TrimEnd(u + w) == u
  {
    if w == [] {
      assert u + w == u;
    } else {
      var n := |u + w|;
      assert (u + w)[..n - 1] == u + w[..|w| - 1];
      TrimEndPadding(u, w[..|w| - 1]);
    }
  }

  /** White space around an identifier in normal form is ignored:
      "  sh " and " sh" both give "sh". */
  lemma NormalizeIgnoresPadding(before: string, t: string, after: string)
    requires AllWhiteSpace(before) && AllWhiteSpace(after)
    requires IsNormalised(t) && t != [] && !IsWhiteSpace(t[0])
    ensures Normalize(before + t + after) == t
  {
    var s := before + t + after;
    assert forall i :: 0 <= i < |s| ==> !IsUpper(s[i]) by {
      forall i | 0 <= i < |s| ensures !IsUpper(s[i]) {
        if i < |before| {
          assert s[i] == before[i];
        } else if i < |before| + |t| {
          assert s[i] == t[i - |before|];
        } else {
          assert s[i] == after[i - |before| - |t|];
        }
      }
    }
    LowerKeepsLowerCase(s);
    assert s == before + (t + after);
    TrimStartPadding(before, t + after);
    TrimEndPadding(t, after);
  }

  /** "  sh " gives "sh": white space trimmed at both ends.
      The input is a parameter pinned by `requires`, not a literal, so that the
      verifier reaches the result through the general lemmas instead of
      unfolding the recursive definitions on a literal string. */
  lemma NormalizeSpaces(s: string)
    requires s == "  sh "
    ensures Normalize(s) == "sh"
  {
    assert s == s[..2] + s[2..4] + s[4..];
    assert s[2..4] == "sh" && IsNormalised("sh");
    NormalizeIgnoresPadding(s[..2], s[2..4], s[4..]);
  }

  /** "sh" is already normal. */
  lemma NormalizeKeepsNormal()
    ensures Normalize("sh") == "sh"
  {
    assert IsNormalised("sh");
    NormalizeFixesUnpadded("sh");
  }

  /** "EXE" gives the fixed identifier "exe". */
  lemma NormalizeUpper()
    ensures Normalize("EXE") == "exe"
  {
    assert Lower("EXE") == "exe";
    assert IsNormalised("exe");
    NormalizeFixesUnpadded("exe");
  }

  /** " sh" gives "sh": its leading white space is trimmed.
      The input is pinned by `requires`, as in `NormalizeSpaces`. */
  lemma NormalizeLeadingSpace(s: string)
    requires s == " sh"
    ensures Normalize(s) == "sh"
  {
    assert s == s[..1] + s[1..] + [];
    assert s[1..] == "sh" && IsNormalised("sh");
    NormalizeIgnoresPadding(s[..1], s[1..], []);
  }

  /** Normalisation is not idempotent: ". sh" gives " sh", which gives "sh".
      The input is pinned by `requires`, as in `NormalizeSpaces`. */
  lemma NormalizeNotIdempotent(s: string)
    requires s == ". sh"
    ensures Normalize(s) == " sh"
    ensures Normalize(Normalize(s)) == "sh"
  {
    var t := s[1..];
    assert t == " sh" && s == ['.'] + t;
    assert IsNormalised(t);
    NormalizeOnto(t);
    NormalizeLeadingSpace(t);
  }
}
