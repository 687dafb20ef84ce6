/**
 * The handful of string operations the client uses, with the meaning
 * Python's `str` gives them: `isspace`, `strip`, the substring test
 * `pat in s`, `s.replace(pat, "")` and the slice `s[:n]`.
 * A `string` is a sequence of Unicode scalar values. A Python `str` is a
 * sequence of code points, which may also hold lone surrogates
 * (U+D800 to U+DFFF); such texts have no `string` counterpart.
 */
module Strings {

  /** `c.isspace()`: the characters Python counts as whitespace. */
  predicate IsSpace(c: char) {
    || ('\t' <= c <= '\r')
    || ('\U{1C}' <= c <= '\U{1F}')
    || c == ' '
    || c == '\U{85}'
    || c == '\U{A0}'
    || c == '\U{1680}'
    || ('\U{2000}' <= c <= '\U{200A}')
    || c == '\U{2028}'
    || c == '\U{2029}'
    || c == '\U{202F}'
    || c == '\U{205F}'
    || c == '\U{3000}'
  }

  predicate AllSpace(s: string) {
    forall i :: 0 <= i < |s| ==> IsSpace(s[i])
  }

  predicate NoSpace(s: string) {
    forall i :: 0 <= i < |s| ==> !IsSpace(s[i])
  }

  /**
   * Below U+0080, `isspace` holds for exactly the ten characters tab, line
   * feed, vertical tab, form feed, carriage return, the four information
   * separators U+001C to U+001F, and space.
   */
  lemma AsciiSpaces(c: char)
    requires c < '\U{80}'
    ensures IsSpace(c) <==>
              c in {'\t', '\n', '\U{0B}', '\U{0C}', '\r', '\U{1C}', '\U{1D}', '\U{1E}', '\U{1F}', ' '}
  {
  }

  /** `s.lstrip()`: drops the whitespace at the start of `s`. */
  function LStrip(s: string): (r: string)
    ensures |r| <= |s|
  {
    if s != [] && IsSpace(s[0]) then LStrip(s[1..]) else s
  }

  /** `s.rstrip()`: drops the whitespace at the end of `s`. */
  function RStrip(s: string): (r: string)
    ensures |r| <= |s|
  {
    if s != [] && IsSpace(s[|s| - 1]) then RStrip(s[..|s| - 1]) else s
  }

  /** `s.strip()`: drops the whitespace at both ends of `s`. */
  function Strip(s: string): (r: string)
    ensures |r| <= |s|
  {
    RStrip(LStrip(s))
  }

  /** What `lstrip` keeps: the longest suffix of `s` that does not start with whitespace. */
  lemma {:induction false} LStripShape(s: string)
    ensures var r := LStrip(s);
            && r == s[|s| - |r|..]
            && AllSpace(s[..|s| - |r|])
            && (r == [] || !IsSpace(r[0]))
    decreases |s|
  {
    if s != [] && IsSpace(s[0]) {
      LStripShape(s[1..]);
      var r := LStrip(s);
      assert s[1..][|s| - 1 - |r|..] == s[|s| - |r|..];
      var t := s[..|s| - |r|];
      forall i | 0 <= i < |t| ensures IsSpace(t[i]) {
        if i > 0 {
          assert t[i] == s[1..][..|s| - 1 - |r|][i - 1];
        }
      }
    }
  }

  /** What `rstrip` keeps: the longest prefix of `s` that does not end with whitespace. */
  lemma {:induction false} RStripShape(s: string)
    ensures var r := RStrip(s);
            && r == s[..|r|]
            && AllSpace(s[|r|..])
            && (r == [] || !IsSpace(r[|r| - 1]))
    decreases |s|
  {
    if s != [] && IsSpace(s[|s| - 1]) {
      var p := s[..|s| - 1];
      RStripShape(p);
      var r := RStrip(s);
      assert p[..|r|] == s[..|r|];
      var t := s[|r|..];
      forall i | 0 <= i < |t| ensures IsSpace(t[i]) {
        if i < |s| - 1 - |r| {
          assert t[i] == p[|r|..][i];
        }
      }
    }
  }

  /**
   * What `strip` keeps: the infix of `s` left once the whitespace at both
   * ends is removed; it neither starts nor ends with whitespace.
   */
  lemma StripShape(s: string)
    ensures |Strip(s)| <= |LStrip(s)|
    ensures var r, k := Strip(s), |s| - |LStrip(s)|;
            && r == s[k..k + |r|] && AllSpace(s[..k]) && AllSpace(s[k + |r|..])
            && (r == [] || (!IsSpace(r[0]) && !IsSpace(r[|r| - 1])))
  {
    StripInfix(s);
    StripEnds(s);
  }

  /** The part of `StripShape` about positions: an infix with whitespace around it. */
  lemma StripInfix(s: string)
    ensures |Strip(s)| <= |LStrip(s)|
    ensures var r, k := Strip(s), |s| - |LStrip(s)|;
            && r == s[k..k + |r|] && AllSpace(s[..k]) && AllSpace(s[k + |r|..])
  {
    var l := LStrip(s);
    var r := RStrip(l);
    LStripShape(s);
    RStripShape(l);
    PrefixOfSuffix(s, l, r, |s| - |l|);
  }

  /** The part of `StripShape` about the ends: neither is whitespace. */
  lemma StripEnds(s: string)
    ensures var r := Strip(s); r == [] || (!IsSpace(r[0]) && !IsSpace(r[|r| - 1]))
  {
    var l := LStrip(s);
    var r := RStrip(l);
    assert l == [] || !IsSpace(l[0]) by { LStripShape(s); }
    assert |r| <= |l| && r == l[..|r|] && (r == [] || !IsSpace(r[|r| - 1])) by { RStripShape(l); }
    if r != [] {
      assert r[0] == l[0];
    }
  }

  /** A prefix `r` of the suffix `l` of `s` that starts at `k` is an infix of `s`. */
  lemma PrefixOfSuffix<T>(s: seq<T>, l: seq<T>, r: seq<T>, k: nat)
    requires k <= |s| && l == s[k..] && |r| <= |l| && r == l[..|r|]
    ensures k + |r| <= |s| && r == s[k..k + |r|] && s[k + |r|..] == l[|r|..]
  {
  }

  /** Stripping twice is stripping once. */
  lemma StripIdempotent(s: string)
    ensures Strip(Strip(s)) == Strip(s)
  {
    var r := Strip(s);
    StripShape(s);
    if r != [] {
      assert LStrip(r) == r;
      assert RStrip(r) == r;
    }
  }

  /** Python's `pat in s`: `pat` occurs in `s` as a contiguous substring. */
  predicate Contains(s: string, pat: string)
    decreases |s|
  {
    if |s| < |pat| then false
    else s[..|pat|] == pat || (s != [] && Contains(s[1..], pat))
  }

  /** An occurrence at a given position is an occurrence. */
  lemma {:induction false} ContainsAt(s: string, pat: string, i: nat)
    requires i + |pat| <= |s| && s[i..i + |pat|] == pat
    ensures Contains(s, pat)
    decreases i
  {
    if i > 0 {
      assert s[1..][i - 1..i - 1 + |pat|] == s[i..i + |pat|];
      ContainsAt(s[1..], pat, i - 1);
    } else {
      assert s[..|pat|] == s[i..i + |pat|];
    }
  }

  /** Every occurrence sits at some position. */
  lemma {:induction false} ContainsSomewhere(s: string, pat: string) returns (i: nat)
    requires Contains(s, pat)
    ensures i + |pat| <= |s| && s[i..i + |pat|] == pat
    decreases |s|
  {
    if s[..|pat|] == pat {
      i := 0;
    } else {
      var j := ContainsSomewhere(s[1..], pat);
      assert s[1..][j..j + |pat|] == s[j + 1..j + 1 + |pat|];
      i := j + 1;
    }
  }

  /** `pat` sits in `s` at position `i`. */
  predicate OccursAt(s: string, pat: string, i: nat) {
    i + |pat| <= |s| && s[i..i + |pat|] == pat
  }

  /** `pat in s` holds exactly when `pat` sits at some position of `s`. */
  lemma ContainsIff(s: string, pat: string)
    ensures Contains(s, pat) <==> exists i: nat :: OccursAt(s, pat, i)
  {
    if Contains(s, pat) {
      var i := ContainsSomewhere(s, pat);
      assert OccursAt(s, pat, i);
    } else {
      forall i: nat | OccursAt(s, pat, i) ensures false {
        ContainsAt(s, pat, i);
      }
    }
  }

  /** A substring found in a part of a string is found in the whole string. */
  lemma ContainsInfix(s: string, pat: string, a: nat, b: nat)
    requires a <= b <= |s| && Contains(s[a..b], pat)
    ensures Contains(s, pat)
  {
    var i := ContainsSomewhere(s[a..b], pat);
    var t := s[a..b];
    forall k | 0 <= k < |pat| ensures s[a + i..a + i + |pat|][k] == pat[k] {
      assert s[a + i..a + i + |pat|][k] == t[i + k] == t[i..i + |pat|][k];
    }
    ContainsAt(s, pat, a + i);
  }

  lemma AllSpaceAt(t: string, a: nat)
    requires a <= |t|
    ensures AllSpace(t[..a]) ==> forall i :: 0 <= i < a ==> IsSpace(t[i])
    ensures AllSpace(t[a..]) ==> forall i :: a <= i < |t| ==> IsSpace(t[i])
  {
    if AllSpace(t[..a]) {
      forall i | 0 <= i < a ensures IsSpace(t[i]) { assert t[..a][i] == t[i]; }
    }
    if AllSpace(t[a..]) {
      forall i | a <= i < |t| ensures IsSpace(t[i]) { assert t[a..][i - a] == t[i]; }
    }
  }

  /** An occurrence of a pattern without whitespace lies between the stripped ends. */
  lemma OccurrenceInsideStrip(s: string, pat: string, i: nat)
    requires pat != [] && NoSpace(pat)
    requires i + |pat| <= |s| && s[i..i + |pat|] == pat
    ensures var k := |s| - |LStrip(s)|;
            k <= i && i + |pat| <= k + |Strip(s)|
  {
    var r := Strip(s);
    var k := |s| - |LStrip(s)|;
    StripShape(s);
    assert !IsSpace(s[i]) by { assert s[i] == s[i..i + |pat|][0]; }
    assert !IsSpace(s[i + |pat| - 1]) by { assert s[i + |pat| - 1] == s[i..i + |pat|][|pat| - 1]; }
    AllSpaceAt(s, k);
    AllSpaceAt(s, k + |r|);
  }

  /**
   * Stripping never loses an occurrence of a pattern without whitespace,
   * nor makes one up: `pat in s.strip()` exactly when `pat in s`.
   */
  lemma StripKeepsContains(s: string, pat: string)
    requires pat != [] && NoSpace(pat)
    ensures Contains(Strip(s), pat) <==> Contains(s, pat)
  {
    if Contains(Strip(s), pat) {
      var k := |s| - |LStrip(s)|;
      StripShape(s);
      ContainsInfix(s, pat, k, k + |Strip(s)|);
    }
    if Contains(s, pat) {
      ContainsSurvivesStrip(s, pat);
    }
  }

  lemma ContainsSurvivesStrip(s: string, pat: string)
    requires pat != [] && NoSpace(pat) && Contains(s, pat)
    ensures Contains(Strip(s), pat)
  {
    var r := Strip(s);
    var k := |s| - |LStrip(s)|;
    StripShape(s);
    assert Contains(s[k..k + |r|], pat) by {
      var i := ContainsSomewhere(s, pat);
      OccurrenceInsideStrip(s, pat, i);
      OccurrenceInInfix(s, pat, i, k, k + |r|);
    }
    assert r == s[k..k + |r|];
  }

  /** An occurrence that lies inside `s[a..b]` is an occurrence in `s[a..b]`. */
  lemma OccurrenceInInfix(s: string, pat: string, i: nat, a: nat, b: nat)
    requires a <= i && i + |pat| <= b <= |s| && s[i..i + |pat|] == pat
    ensures Contains(s[a..b], pat)
  {
    var r := s[a..b];
    var j := i - a;
    forall m | 0 <= m < |pat| ensures r[j..j + |pat|][m] == pat[m] {
      assert r[j..j + |pat|][m] == r[j + m] == s[i + m] == s[i..i + |pat|][m];
    }
    ContainsAt(r, pat, j);
  }

  /**
   * `s.replace(pat, "")`: one left-to-right pass that deletes each
   * non-overlapping occurrence of `pat`, as Python's `str.replace` does.
   * It leaves `s` alone exactly when `pat` does not occur in it, and
   * otherwise removes at least one whole copy of `pat`.
   */
  function RemoveAll(s: string, pat: string): (r: string)
    requires pat != []
    ensures !Contains(s, pat) ==> r == s
    ensures Contains(s, pat) ==> |r| <= |s| - |pat|
    decreases |s|
  {
    if |s| < |pat| then s
    else if s[..|pat|] == pat then RemoveAll(s[|pat|..], pat)
    else [s[0]] + RemoveAll(s[1..], pat)
  }

  /** The pass is not a fixpoint: deleting `END` once can create a new `END`. */
  lemma RemoveAllCanCreateOccurrence()
    ensures RemoveAll("EENDND", "END") == "END"
    ensures Contains(RemoveAll("EENDND", "END"), "END")
  {
    assert "EENDND"[..3][1] != "END"[1];
    assert "EENDND"[1..] == "ENDND";
    assert "ENDND"[..3] == "END";
    assert "ENDND"[3..] == "ND";
    assert RemoveAll("ND", "END") == "ND";
    assert "END"[..3] == "END";
  }

  /** `s[:n]`: the first `n` characters of `s`, or all of `s` if it is shorter. */
  function Take(s: string, n: nat): (r: string)
    ensures |r| == if |s| <= n then |s| else n
    ensures r == s[..|r|]
  {
    if |s| <= n then s else s[..n]
  }
}
