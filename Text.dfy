/** String helpers the form's rules are built from: JavaScript's `trim()`,
    `toLowerCase()`, `replace(/\s+/g, "")` and the `\s` / `\d` character classes. */
module Text {

  /** The code points ECMAScript counts as WhiteSpace or LineTerminator; both
      `String.prototype.trim` and the regular-expression class `\s` use this set. */
  const Spaces: set<char> := {
    '\t', '\n', '\U{000B}', '\U{000C}', '\r', ' ', '\U{00A0}', '\U{1680}',
    '\U{2000}', '\U{2001}', '\U{2002}', '\U{2003}', '\U{2004}', '\U{2005}',
    '\U{2006}', '\U{2007}', '\U{2008}', '\U{2009}', '\U{200A}',
    '\U{2028}', '\U{2029}', '\U{202F}', '\U{205F}', '\U{3000}', '\U{FEFF}'
  }

  predicate IsSpace(c: char) {
    c in Spaces
  }

  /** Every character of `s[lo..hi]` is white space. */
  predicate SpacesIn(s: string, lo: int, hi: int)
    requires 0 <= lo && hi <= |s|
  {
    forall k :: lo <= k < hi ==> IsSpace(s[k])
  }

  /** Every character of `s` is white space. */
  predicate AllSpace(s: string) {
    SpacesIn(s, 0, |s|)
  }

  /** The regular-expression class `\d`: ASCII digits only. */
  predicate IsDigit(c: char) {
    '0' <= c <= '9'
  }

  predicate AllDigits(s: string) {
    forall i :: 0 <= i < |s| ==> IsDigit(s[i])
  }

  /** How many white-space characters `s` starts with. */
  function LeadingSpaces(s: string): (n: nat)
    ensures n <= |s| && SpacesIn(s, 0, n)
    ensures n < |s| ==> !IsSpace(s[n])
  {
    if s == [] || !IsSpace(s[0]) then 0 else 1 + LeadingSpaces(s[1..])
  }

  /** How many white-space characters `s` ends with. */
  function TrailingSpaces(s: string): (n: nat)
    ensures n <= |s| && SpacesIn(s, |s| - n, |s|)
    ensures n < |s| ==> !IsSpace(s[|s| - 1 - n])
  {
    if s == [] || !IsSpace(s[|s| - 1]) then 0 else 1 + TrailingSpaces(s[..|s| - 1])
  }

  /** `s.trim()`: the leading and the trailing white space removed. */
  function Trim(s: string): (r: string)
    ensures |r| <= |s|
    ensures r == [] || (!IsSpace(r[0]) && !IsSpace(r[|r| - 1]))
  {
    var i := LeadingSpaces(s);
    if i == |s| then [] else s[i..|s| - TrailingSpaces(s)]
  }

  /** `!s.trim()`: the string is empty once trimmed. */
  predicate IsBlank(s: string) {
    Trim(s) == ""
  }

  /** ASCII part of `toLowerCase()`: 'A'..'Z' become 'a'..'z', nothing else changes. */
  function LowerChar(c: char): (d: char)
    ensures !('A' <= d <= 'Z')
    ensures 'a' <= d <= 'z' <==> 'a' <= c <= 'z' || 'A' <= c <= 'Z'
    ensures !('A' <= c <= 'Z') ==> d == c
    ensures 'A' <= c <= 'Z' ==> d as int - 'a' as int == c as int - 'A' as int
  {
    if 'A' <= c <= 'Z' then (c as int + 32) as char else c
  }

  /** `s.toLowerCase()`, restricted to ASCII case folding. */
  function ToLower(s: string): (r: string)
    ensures |r| == |s|
    ensures forall i :: 0 <= i < |s| ==> r[i] == LowerChar(s[i])
  {
    if s == [] then [] else [LowerChar(s[0])] + ToLower(s[1..])
  }

  /** `s.replace(/\s+/g, "")`: every white-space character removed. */
  function StripSpaces(s: string): (r: string)
    ensures |r| <= |s|
    ensures forall i :: 0 <= i < |r| ==> !IsSpace(r[i])
    ensures forall c :: c in r ==> c in s
  {
    if s == [] then []
    else if IsSpace(s[0]) then StripSpaces(s[1..])
    else [s[0]] + StripSpaces(s[1..])
  }

  /** Trimming removes exactly the white-space margins: whenever `s[i..j]` is
      flanked by white space and starts and ends with a non-space, it is `Trim(s)`. */
  lemma TrimIsCore(s: string, i: nat, j: nat)
    requires i <= j <= |s|
    requires SpacesIn(s, 0, i) && SpacesIn(s, j, |s|)
    requires i < j ==> !IsSpace(s[i]) && !IsSpace(s[j - 1])
    ensures Trim(s) == s[i..j]
  {
  }

  /** Where `Trim(s)` sits inside `s`: white space `s[..i]`, the kept part
      `s[i..j]` with non-space ends, and white space `s[j..]`. */
  lemma TrimBounds(s: string) returns (i: nat, j: nat)
    ensures i <= j <= |s| && Trim(s) == s[i..j]
    ensures SpacesIn(s, 0, i) && SpacesIn(s, j, |s|)
    ensures i < j ==> !IsSpace(s[i]) && !IsSpace(s[j - 1])
  {
    i := LeadingSpaces(s);
    if i == |s| {
      j := i;
    } else {
      j := |s| - TrailingSpaces(s);
    }
  }

  /** Surrounding white space does not change the trimmed value. */
  lemma TrimIgnoresMargins(w1: string, s: string, w2: string)
    requires AllSpace(w1) && AllSpace(w2)
    ensures Trim(w1 + s + w2) == Trim(s)
  {
    var i, j := TrimBounds(s);
    var x := w1 + s + w2;
    var n := |w1|;
    assert |x| == n + |s| + |w2|;
    assert forall k :: 0 <= k < n ==> x[k] == w1[k];
    assert forall k :: n <= k < n + |s| ==> x[k] == s[k - n];
    assert forall k :: n + |s| <= k < |x| ==> x[k] == w2[k - n - |s|];
    assert SpacesIn(x, 0, n + i) by {
      forall k | 0 <= k < n + i ensures IsSpace(x[k]) {
        if k < n { assert IsSpace(w1[k]); } else { assert x[k] == s[k - n]; }
      }
    }
    assert SpacesIn(x, n + j, |x|) by {
      forall k | n + j <= k < |x| ensures IsSpace(x[k]) {
        if k < n + |s| { assert x[k] == s[k - n]; } else { assert IsSpace(w2[k - n - |s|]); }
      }
    }
    TrimIsCore(x, n + i, n + j);
    assert x[n + i..n + j] == s[i..j];
  }

  /** `trim()` leaves nothing exactly when the string is all white space. */
  lemma BlankIffAllSpace(s: string)
    ensures IsBlank(s) <==> AllSpace(s)
  {
  }

  /** A string that starts with a visible character is not blank. */
  lemma VisibleStartNotBlank(s: string)
    requires |s| > 0 && !IsSpace(s[0])
    ensures !IsBlank(s)
  {
    BlankIffAllSpace(s);
  }

  /** A string with visible characters at both ends is its own trim. */
  lemma TrimKeepsVisibleEnds(s: string)
    requires |s| > 0 && !IsSpace(s[0]) && !IsSpace(s[|s| - 1])
    ensures Trim(s) == s
  {
    TrimIsCore(s, 0, |s|);
  }

  /** Lower-casing a second time changes nothing. */
  lemma {:induction false} ToLowerIdempotent(s: string)
    ensures ToLower(ToLower(s)) == ToLower(s)
  {
    var l := ToLower(s);
    forall i | 0 <= i < |s| ensures ToLower(l)[i] == l[i] {
      assert LowerChar(l[i]) == l[i];
    }
  }

  /** Lower-casing commutes with slicing. */
  lemma {:induction false} ToLowerSlice(s: string, i: nat, j: nat)
    requires i <= j <= |s|
    ensures ToLower(s[i..j]) == ToLower(s)[i..j]
  {
    var l, t := ToLower(s), ToLower(s[i..j]);
    forall k | 0 <= k < j - i ensures t[k] == l[i + k] {
      assert s[i..j][k] == s[i + k];
    }
  }

  /** Lower-casing maps white space to white space and nothing else to it. */
  lemma LowerCharSpace(c: char)
    ensures IsSpace(LowerChar(c)) <==> IsSpace(c)
  {
    if 'A' <= c <= 'Z' {
      assert 'a' <= LowerChar(c) <= 'z';
    }
  }

  /** Lower-casing neither creates nor removes white space, so it commutes with `trim()`. */
  lemma TrimToLower(s: string)
    ensures Trim(ToLower(s)) == ToLower(Trim(s))
  {
    var i, j := TrimBounds(s);
    var l := ToLower(s);
    forall k | 0 <= k < |s| ensures IsSpace(l[k]) <==> IsSpace(s[k]) {
      LowerCharSpace(s[k]);
    }
    TrimIsCore(l, i, j);
    ToLowerSlice(s, i, j);
  }

  /** Removing white space distributes over concatenation, so characters keep their order. */
  lemma {:induction false} StripSpacesConcat(a: string, b: string)
    ensures StripSpaces(a + b) == StripSpaces(a) + StripSpaces(b)
  {
    if a == [] {
      assert a + b == b;
    } else {
      assert (a + b)[1..] == a[1..] + b;
      StripSpacesConcat(a[1..], b);
    }
  }

  /** A string without white space is left as it is. */
  lemma {:induction false} StripSpacesNoSpace(s: string)
    requires forall i :: 0 <= i < |s| ==> !IsSpace(s[i])
    ensures StripSpaces(s) == s
  {
    if s != [] {
      StripSpacesNoSpace(s[1..]);
    }
  }

  /** A string of white space disappears entirely. */
  lemma {:induction false} StripSpacesAllSpace(s: string)
    requires AllSpace(s)
    ensures StripSpaces(s) == []
  {
    if s != [] {
      StripSpacesAllSpace(s[1..]);
    }
  }
}
