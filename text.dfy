/** The three Python string operations the reply handler relies on:
    `str.lower()`, `str.strip()` and the substring test `w in s`,
    restricted to ASCII. */
module Text {

  /** Whitespace as `str.isspace()` sees it in the ASCII range:
      tab, line feed, vertical tab, form feed, carriage return,
      the four separators 0x1C-0x1F and the space. */
  predicate IsSpace(c: char) {
    var n := c as int;
    (9 <= n <= 13) || (28 <= n <= 31) || n == 32
  }

  predicate IsUpper(c: char) {
    'A' <= c <= 'Z'
  }

  /** `c.lower()` for an ASCII character. */
  function LowerChar(c: char): (d: char)
    ensures !IsUpper(d)
    ensures IsUpper(c) ==> d as int == c as int + 32
    ensures !IsUpper(c) ==> d == c
    ensures IsSpace(d) == IsSpace(c)
  {
    if IsUpper(c) then (c as int + 32) as char else c
  }

  /** `s.lower()`: every upper-case ASCII letter replaced by its
      lower-case form, everything else kept in place. */
  function Lower(s: string): (r: string)
    ensures |r| == |s|
    ensures forall i :: 0 <= i < |s| ==> r[i] == LowerChar(s[i])
  {
    seq(|s|, i requires 0 <= i < |s| => LowerChar(s[i]))
  }

  /** Lower-casing twice is lower-casing once. */
  lemma LowerIdempotent(s: string)
    ensures Lower(Lower(s)) == Lower(s)
  {
  }

  /** A text without upper-case letters is its own lower-case form. */
  lemma LowerOfLowerCase(s: string)
    requires forall i :: 0 <= i < |s| ==> !IsUpper(s[i])
    ensures Lower(s) == s
  {
  }

  /** Lower-casing commutes with slicing. */
  lemma LowerSlice(s: string, i: nat, j: nat)
    requires i <= j <= |s|
    ensures Lower(s[i..j]) == Lower(s)[i..j]
  {
  }

  /** `w` occurs in `s` starting at index `i`. */
  ghost predicate OccursAt(w: string, s: string, i: int) {
    0 <= i && i + |w| <= |s| && s[i..i + |w|] == w
  }

  /** `w` occurs somewhere in `s` as a contiguous substring. */
  ghost predicate Occurs(w: string, s: string) {
    exists i :: OccursAt(w, s, i)
  }

  /** The substring test `w in s` (true for the empty `w`). */
  function Contains(s: string, w: string): (r: bool)
    ensures r <==> Occurs(w, s)
    decreases |s|
  {
    if |s| < |w| then false
    else if w <= s then
      assert OccursAt(w, s, 0);
      true
    else
      var rest := Contains(s[1..], w);
      assert rest <==> Occurs(w, s) by {
        if rest {
          var i :| OccursAt(w, s[1..], i);
          assert s[i + 1..i + 1 + |w|] == s[1..][i..i + |w|];
          assert OccursAt(w, s, i + 1);
        }
        if i :| OccursAt(w, s, i) {
          if i != 0 {
            assert s[1..][i - 1..i - 1 + |w|] == s[i..i + |w|];
            assert OccursAt(w, s[1..], i - 1);
          }
        }
      }
      rest
  }

  /** A slice of a slice is a slice of the whole. */
  lemma SliceOfSlice(s: string, i: nat, j: nat, a: nat, b: nat)
    requires i <= j <= |s| && a <= b <= j - i
    ensures s[i..j][a..b] == s[i + a..i + b]
  {
    assert |s[i..j][a..b]| == |s[i + a..i + b]|;
    forall m | 0 <= m < b - a
      ensures s[i..j][a..b][m] == s[i + a..i + b][m]
    {
      assert s[i..j][a..b][m] == s[i..j][a + m] == s[i + a + m];
    }
  }

  /** A substring of a slice is a substring of the whole. */
  lemma OccursInSlice(w: string, s: string, i: nat, j: nat)
    requires i <= j <= |s|
    requires Occurs(w, s[i..j])
    ensures Occurs(w, s)
  {
    var k :| OccursAt(w, s[i..j], k);
    SliceOfSlice(s, i, j, k, k + |w|);
    assert OccursAt(w, s, i + k);
  }

  /** An occurrence that lies between `i` and `j` is one in the slice. */
  lemma OccursAtInSlice(w: string, s: string, i: nat, j: nat, p: int)
    requires OccursAt(w, s, p) && i <= p && p + |w| <= j <= |s|
    ensures Occurs(w, s[i..j])
  {
    SliceOfSlice(s, i, j, p - i, p - i + |w|);
    assert OccursAt(w, s[i..j], p - i);
  }

  /** Number of whitespace characters at the start of `s`. */
  function LeadingSpaces(s: string): (n: nat)
    ensures n <= |s|
    ensures forall k :: 0 <= k < n ==> IsSpace(s[k])
    ensures n < |s| ==> !IsSpace(s[n])
  {
    if s == [] || !IsSpace(s[0]) then 0 else 1 + LeadingSpaces(s[1..])
  }

  /** Number of whitespace characters at the end of `s`. */
  function TrailingSpaces(s: string): (n: nat)
    ensures n <= |s|
    ensures forall k :: |s| - n <= k < |s| ==> IsSpace(s[k])
    ensures n < |s| ==> !IsSpace(s[|s| - 1 - n])
  {
    if s == [] || !IsSpace(s[|s| - 1]) then 0 else 1 + TrailingSpaces(s[..|s| - 1])
  }

  /** The bounds `(i, j)` of `s.strip()` inside `s`: only whitespace lies
      outside them, and the kept part neither starts nor ends with
      whitespace. */
  function StripBounds(s: string): (b: (nat, nat))
    ensures b.0 <= b.1 <= |s|
    ensures forall k :: 0 <= k < b.0 ==> IsSpace(s[k])
    ensures forall k :: b.1 <= k < |s| ==> IsSpace(s[k])
    ensures b.0 < b.1 ==> !IsSpace(s[b.0]) && !IsSpace(s[b.1 - 1])
  {
    var i := LeadingSpaces(s);
    if i == |s| then (i, i) else (i, |s| - TrailingSpaces(s))
  }

  /** `s.strip()`: `s` without its leading and trailing whitespace. */
  function Strip(s: string): (r: string)
    ensures |r| <= |s|
    ensures r == s[StripBounds(s).0..StripBounds(s).1]
    ensures r != [] ==> !IsSpace(r[0]) && !IsSpace(r[|r| - 1])
  {
    var b := StripBounds(s);
    s[b.0..b.1]
  }

  /** Stripping twice is stripping once. */
  lemma StripIdempotent(s: string)
    ensures Strip(Strip(s)) == Strip(s)
  {
    var r := Strip(s);
    var b := StripBounds(r);
    if r != [] {
      assert b.0 == 0;
      assert b.1 == |r|;
    }
  }

  /** An occurrence of a word free of whitespace lies inside the strip
      bounds. */
  lemma OccurrenceInsideBounds(w: string, s: string, p: int)
    requires |w| > 0 && forall k :: 0 <= k < |w| ==> !IsSpace(w[k])
    requires OccursAt(w, Lower(s), p)
    ensures StripBounds(s).0 <= p && p + |w| <= StripBounds(s).1
  {
    var t := Lower(s);
    assert t[p] == t[p..p + |w|][0] == w[0];
    assert !IsSpace(s[p]);
    assert t[p + |w| - 1] == t[p..p + |w|][|w| - 1] == w[|w| - 1];
    assert !IsSpace(s[p + |w| - 1]);
  }

  /** A word free of whitespace occurs in the lower-cased stripped text
      exactly when it occurs in the lower-cased text. */
  lemma OccursLowerStrip(w: string, s: string)
    requires forall k :: 0 <= k < |w| ==> !IsSpace(w[k])
    ensures Occurs(w, Lower(Strip(s))) <==> Occurs(w, Lower(s))
  {
    var b := StripBounds(s);
    var t := Lower(s);
    LowerSlice(s, b.0, b.1);
    if Occurs(w, t[b.0..b.1]) {
      OccursInSlice(w, t, b.0, b.1);
    }
    if Occurs(w, t) {
      if |w| == 0 {
        assert OccursAt(w, t[b.0..b.1], 0);
      } else {
        var p :| OccursAt(w, t, p);
        OccurrenceInsideBounds(w, s, p);
        OccursAtInSlice(w, t, b.0, b.1, p);
      }
    }
  }
}
