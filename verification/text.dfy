/** The three string primitives the two screens rely on, as JavaScript
    defines them: `trim`, `toLowerCase` (restricted to ASCII letters) and
    `includes`. Strings are sequences of Unicode scalar values. */
module Text {

  /** The code points `String.prototype.trim` strips: ECMAScript's
      WhiteSpace production (TAB, VT, FF, ZWNBSP and every space separator
      of Unicode category Zs) together with its LineTerminator production
      (LF, CR, LINE SEPARATOR, PARAGRAPH SEPARATOR). */
  const JsSpaces: set<char> := {
    '\t', '\n', '\U{000B}', '\U{000C}', '\r',
    ' ', '\U{00A0}', '\U{1680}',
    '\U{2000}', '\U{2001}', '\U{2002}', '\U{2003}', '\U{2004}', '\U{2005}',
    '\U{2006}', '\U{2007}', '\U{2008}', '\U{2009}', '\U{200A}',
    '\U{2028}', '\U{2029}', '\U{202F}', '\U{205F}', '\U{3000}', '\U{FEFF}'}

  predicate IsJsSpace(c: char) {
    c in JsSpaces
  }

  ghost predicate AllSpace(s: string) {
    forall i :: 0 <= i < |s| ==> IsJsSpace(s[i])
  }

  /** Every character of `s` from index `i` up to `j` is whitespace. */
  ghost predicate SpaceBetween(s: string, i: int, j: int)
    requires 0 <= i && j <= |s|
  {
    forall k :: i <= k < j ==> IsJsSpace(s[k])
  }

  /** A string with no whitespace at either end. */
  predicate Trimmed(s: string) {
    s == [] || (!IsJsSpace(s[0]) && !IsJsSpace(s[|s| - 1]))
  }

  /** `t` sits at offset `i` of `s` with nothing but whitespace around it. */
  ghost predicate SpaceFramed(s: string, t: string, i: int) {
    && 0 <= i && i + |t| <= |s|
    && s[i..i + |t|] == t
    && SpaceBetween(s, 0, i)
    && SpaceBetween(s, i + |t|, |s|)
  }

  /** The index of the first non-space of `s` at or after `i`, or `|s|`. */
  function SkipForward(s: string, i: nat): (r: nat)
    requires i <= |s|
    ensures i <= r <= |s|
    ensures r == |s| || !IsJsSpace(s[r])
    decreases |s| - i
  {
    if i < |s| && IsJsSpace(s[i]) then SkipForward(s, i + 1) else i
  }

  /** The index just past the last non-space of `s` before `j`, but not
      below `lo`. */
  function SkipBackward(s: string, lo: nat, j: nat): (r: nat)
    requires lo <= j <= |s|
    ensures lo <= r <= j
    ensures r == lo || !IsJsSpace(s[r - 1])
    decreases j
  {
    if lo < j && IsJsSpace(s[j - 1]) then SkipBackward(s, lo, j - 1) else j
  }

  /** SkipForward passes over whitespace only. */
  lemma {:induction false} SkipForwardSkipsSpace(s: string, i: nat)
    requires i <= |s|
    ensures SpaceBetween(s, i, SkipForward(s, i))
    decreases |s| - i
  {
    if i < |s| && IsJsSpace(s[i]) {
      SkipForwardSkipsSpace(s, i + 1);
    }
  }

  /** SkipBackward passes over whitespace only. */
  lemma {:induction false} SkipBackwardSkipsSpace(s: string, lo: nat, j: nat)
    requires lo <= j <= |s|
    ensures SpaceBetween(s, SkipBackward(s, lo, j), j)
    decreases j
  {
    if lo < j && IsJsSpace(s[j - 1]) {
      SkipBackwardSkipsSpace(s, lo, j - 1);
    }
  }

  /** Whitespace from `i` up to a non-space at `k` is exactly what
      SkipForward passes over. */
  lemma {:induction false} SkipForwardStopsAt(s: string, i: nat, k: nat)
    requires i <= k <= |s|
    requires SpaceBetween(s, i, k)
    requires k == |s| || !IsJsSpace(s[k])
    ensures SkipForward(s, i) == k
    decreases k - i
  {
    if i < k {
      SkipForwardStopsAt(s, i + 1, k);
    }
  }

  /** Whitespace from a non-space before `k` up to `j` is exactly what
      SkipBackward passes over. */
  lemma {:induction false} SkipBackwardStopsAt(s: string, lo: nat, k: nat, j: nat)
    requires lo <= k <= j <= |s|
    requires SpaceBetween(s, k, j)
    requires k == lo || !IsJsSpace(s[k - 1])
    ensures SkipBackward(s, lo, j) == k
    decreases j - k
  {
    if k < j {
      SkipBackwardStopsAt(s, lo, k, j - 1);
    }
  }

  /** JavaScript's `trim`: no whitespace is left at either end. TrimFrames
      adds that nothing but whitespace was removed. */
  function Trim(s: string): (r: string)
    ensures Trimmed(r)
  {
    var lo := SkipForward(s, 0);
    s[lo..SkipBackward(s, lo, |s|)]
  }

  /** The trim of `s` sits inside `s` with only whitespace around it. */
  lemma TrimFrames(s: string)
    ensures SpaceFramed(s, Trim(s), SkipForward(s, 0))
  {
    var lo := SkipForward(s, 0);
    SkipForwardSkipsSpace(s, 0);
    SkipBackwardSkipsSpace(s, lo, |s|);
  }

  /** Trim is characterised by its contract: any piece without whitespace
      at its ends that is framed by whitespace in `s` is the trim of `s`. */
  lemma TrimUnique(s: string, t: string, i: int)
    requires SpaceFramed(s, t, i)
    requires Trimmed(t)
    ensures Trim(s) == t
  {
    if t == [] {
      SkipForwardStopsAt(s, 0, |s|);
      SkipBackwardStopsAt(s, |s|, |s|, |s|);
    } else {
      assert s[i] == t[0] && s[i + |t| - 1] == t[|t| - 1];
      SkipForwardStopsAt(s, 0, i);
      SkipBackwardStopsAt(s, i, i + |t|, |s|);
    }
  }

  /** Trimming twice is trimming once. */
  lemma TrimIdempotent(s: string)
    ensures Trim(Trim(s)) == Trim(s)
  {
    var t := Trim(s);
    assert t[0..|t|] == t;
    TrimUnique(t, t, 0);
  }

  /** ASCII lower-casing of one character; every other code point is left
      as it is. */
  function LowerChar(c: char): (r: char)
    ensures !('A' <= r <= 'Z')
    ensures 'A' <= c <= 'Z' ==> 'a' <= r <= 'z' && r as int == c as int + 32
    ensures !('A' <= c <= 'Z') ==> r == c
  {
    if 'A' <= c <= 'Z' then (c as int + 32) as char else c
  }

  /** Two characters that are the same letter in either ASCII case, or the
      same character. */
  predicate SameIgnoringCase(a: char, b: char) {
    || a == b
    || ('A' <= a <= 'Z' && b as int == a as int + 32)
    || ('A' <= b <= 'Z' && a as int == b as int + 32)
  }

  /** The reference meaning of "equal ignoring ASCII case". */
  ghost predicate EqualIgnoringCase(s: string, t: string) {
    |s| == |t| && forall i :: 0 <= i < |s| ==> SameIgnoringCase(s[i], t[i])
  }

  /** `toLowerCase`, restricted to ASCII letters. */
  function Lower(s: string): (r: string)
    ensures |r| == |s|
    ensures forall i :: 0 <= i < |s| ==> r[i] == LowerChar(s[i])
  {
    seq(|s|, i requires 0 <= i < |s| => LowerChar(s[i]))
  }

  /** Lower-casing makes exactly the strings that differ only in ASCII case
      equal. */
  lemma LowerIgnoresCase(s: string, t: string)
    ensures Lower(s) == Lower(t) <==> EqualIgnoringCase(s, t)
  {
    if Lower(s) == Lower(t) {
      forall i | 0 <= i < |s|
        ensures SameIgnoringCase(s[i], t[i])
      {
        assert LowerChar(s[i]) == Lower(s)[i] == Lower(t)[i] == LowerChar(t[i]);
      }
    }
    if EqualIgnoringCase(s, t) {
      assert forall i :: 0 <= i < |s| ==> Lower(s)[i] == LowerChar(s[i]) == LowerChar(t[i]) == Lower(t)[i];
    }
  }

  /** Lower-casing an already lower-cased string changes nothing. */
  lemma LowerIdempotent(s: string)
    ensures Lower(Lower(s)) == Lower(s)
  {
    assert forall i :: 0 <= i < |s| ==> Lower(Lower(s))[i] == LowerChar(Lower(s)[i]) == Lower(s)[i];
  }

  /** `needle` occurs in `hay` starting at index `i`. */
  ghost predicate OccursAt(hay: string, needle: string, i: int) {
    0 <= i && i + |needle| <= |hay| && hay[i..i + |needle|] == needle
  }

  /** The reference meaning of "is a substring of". */
  ghost predicate IsSubstring(needle: string, hay: string) {
    exists i :: OccursAt(hay, needle, i)
  }

  predicate StartsWith(s: string, prefix: string) {
    |prefix| <= |s| && s[..|prefix|] == prefix
  }

  /** JavaScript's `includes`: tries every start position from the left. */
  function Contains(hay: string, needle: string): bool
    decreases |hay|
  {
    if StartsWith(hay, needle) then true
    else if hay == [] then false
    else Contains(hay[1..], needle)
  }

  /** Contains agrees with the reference definition of a substring. */
  lemma {:induction false} ContainsIsSubstring(hay: string, needle: string)
    ensures Contains(hay, needle) <==> IsSubstring(needle, hay)
    decreases |hay|
  {
    assert OccursAt(hay, needle, 0) <==> StartsWith(hay, needle) by {
      if OccursAt(hay, needle, 0) {
        assert hay[0..|needle|] == hay[..|needle|];
      }
    }
    if StartsWith(hay, needle) {
    } else if hay == [] {
      assert forall i :: !OccursAt(hay, needle, i);
    } else {
      var tail := hay[1..];
      ContainsIsSubstring(tail, needle);
      assert forall i :: OccursAt(tail, needle, i) ==> OccursAt(hay, needle, i + 1) by {
        forall i | OccursAt(tail, needle, i) ensures OccursAt(hay, needle, i + 1) {
          assert tail[i..i + |needle|] == hay[i + 1..i + 1 + |needle|];
        }
      }
      assert forall i :: i > 0 && OccursAt(hay, needle, i) ==> OccursAt(tail, needle, i - 1) by {
        forall i | i > 0 && OccursAt(hay, needle, i) ensures OccursAt(tail, needle, i - 1) {
          assert tail[i - 1..i - 1 + |needle|] == hay[i..i + |needle|];
        }
      }
    }
  }

  /** The empty string is contained in every string, as with `includes` of the empty string. */
  lemma ContainsEmpty(hay: string)
    ensures Contains(hay, "")
  {
    assert StartsWith(hay, "");
  }
}
