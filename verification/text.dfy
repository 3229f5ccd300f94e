/**
 * The string primitives the store relies on: JavaScript's `trim`, the
 * `\s` and `\d` classes of its regular expressions, case mapping and the
 * truthiness test on an optional string.
 */
module Text {
  import opened Options

  /** An ECMAScript LineTerminator: the code points `.` in a regular expression does not match. */
  predicate IsLineTerminator(c: char) {
    c == '\n' || c == '\r' || c == '\U{2028}' || c == '\U{2029}'
  }

  /** An ECMAScript WhiteSpace or LineTerminator: what `String.prototype.trim` strips and `\s` matches. */
  predicate IsSpace(c: char) {
    || IsLineTerminator(c)
    || c == '\t' || c == '\U{000B}' || c == '\U{000C}' || c == ' '
    || c == '\U{00A0}' || c == '\U{FEFF}' || c == '\U{1680}'
    || ('\U{2000}' <= c <= '\U{200A}')
    || c == '\U{202F}' || c == '\U{205F}' || c == '\U{3000}'
  }

  /** The regular-expression class `\d`. */
  predicate IsDigit(c: char) {
    '0' <= c <= '9'
  }

  predicate NoLineTerminator(s: string) {
    forall i :: 0 <= i < |s| ==> !IsLineTerminator(s[i])
  }

  function LowerChar(c: char): char {
    if 'A' <= c <= 'Z' then (c as int + 32) as char else c
  }

  function UpperChar(c: char): char {
    if 'a' <= c <= 'z' then (c as int - 32) as char else c
  }

  /** `String.prototype.toLowerCase`, on the ASCII letters. */
  function ToLower(s: string): string {
    seq(|s|, i requires 0 <= i < |s| => LowerChar(s[i]))
  }

  /** `String.prototype.toUpperCase`, on the ASCII letters. */
  function ToUpper(s: string): string {
    seq(|s|, i requires 0 <= i < |s| => UpperChar(s[i]))
  }

  /** A string that lower-casing leaves as it is. */
  predicate IsLower(s: string) {
    forall i :: 0 <= i < |s| ==> LowerChar(s[i]) == s[i]
  }

  /** The first position at or after `i` that does not hold white space (`|s|` if none). */
  function SkipSpaces(s: string, i: nat): (j: nat)
    requires i <= |s|
    ensures i <= j <= |s|
    decreases |s| - i
  {
    if i < |s| && IsSpace(s[i]) then SkipSpaces(s, i + 1) else i
  }

  /** The last position at or before `j` that is not preceded by white space (`0` if none). */
  function SkipSpacesBack(s: string, j: nat): (i: nat)
    requires j <= |s|
    ensures i <= j
  {
    if j > 0 && IsSpace(s[j - 1]) then SkipSpacesBack(s, j - 1) else j
  }

  /** `SkipSpaces` passes over white space only and stops at a non-space or the end. */
  lemma {:induction false} SkipSpacesStops(s: string, i: nat)
    requires i <= |s|
    ensures var j := SkipSpaces(s, i);
      && (forall k :: i <= k < j ==> IsSpace(s[k]))
      && (j == |s| || !IsSpace(s[j]))
    decreases |s| - i
  {
    if i < |s| && IsSpace(s[i]) {
      SkipSpacesStops(s, i + 1);
    }
  }

  /** Conversely, white space from `i` up to a non-space (or the end) at `j` is what `SkipSpaces` passes over. */
  lemma {:induction false} SpaceRunEnds(s: string, i: nat, j: nat)
    requires i <= j <= |s|
    requires forall k :: i <= k < j ==> IsSpace(s[k])
    requires j == |s| || !IsSpace(s[j])
    ensures SkipSpaces(s, i) == j
    decreases j - i
  {
    if i < j {
      SpaceRunEnds(s, i + 1, j);
    }
  }

  /** `SkipSpacesBack` passes over white space only and stops after a non-space or at the start. */
  lemma {:induction false} SkipSpacesBackStops(s: string, j: nat)
    requires j <= |s|
    ensures var i := SkipSpacesBack(s, j);
      && (forall k :: i <= k < j ==> IsSpace(s[k]))
      && (i == 0 || !IsSpace(s[i - 1]))
  {
    if j > 0 && IsSpace(s[j - 1]) {
      SkipSpacesBackStops(s, j - 1);
    }
  }

  /** Conversely, white space from `i` back to a non-space (or the start) before `i` is what `SkipSpacesBack` passes over. */
  lemma {:induction false} SpaceRunBackEnds(s: string, i: nat, j: nat)
    requires i <= j <= |s|
    requires forall k :: i <= k < j ==> IsSpace(s[k])
    requires i == 0 || !IsSpace(s[i - 1])
    ensures SkipSpacesBack(s, j) == i
    decreases j - i
  {
    if i < j {
      SpaceRunBackEnds(s, i, j - 1);
    }
  }

  /** Drops the leading white space. */
  function TrimStart(s: string): string {
    s[SkipSpaces(s, 0)..]
  }

  /** Drops the trailing white space. */
  function TrimEnd(s: string): string {
    s[..SkipSpacesBack(s, |s|)]
  }

  /** `String.prototype.trim`. */
  function Trim(s: string): string {
    TrimEnd(TrimStart(s))
  }

  /** A string with no white space at either end. */
  predicate IsTrimmed(s: string) {
    s == [] || (!IsSpace(s[0]) && !IsSpace(s[|s| - 1]))
  }

  /** JavaScript truthiness of an optional string: present and not empty. */
  predicate Truthy(o: Option<string>) {
    o.Some? && o.value != ""
  }

  /**
   * `Trim` cuts out a middle slice of its argument: everything before it and
   * after it is white space, and the slice itself has none at its ends.
   */
  lemma TrimSlice(s: string) returns (a: nat)
    ensures var r := Trim(s);
      && IsTrimmed(r)
      && a + |r| <= |s| && r == s[a..a + |r|]
      && (forall i :: 0 <= i < a ==> IsSpace(s[i]))
      && (forall i :: a + |r| <= i < |s| ==> IsSpace(s[i]))
  {
    a := SkipSpaces(s, 0);
    SkipSpacesStops(s, 0);
    var t := s[a..];
    var b := SkipSpacesBack(t, |t|);
    SkipSpacesBackStops(t, |t|);
    assert Trim(s) == t[..b] == s[a..a + b];
    forall i | a + b <= i < |s|
      ensures IsSpace(s[i])
    {
      assert s[i] == t[i - a];
    }
  }

  /** A trimmed middle between two runs of white space is what `Trim` returns. */
  lemma TrimUnique(pre: string, r: string, post: string)
    requires IsTrimmed(r)
    requires forall i :: 0 <= i < |pre| ==> IsSpace(pre[i])
    requires forall i :: 0 <= i < |post| ==> IsSpace(post[i])
    ensures Trim(pre + r + post) == r
  {
    var s := pre + r + post;
    if r == [] {
      assert forall k :: 0 <= k < |s| ==> IsSpace(s[k]);
      SpaceRunEnds(s, 0, |s|);
    } else {
      assert s[|pre|] == r[0];
      SpaceRunEnds(s, 0, |pre|);
      var t := s[|pre|..];
      assert t == r + post;
      assert t[|r| - 1] == r[|r| - 1];
      SpaceRunBackEnds(t, |r|, |t|);
      assert t[..|r|] == r;
    }
  }

  /** White space around a string does not change what `Trim` returns. */
  lemma TrimPadding(pre: string, m: string, post: string)
    requires forall i :: 0 <= i < |pre| ==> IsSpace(pre[i])
    requires forall i :: 0 <= i < |post| ==> IsSpace(post[i])
    ensures Trim(pre + m + post) == Trim(m)
  {
    var r := Trim(m);
    var a := TrimSlice(m);
    var left, right := pre + m[..a], m[a + |r|..] + post;
    assert m == m[..a] + r + m[a + |r|..];
    assert pre + m + post == left + r + right;
    TrimUnique(left, r, right);
  }

  /** A string that is already trimmed is left alone by `Trim`. */
  lemma TrimFixesTrimmed(s: string)
    requires IsTrimmed(s)
    ensures Trim(s) == s
  {
  }

  /** Trimming twice is trimming once. */
  lemma TrimIdempotent(s: string)
    ensures Trim(Trim(s)) == Trim(s)
  {
    var _ := TrimSlice(s);
    TrimFixesTrimmed(Trim(s));
  }

  /** Lower-casing maps white space and line terminators to themselves and nothing else to them. */
  lemma LowerKeepsSpaces(c: char)
    ensures IsSpace(LowerChar(c)) == IsSpace(c)
    ensures IsLineTerminator(LowerChar(c)) == IsLineTerminator(c)
  {
  }

  /** What `ToLower` returns, lower-casing leaves alone. */
  lemma ToLowerIsLower(s: string)
    ensures IsLower(ToLower(s))
  {
  }

  /** A slice of a lower-case string is lower-case. */
  lemma LowerSlice(s: string, a: int, b: int)
    requires IsLower(s) && 0 <= a <= b <= |s|
    ensures IsLower(s[a..b])
  {
    assert forall i :: 0 <= i < b - a ==> s[a..b][i] == s[a + i];
  }

  /** Lower-case strings are the fixed points of `ToLower`. */
  lemma LowerFixed(s: string)
    requires IsLower(s)
    ensures ToLower(s) == s
  {
  }

  /** Upper-casing ignores an earlier lower-casing: codes that differ only in case get the same key. */
  lemma UpperOfLower(s: string)
    ensures ToUpper(ToLower(s)) == ToUpper(s)
  {
  }

  /** Upper-casing is idempotent. */
  lemma UpperIdempotent(s: string)
    ensures ToUpper(ToUpper(s)) == ToUpper(s)
  {
  }
}
