/**
 * Free-text quantities and how two of them merge (src/lib/store.ts:83-110).
 * A quantity that starts with a number, such as "2 kg" or "1,5 l", parses to
 * a value and a lower-cased unit; two quantities with the same unit merge by
 * adding, anything else is kept side by side as "<existing> + <incoming>".
 *
 * Values are exact decimals (`real`), not IEEE doubles.
 */
module Quantity {
  import opened Options
  import opened Text

  /** `ParsedQuantity`: the leading number and the unit after it. */
  datatype Parsed = Parsed(value: real, unit: string)

  /** What a parsed unit looks like: trimmed, lower-case and on one line. */
  predicate IsUnit(u: string) {
    IsTrimmed(u) && IsLower(u) && NoLineTerminator(u)
  }

  predicate IsSeparator(c: char) {
    c == '.' || c == ','
  }

  predicate AllDigits(s: string) {
    forall i :: 0 <= i < |s| ==> IsDigit(s[i])
  }

  function DigitValue(c: char): nat
    requires IsDigit(c)
  {
    c as int - '0' as int
  }

  function DigitChar(d: nat): char
    requires d < 10
  {
    ('0' as int + d) as char
  }

  /** The end of the run of digits that starts at `i`. */
  function DigitsFrom(s: string, i: nat): (j: nat)
    requires i <= |s|
    ensures i <= j <= |s|
    decreases |s| - i
  {
    if i < |s| && IsDigit(s[i]) then DigitsFrom(s, i + 1) else i
  }

  /** The run `DigitsFrom` passes over is all digits, and it stops at a non-digit or the end. */
  lemma {:induction false} DigitsFromStops(s: string, i: nat)
    requires i <= |s|
    ensures var j := DigitsFrom(s, i);
      && AllDigits(s[i..j])
      && (j == |s| || !IsDigit(s[j]))
    decreases |s| - i
  {
    if i < |s| && IsDigit(s[i]) {
      DigitsFromStops(s, i + 1);
      assert forall k :: 0 <= k < DigitsFrom(s, i) - i ==> s[i..DigitsFrom(s, i)][k] == s[i + k];
    }
  }

  /** Conversely, a run of digits from `i` to a non-digit (or the end) at `j` is the run `DigitsFrom` finds. */
  lemma {:induction false} DigitRunEnds(s: string, i: nat, j: nat)
    requires i <= j <= |s|
    requires forall k :: i <= k < j ==> IsDigit(s[k])
    requires j == |s| || !IsDigit(s[j])
    ensures DigitsFrom(s, i) == j
    decreases j - i
  {
    if i < j {
      DigitRunEnds(s, i + 1, j);
    }
  }

  /** The length of the longest run of digits at the start of `s`. */
  function LeadingDigits(s: string): (n: nat)
    ensures n <= |s|
  {
    DigitsFrom(s, 0)
  }

  /** The value of a string of decimal digits. */
  function DigitsValue(s: string): nat
    requires AllDigits(s)
  {
    if s == [] then 0 else 10 * DigitsValue(s[..|s| - 1]) + DigitValue(s[|s| - 1])
  }

  /** `v` divided by ten `k` times. */
  function Shift(v: real, k: nat): (r: real)
    requires v >= 0.0
    ensures r >= 0.0
  {
    if k == 0 then v else Shift(v, k - 1) / 10.0
  }

  /** `parseFloat` of the matched number once its separator is a point: `whole.frac`. */
  function DecimalValue(whole: string, frac: string): (v: real)
    requires AllDigits(whole) && AllDigits(frac)
    ensures v >= 0.0
  {
    DigitsValue(whole) as real + Shift(DigitsValue(frac) as real, |frac|)
  }

  /**
   * `parseQuantity`: matches `^(\d+(?:[.,]\d+)?)\s*(.*)$` against the trimmed
   * text. The number is taken greedily; the match fails when the text does
   * not start with a digit or when the unit part would have to cross a line
   * terminator (no shorter number or space run can avoid it, so backtracking
   * never rescues the greedy attempt).
   */
  function ParseQuantity(q: string): (r: Option<Parsed>)
    ensures r.Some? ==> r.value.value >= 0.0 && IsUnit(r.value.unit)
  {
    var t := Trim(q);
    if LeadingDigits(t) == 0 then None
    else
      var rest := Remainder(t);
      if !NoLineTerminator(rest) then None
      else Some(Parsed(NumberValue(t), Unit(rest)))
  }

  /** The text after the number and the white space that follows it: the `(.*)` group. */
  function Remainder(t: string): string {
    t[SkipSpaces(t, NumberEnd(t))..]
  }

  /** `parseFloat(match[1].replace(",", "."))`: the value of the number token. */
  function NumberValue(t: string): (v: real)
    ensures v >= 0.0
  {
    var whole := LeadingDigits(t);
    var e := NumberEnd(t);
    if e == whole then DecimalValue(t[..whole], "")
    else DecimalValue(t[..whole], t[whole + 1 .. e])
  }

  /** `match[2].toLowerCase().trim()`. */
  function Unit(rest: string): (u: string)
    requires NoLineTerminator(rest)
    ensures IsUnit(u)
  {
    UnitShape(rest);
    Trim(ToLower(rest))
  }

  /** Where the greedy number token `\d+(?:[.,]\d+)?` at the start of `t` ends. */
  function NumberEnd(t: string): (e: nat)
    ensures LeadingDigits(t) <= e <= |t|
    ensures AllDigits(t[..LeadingDigits(t)])
    ensures e == LeadingDigits(t) || (IsSeparator(t[LeadingDigits(t)]) && e >= LeadingDigits(t) + 2 && AllDigits(t[LeadingDigits(t) + 1 .. e]))
    ensures e == |t| || !IsDigit(t[e])
    ensures var w := LeadingDigits(t);
      e > w <==> w + 1 < |t| && IsSeparator(t[w]) && IsDigit(t[w + 1])
  {
    var whole := LeadingDigits(t);
    DigitsFromStops(t, 0);
    if whole < |t| && IsSeparator(t[whole]) && DigitsFrom(t, whole + 1) > whole + 1 then
      DigitsFromStops(t, whole + 1);
      DigitsFrom(t, whole + 1)
    else whole
  }

  /** The number token `whole[sep frac]`: the separator is written only before fractional digits. */
  function NumberToken(whole: string, sep: char, frac: string): string {
    if frac == [] then whole else whole + [sep] + frac
  }

  /**
   * `t` is a match of `^(\d+(?:[.,]\d+)?)\s*(.*)$` with the groups taken
   * greedily: the number token `whole[sep frac]`, then the white space `sp`,
   * then the unit text `rest`, which starts at a non-space and stays on one
   * line. The number cannot be extended: what follows it is not a digit and,
   * when it has no fraction, not a separator followed by a digit.
   */
  predicate Splits(t: string, whole: string, sep: char, frac: string, sp: string, rest: string) {
    && t == NumberToken(whole, sep, frac) + sp + rest
    && whole != [] && AllDigits(whole) && AllDigits(frac) && IsSeparator(sep)
    && (forall i :: 0 <= i < |sp| ==> IsSpace(sp[i]))
    && (rest == [] || !IsSpace(rest[0]))
    && NoLineTerminator(rest)
    && var after := sp + rest;
      && (after == [] || !IsDigit(after[0]))
      && (frac == [] ==> !(|after| >= 2 && IsSeparator(after[0]) && IsDigit(after[1])))
  }

  /**
   * Any greedy match parses: the value is `whole.frac` whichever separator
   * was written, and the unit is the rest lower-cased and trimmed.
   */
  lemma ParseSplit(q: string, whole: string, sep: char, frac: string, sp: string, rest: string)
    requires Splits(Trim(q), whole, sep, frac, sp, rest)
    ensures ParseQuantity(q) == Some(Parsed(DecimalValue(whole, frac), Trim(ToLower(rest))))
  {
    var t := Trim(q);
    var tok := NumberToken(whole, sep, frac);
    SplitNumber(t, whole, sep, frac, sp, rest);
    SpaceRunEnds(t, |tok|, |tok| + |sp|);
    assert t[|tok| + |sp|..] == rest;
  }

  /** The value of the number of a split. */
  lemma SplitNumber(t: string, whole: string, sep: char, frac: string, sp: string, rest: string)
    requires Splits(t, whole, sep, frac, sp, rest)
    ensures LeadingDigits(t) == |whole|
    ensures NumberEnd(t) == |NumberToken(whole, sep, frac)|
    ensures NumberValue(t) == DecimalValue(whole, frac)
  {
    var w := |whole|;
    var tok := NumberToken(whole, sep, frac);
    SplitNumberEnd(t, whole, sep, frac, sp, rest);
    assert t == tok + (sp + rest);
    assert t[..|tok|] == tok;
    assert t[..w] == tok[..w] == whole;
    if frac != [] {
      assert tok[w + 1..] == frac;
      assert t[w + 1 .. |tok|] == t[..|tok|][w + 1..];
    }
  }

  /** Where the number of a split ends: the digit runs stop where the split says. */
  lemma SplitNumberEnd(t: string, whole: string, sep: char, frac: string, sp: string, rest: string)
    requires Splits(t, whole, sep, frac, sp, rest)
    ensures LeadingDigits(t) == |whole|
    ensures NumberEnd(t) == |NumberToken(whole, sep, frac)|
  {
    var tok := NumberToken(whole, sep, frac);
    var w := |whole|;
    var after := sp + rest;
    assert forall k :: 0 <= k < w ==> t[k] == whole[k];
    assert |tok| < |t| ==> t[|tok|] == after[0];
    DigitRunEnds(t, 0, w);
    if frac != [] {
      assert forall k :: w + 1 <= k < |tok| ==> t[k] == frac[k - w - 1];
      DigitRunEnds(t, w + 1, |tok|);
    } else if w + 1 < |t| {
      assert t[w + 1] == after[1];
    }
  }

  /**
   * Conversely, whatever parses is such a match: the pieces the parser
   * found split the trimmed text, and the result is their value and unit.
   */
  lemma ParsedSplits(q: string) returns (whole: string, sep: char, frac: string, sp: string, rest: string)
    requires ParseQuantity(q).Some?
    ensures Splits(Trim(q), whole, sep, frac, sp, rest)
    ensures ParseQuantity(q) == Some(Parsed(DecimalValue(whole, frac), Trim(ToLower(rest))))
  {
    whole, sep, frac, sp, rest := SplitFound(Trim(q));
    ParseSplit(q, whole, sep, frac, sp, rest);
  }

  /** The number, the white space and the remainder the parser finds in trimmed text split it. */
  lemma SplitFound(t: string) returns (whole: string, sep: char, frac: string, sp: string, rest: string)
    requires LeadingDigits(t) > 0 && NoLineTerminator(Remainder(t))
    ensures Splits(t, whole, sep, frac, sp, rest)
  {
    var w := LeadingDigits(t);
    var e := NumberEnd(t);
    var s0 := SkipSpaces(t, e);
    SkipSpacesStops(t, e);
    whole := t[..w];
    if e == w {
      sep, frac := '.', [];
    } else {
      sep, frac := t[w], t[w + 1 .. e];
    }
    sp, rest := t[e..s0], t[s0..];
    TokenFound(t, sep, frac);
    SplitCut(t, e, s0);
  }

  /** The number token the parser finds, rebuilt from its pieces. */
  lemma TokenFound(t: string, sep: char, frac: string)
    requires var w := LeadingDigits(t); var e := NumberEnd(t);
      if e == w then frac == [] else sep == t[w] && frac == t[w + 1 .. e]
    ensures t[..NumberEnd(t)] == NumberToken(t[..LeadingDigits(t)], sep, frac)
  {
    var w := LeadingDigits(t);
    var e := NumberEnd(t);
    if e != w {
      assert t[..e] == t[..w] + [t[w]] + t[w + 1 .. e];
    }
  }

  /** Text cut at two positions is the concatenation of its three pieces. */
  lemma SplitCut(t: string, e: nat, s0: nat)
    requires e <= s0 <= |t|
    ensures t == t[..e] + t[e..s0] + t[s0..]
    ensures t[e..s0] + t[s0..] == t[e..]
  {
  }

  /**
   * `parseQuantity` answers `null` exactly when the trimmed text does not
   * start with a digit, or when a line terminator comes after the first
   * non-space character that follows the number.
   */
  lemma ParseFails(q: string)
    ensures var t := Trim(q);
            var e := NumberEnd(t);
      ParseQuantity(q).None? <==>
        || t == [] || !IsDigit(t[0])
        || exists i, j :: e <= j < i < |t| && !IsSpace(t[j]) && IsLineTerminator(t[i])
  {
    var t := Trim(q);
    assert LeadingDigits(t) == 0 <==> t == [] || !IsDigit(t[0]);
    RemainderCrossesLine(t);
  }

  /** The remainder holds a line terminator exactly when one follows a non-space after the number. */
  lemma RemainderCrossesLine(t: string)
    ensures var e := NumberEnd(t);
      !NoLineTerminator(Remainder(t)) <==>
        exists i, j :: e <= j < i < |t| && !IsSpace(t[j]) && IsLineTerminator(t[i])
  {
    var e := NumberEnd(t);
    var s0 := SkipSpaces(t, e);
    SkipSpacesStops(t, e);
    var rest := Remainder(t);
    if !NoLineTerminator(rest) {
      var m :| 0 <= m < |rest| && IsLineTerminator(rest[m]);
      assert t[s0 + m] == rest[m];
      assert m > 0;
      assert e <= s0 < s0 + m < |t| && !IsSpace(t[s0]) && IsLineTerminator(t[s0 + m]);
    }
    if exists i, j :: e <= j < i < |t| && !IsSpace(t[j]) && IsLineTerminator(t[i]) {
      var i, j :| e <= j < i < |t| && !IsSpace(t[j]) && IsLineTerminator(t[i]);
      assert s0 <= j;
      assert rest[i - s0] == t[i];
    }
  }

  /** The unit the parser keeps from a line-terminator-free remainder has the shape of a unit. */
  lemma UnitShape(rest: string)
    requires NoLineTerminator(rest)
    ensures IsUnit(Trim(ToLower(rest)))
  {
    var low := ToLower(rest);
    var a := TrimSlice(low);
    var u := Trim(low);
    forall i | 0 <= i < |u|
      ensures LowerChar(u[i]) == u[i] && !IsLineTerminator(u[i])
    {
      assert u[i] == LowerChar(rest[a + i]);
      LowerKeepsSpaces(rest[a + i]);
    }
  }

  /** Decimal notation of a natural number: `Number.prototype.toString` on an integer. */
  function NatToString(n: nat): (s: string)
    ensures s != [] && AllDigits(s)
  {
    if n < 10 then [DigitChar(n)] else NatToString(n / 10) + [DigitChar(n % 10)]
  }

  predicate IsInteger(x: real) {
    x == x.Floor as real
  }

  /** The tenths `toFixed(1)` rounds a non-negative value to: the nearest, ties upwards. */
  function Tenths(x: real): nat
    requires x >= 0.0
  {
    (x * 10.0 + 0.5).Floor
  }

  /** `Number.isInteger(x) ? x.toString() : x.toFixed(1)` for a non-negative `x`. */
  function FormatNumber(x: real): (s: string)
    requires x >= 0.0
    ensures s != [] && IsDigit(s[0]) && IsDigit(s[|s| - 1])
  {
    if IsInteger(x) then NatToString(x.Floor)
    else
      var n := Tenths(x);
      NatToString(n / 10) + "." + [DigitChar(n % 10)]
  }

  /** The value the text `FormatNumber(x)` denotes: `x` itself, or `x` rounded to tenths. */
  function Rounded(x: real): real
    requires x >= 0.0
  {
    if IsInteger(x) then x else Tenths(x) as real / 10.0
  }

  /** A sum and its unit written as the merge writes them: the unit after one space, if there is one. */
  function Render(x: real, unit: string): string
    requires x >= 0.0
  {
    if unit == "" then FormatNumber(x) else FormatNumber(x) + " " + unit
  }

  /** The sum of two parsed quantities, written in the unit of the second. */
  function Sum(existing: Parsed, incoming: Parsed): string
    requires existing.value >= 0.0 && incoming.value >= 0.0
  {
    Render(existing.value + incoming.value, incoming.unit)
  }

  /** Both parse and carry the same unit: the case in which two quantities are added. */
  predicate Addable(existing: string, incoming: string) {
    var pe := ParseQuantity(existing);
    var pi := ParseQuantity(incoming);
    pe.Some? && pi.Some? && pe.value.unit == pi.value.unit
  }

  /**
   * `mergeQuantities`. An absent or empty quantity counts as missing: two
   * missing give none, one missing gives the other unchanged. Two addable
   * quantities give their sum in the incoming unit; any other pair is joined
   * with " + " so that neither is lost.
   */
  function MergeQuantities(existing: Option<string>, incoming: Option<string>): (r: Option<string>)
    ensures r.None? <==> !Truthy(existing) && !Truthy(incoming)
    ensures Truthy(existing) && !Truthy(incoming) ==> r == existing
    ensures !Truthy(existing) && Truthy(incoming) ==> r == incoming
  {
    if !Truthy(existing) && !Truthy(incoming) then None
    else if !Truthy(existing) then incoming
    else if !Truthy(incoming) then existing
    else
      var pe := ParseQuantity(existing.value);
      var pi := ParseQuantity(incoming.value);
      if pe.Some? && pi.Some? && pe.value.unit == pi.value.unit then
        Some(Sum(pe.value, pi.value))
      else
        Some(existing.value + " + " + incoming.value)
  }

  /** The digits of a number read back as that number. */
  lemma {:induction false} NatToStringValue(n: nat)
    ensures DigitsValue(NatToString(n)) == n
  {
    if n >= 10 {
      var s := NatToString(n);
      assert s[..|s| - 1] == NatToString(n / 10);
      NatToStringValue(n / 10);
    }
  }

  /** A unit, lower-cased and trimmed again, is the same unit. */
  lemma UnitStable(unit: string)
    requires IsUnit(unit)
    ensures Trim(ToLower(unit)) == unit
  {
    LowerFixed(unit);
    TrimFixesTrimmed(unit);
  }

  /** The part of a written quantity after its number: a space and the unit, or nothing. */
  function UnitSuffix(unit: string): string {
    if unit == "" then "" else " " + unit
  }

  /** The number token `whole` or `whole.frac`, in the form `toFixed` writes it. */
  function NumberText(whole: string, frac: string): string {
    if frac == "" then whole else whole + "." + frac
  }

  /** Where the number token of a written quantity ends. */
  lemma NumberEndOf(whole: string, frac: string, unit: string)
    requires whole != [] && AllDigits(whole) && AllDigits(frac) && IsUnit(unit)
    ensures var s := NumberText(whole, frac) + UnitSuffix(unit);
      && LeadingDigits(s) == |whole|
      && NumberEnd(s) == |NumberText(whole, frac)|
  {
    var num := NumberText(whole, frac);
    var s := num + UnitSuffix(unit);
    assert forall k :: 0 <= k < |whole| ==> s[k] == whole[k];
    assert |whole| < |s| ==> s[|whole|] == (if frac == "" then ' ' else '.');
    DigitRunEnds(s, 0, |whole|);
    if frac != "" {
      assert forall k :: |whole| + 1 <= k < |num| ==> s[k] == frac[k - |whole| - 1];
      assert |num| < |s| ==> s[|num|] == ' ';
      DigitRunEnds(s, |whole| + 1, |num|);
    }
  }

  /** A written quantity starts with a digit and ends with a digit or its unit: it is trimmed. */
  lemma WrittenTrimmed(whole: string, frac: string, unit: string)
    requires whole != [] && AllDigits(whole) && AllDigits(frac) && IsUnit(unit)
    ensures IsTrimmed(NumberText(whole, frac) + UnitSuffix(unit))
  {
    var num := NumberText(whole, frac);
    var s := num + UnitSuffix(unit);
    assert s[0] == whole[0];
    if unit == "" {
      assert s == num;
      assert num[|num| - 1] == if frac == "" then whole[|whole| - 1] else frac[|frac| - 1];
    } else {
      assert s[|s| - 1] == unit[|unit| - 1];
    }
  }

  /** The number of a written quantity has the value of its digits. */
  lemma WrittenValue(whole: string, frac: string, unit: string)
    requires whole != [] && AllDigits(whole) && AllDigits(frac) && IsUnit(unit)
    ensures NumberValue(NumberText(whole, frac) + UnitSuffix(unit)) == DecimalValue(whole, frac)
  {
    var num := NumberText(whole, frac);
    var s := num + UnitSuffix(unit);
    NumberEndOf(whole, frac, unit);
    assert s[..|whole|] == whole;
    if frac != "" {
      assert s[|whole| + 1 .. |num|] == frac;
    }
  }

  /** After any text, the white space and the unit of a unit suffix skip to exactly the unit. */
  lemma SkipToUnit(num: string, unit: string)
    requires IsUnit(unit)
    ensures var s := num + UnitSuffix(unit);
      SkipSpaces(s, |num|) <= |s| && s[SkipSpaces(s, |num|)..] == unit
  {
    var s := num + UnitSuffix(unit);
    if unit != "" {
      assert s[|num|] == ' ' && s[|num| + 1] == unit[0];
      SpaceRunEnds(s, |num|, |num| + 1);
      assert s[|num| + 1..] == unit;
    } else {
      SpaceRunEnds(s, |num|, |num|);
    }
  }

  /** What follows the number of a written quantity is its unit. */
  lemma WrittenRemainder(whole: string, frac: string, unit: string)
    requires whole != [] && AllDigits(whole) && AllDigits(frac) && IsUnit(unit)
    ensures Remainder(NumberText(whole, frac) + UnitSuffix(unit)) == unit
  {
    NumberEndOf(whole, frac, unit);
    SkipToUnit(NumberText(whole, frac), unit);
  }

  /** A number followed by a unit, written as the merge writes it, parses back to that number and unit. */
  lemma ParseWritten(whole: string, frac: string, unit: string)
    requires whole != [] && AllDigits(whole) && AllDigits(frac) && IsUnit(unit)
    ensures ParseQuantity(NumberText(whole, frac) + UnitSuffix(unit)) == Some(Parsed(DecimalValue(whole, frac), unit))
  {
    var s := NumberText(whole, frac) + UnitSuffix(unit);
    WrittenTrimmed(whole, frac, unit);
    TrimFixesTrimmed(s);
    NumberEndOf(whole, frac, unit);
    WrittenRemainder(whole, frac, unit);
    WrittenValue(whole, frac, unit);
    UnitStable(unit);
  }

  /** `FormatNumber` split into the whole and the fractional digits it writes. */
  lemma FormatParts(x: real) returns (whole: string, frac: string)
    requires x >= 0.0
    ensures whole != [] && AllDigits(whole) && AllDigits(frac)
    ensures FormatNumber(x) == NumberText(whole, frac)
    ensures DecimalValue(whole, frac) == Rounded(x)
    ensures |frac| <= 1 && (frac == [] <==> IsInteger(x))
  {
    if IsInteger(x) {
      whole, frac := NatToString(x.Floor), "";
      NatToStringValue(x.Floor);
    } else {
      var n := Tenths(x);
      whole, frac := NatToString(n / 10), [DigitChar(n % 10)];
      NatToStringValue(n / 10);
      assert frac[..0] == [];
      assert DigitsValue(frac) == n % 10;
      assert Shift((n % 10) as real, 1) == (n % 10) as real / 10.0;
    }
  }

  /**
   * Round trip: what the merge writes parses back to the rounded sum and the
   * same unit, so a later merge adds onto it again.
   */
  lemma ParseRender(x: real, unit: string)
    requires x >= 0.0 && IsUnit(unit)
    ensures ParseQuantity(Render(x, unit)) == Some(Parsed(Rounded(x), unit))
  {
    var whole, frac := FormatParts(x);
    RenderSuffix(x, unit);
    ParseWritten(whole, frac, unit);
  }

  /** The merge writes the unit, if any, as a unit suffix. */
  lemma RenderSuffix(x: real, unit: string)
    requires x >= 0.0
    ensures Render(x, unit) == FormatNumber(x) + UnitSuffix(unit)
  {
  }

  /** Two addable quantities merge into their sum. */
  lemma MergeIsSum(existing: string, incoming: string)
    requires existing != "" && incoming != "" && Addable(existing, incoming)
    ensures MergeQuantities(Some(existing), Some(incoming)) == Some(Sum(ParseQuantity(existing).value, ParseQuantity(incoming).value))
  {
  }

  /** Two quantities that cannot be added are both kept, joined by " + ". */
  lemma MergeFallsBack(existing: string, incoming: string)
    requires existing != "" && incoming != "" && !Addable(existing, incoming)
    ensures MergeQuantities(Some(existing), Some(incoming)) == Some(existing + " + " + incoming)
  {
  }

  /** Two addable quantities merge into one that parses to their rounded sum, in the common unit. */
  lemma MergedSumParses(existing: string, incoming: string)
    requires existing != "" && incoming != "" && Addable(existing, incoming)
    ensures var pe := ParseQuantity(existing).value;
            var pi := ParseQuantity(incoming).value;
            var m := MergeQuantities(Some(existing), Some(incoming));
            m.Some? && ParseQuantity(m.value) == Some(Parsed(Rounded(pe.value + pi.value), pi.unit))
  {
    MergeIsSum(existing, incoming);
    var u := ParseQuantity(incoming).value.unit;
    forall x | x >= 0.0
      ensures ParseQuantity(Render(x, u)) == Some(Parsed(Rounded(x), u))
    {
      ParseRender(x, u);
    }
  }

  /** Adding is symmetric: two addable quantities merge to the same text in either order. */
  lemma AddingCommutes(a: string, b: string)
    requires a != "" && b != "" && Addable(a, b)
    ensures MergeQuantities(Some(a), Some(b)) == MergeQuantities(Some(b), Some(a))
  {
  }

  /**
   * A merged sum keeps its unit, so a third quantity in that unit is added
   * onto it as well: repeated additions of one product keep summing.
   */
  lemma MergedStaysAddable(a: string, b: string, c: string)
    requires a != "" && b != "" && c != ""
    requires Addable(a, b) && Addable(b, c)
    ensures var ab := MergeQuantities(Some(a), Some(b));
            ab.Some? && ab.value != "" && Addable(ab.value, c)
  {
    MergeIsSum(a, b);
    var u := ParseQuantity(b).value.unit;
    forall x | x >= 0.0
      ensures ParseQuantity(Render(x, u)) == Some(Parsed(Rounded(x), u))
    {
      ParseRender(x, u);
    }
  }
}
