/**
 * List codes and the backend keys derived from them (src/lib/store.ts:13-30).
 * A code is six symbols drawn from a 32-symbol alphabet; the keys under
 * which a list's items and its history are stored upper-case the code, so
 * every lookup ignores the case the user typed.
 */
module ListCodes {
  import opened Text

  /** Upper-case letters and digits without the look-alikes 0, O, 1 and I (and no lower-case l). */
  const CodeChars: string := "ABCDEFGHJKLMNPQRSTUVWXYZ23456789"
  const CodeLength: nat := 6

  const ListPrefix: string := "spesa:lista:"
  const HistoryPrefix: string := "spesa:storico:"
  /** The key of the single list that existed before lists had codes. */
  const LegacyKey: string := "spesa:lista"

  /** A value `Math.random()` can return. */
  predicate IsDraw(d: real) {
    0.0 <= d < 1.0
  }

  /** One draw per position of the code. */
  predicate ValidDraws(draws: seq<real>) {
    |draws| == CodeLength && forall i :: 0 <= i < |draws| ==> IsDraw(draws[i])
  }

  /** A well-formed list code: six symbols of the alphabet. */
  predicate IsListCode(code: string) {
    |code| == CodeLength && forall i :: 0 <= i < |code| ==> code[i] in CodeChars
  }

  /** `Math.floor(d * CODE_CHARS.length)`: the alphabet position a draw selects. */
  function Pick(d: real): (k: nat)
    requires IsDraw(d)
    ensures k < |CodeChars|
  {
    (d * |CodeChars| as real).Floor
  }

  /** `code` is the code the draws select, position by position. */
  predicate Spells(draws: seq<real>, code: string)
    requires ValidDraws(draws)
  {
    |code| == CodeLength && forall i :: 0 <= i < CodeLength ==> code[i] == CodeChars[Pick(draws[i])]
  }

  /** `generateListCode`, with the six random draws supplied by the caller. */
  method GenerateListCode(draws: seq<real>) returns (code: string)
    requires ValidDraws(draws)
    ensures IsListCode(code)
    ensures Spells(draws, code)
  {
    code := "";
    var i := 0;
    while i < CodeLength
      invariant 0 <= i <= CodeLength
      invariant |code| == i
      invariant forall j :: 0 <= j < i ==> code[j] == CodeChars[Pick(draws[j])]
    {
      code := code + [CodeChars[Pick(draws[i])]];
      i := i + 1;
    }
  }

  /** The position of a symbol in the alphabet. */
  ghost function IndexOf(c: char): (k: nat)
    requires c in CodeChars
    ensures k < |CodeChars| && CodeChars[k] == c
  {
    var k :| 0 <= k < |CodeChars| && CodeChars[k] == c; k
  }

  /** Every well-formed code is the result of some six draws: the generator misses no code. */
  lemma EveryCodeReachable(code: string)
    requires IsListCode(code)
    ensures exists draws :: ValidDraws(draws) && Spells(draws, code)
  {
    var draws := seq(CodeLength, i requires 0 <= i < CodeLength => IndexOf(code[i]) as real / |CodeChars| as real);
    forall i | 0 <= i < CodeLength
      ensures IsDraw(draws[i]) && CodeChars[Pick(draws[i])] == code[i]
    {
      // IndexOf's contract shows that the symbol is one of the alphabet's upper-case characters.
      var k := IndexOf(code[i]);
      assert draws[i] * |CodeChars| as real == k as real;
    }
    assert ValidDraws(draws) && Spells(draws, code);
  }

  /** The alphabet has 32 symbols and none of the look-alikes 0, O, 1, I and l. */
  lemma NoLookAlikes()
    ensures |CodeChars| == 32
    ensures forall i :: 0 <= i < |CodeChars| ==> CodeChars[i] !in "0O1Il"
  {
  }

  /**
   * The position of a symbol in the alphabet, by arithmetic on its code:
   * letters from 'A' with 'I' and 'O' skipped, then the digits from '2'.
   */
  function Position(c: char): int {
    if 'A' <= c <= 'H' then c as int - 'A' as int
    else if 'J' <= c <= 'N' then c as int - 'A' as int - 1
    else if 'P' <= c <= 'Z' then c as int - 'A' as int - 2
    else c as int - '2' as int + 24
  }

  /** Each symbol of the alphabet sits at its computed position. */
  lemma PositionOfSymbol()
    ensures forall i :: 0 <= i < |CodeChars| ==> Position(CodeChars[i]) == i
  {
  }

  /** No symbol occurs twice, so each of the 32 is drawn with the same chance. */
  lemma AlphabetDistinct()
    ensures forall i, j :: 0 <= i < j < |CodeChars| ==> CodeChars[i] != CodeChars[j]
  {
    PositionOfSymbol();
  }

  /** `listKey`. */
  function ListKey(code: string): string {
    ListPrefix + ToUpper(code)
  }

  /** `historyKey`. */
  function HistoryKey(code: string): string {
    HistoryPrefix + ToUpper(code)
  }

  /** Two codes name the same list exactly when they agree up to case. */
  lemma ListKeyIgnoresCase(a: string, b: string)
    ensures ListKey(a) == ListKey(b) <==> ToUpper(a) == ToUpper(b)
  {
    if ListKey(a) == ListKey(b) {
      assert ToUpper(a) == ListKey(a)[|ListPrefix|..];
    }
  }

  /** Two codes name the same history exactly when they agree up to case. */
  lemma HistoryKeyIgnoresCase(a: string, b: string)
    ensures HistoryKey(a) == HistoryKey(b) <==> ToUpper(a) == ToUpper(b)
  {
    if HistoryKey(a) == HistoryKey(b) {
      assert ToUpper(a) == HistoryKey(a)[|HistoryPrefix|..];
    }
  }

  /** Item keys, history keys and the legacy key never collide, so one backend map can hold all three. */
  lemma KeysDisjoint(a: string, b: string)
    ensures ListKey(a) != HistoryKey(b)
    ensures ListKey(a) != LegacyKey
    ensures HistoryKey(b) != LegacyKey
  {
    assert ListKey(a)[6] == 'l' && HistoryKey(b)[6] == 's';
    assert |ListKey(a)| > |LegacyKey|;
    assert HistoryKey(b)[7] == 't' && LegacyKey[7] == 'i';
  }

  /** No symbol of the alphabet is a lower-case letter. */
  lemma AlphabetIsUpper()
    ensures forall k :: 0 <= k < |CodeChars| ==> UpperChar(CodeChars[k]) == CodeChars[k]
  {
  }

  /**
   * A well-formed code is its own upper-case form, so its key holds it
   * verbatim, and the code typed in lower case finds the same list.
   */
  lemma CodeKeys(code: string)
    requires IsListCode(code)
    ensures ToUpper(code) == code
    ensures ListKey(code) == ListPrefix + code && HistoryKey(code) == HistoryPrefix + code
    ensures ListKey(ToLower(code)) == ListKey(code) && HistoryKey(ToLower(code)) == HistoryKey(code)
  {
    AlphabetIsUpper();
    forall i | 0 <= i < |code|
      ensures UpperChar(code[i]) == code[i]
    {
      var k := IndexOf(code[i]);
    }
    UpperOfLower(code);
  }
}
