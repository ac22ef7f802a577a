/**
 The five balloon colours and the scoring rule: a hit on the bonus colour
 is worth one point, a hit on any other colour costs one.
 */
module Palette {

  /** The palette balloons draw their colour from, as hex strings. */
  const COLORS: seq<string> := ["#ff595e", "#ffca3a", "#8ac926", "#1982c4", "#6a4c93"]

  /** The colour whose balloons score a point. */
  const BONUS: string := "#ffca3a"

  /** `toLowerCase` on one character, for the ASCII letters. */
  function LowerChar(c: char): char
  {
    if 'A' <= c <= 'Z' then (c as int + 32) as char else c
  }

  function ToLower(s: string): (t: string)
    ensures |t| == |s|
    ensures forall i :: 0 <= i < |s| ==> t[i] == LowerChar(s[i])
  {
    if |s| == 0 then "" else [LowerChar(s[0])] + ToLower(s[1..])
  }

  /** A non-empty hex string that lower-cases to the bonus colour. */
  predicate IsBonus(hex: string)
  {
    |hex| > 0 && ToLower(hex) == BONUS
  }

  /** The score change for hitting a balloon of colour `hex`. */
  function ScoreDelta(hex: string): (d: int)
    ensures d == 1 || d == -1
    ensures d == 1 <==> IsBonus(hex)
  {
    if IsBonus(hex) then 1 else -1
  }

  lemma LowerCharIdempotent(c: char)
    ensures LowerChar(LowerChar(c)) == LowerChar(c)
  {
  }

  /** Case does not matter to scoring: `#FFCA3A` scores like `#ffca3a`. */
  lemma BonusIgnoresCase(hex: string)
    ensures IsBonus(hex) <==> IsBonus(ToLower(hex))
  {
    var t := ToLower(hex);
    forall i | 0 <= i < |t|
      ensures ToLower(t)[i] == t[i]
    {
      LowerCharIdempotent(hex[i]);
    }
    assert ToLower(t) == t;
  }

  /** A string with no upper-case ASCII letter is its own lower-case form. */
  lemma LowerCaseFixed(s: string)
    requires forall i :: 0 <= i < |s| ==> !('A' <= s[i] <= 'Z')
    ensures ToLower(s) == s
  {
  }

  /** A string whose position `k` holds a digit the bonus colour lacks there is not bonus. */
  lemma NotBonus(hex: string, k: nat)
    requires k < |hex| && k < |BONUS|
    requires '0' <= hex[k] <= '9' && hex[k] != BONUS[k]
    ensures !IsBonus(hex)
  {
    assert ToLower(hex)[k] == hex[k];
  }

  /** Exactly one palette entry, the second, is the bonus colour. */
  lemma ExactlyOneBonusColour()
    ensures forall i :: 0 <= i < |COLORS| ==> (IsBonus(COLORS[i]) <==> i == 1)
  {
    forall i | 0 <= i < |COLORS|
      ensures IsBonus(COLORS[i]) <==> i == 1
    {
      if i == 0 {
        NotBonus(COLORS[0], 3);
      } else if i == 1 {
        LowerCaseFixed(COLORS[1]);
      } else {
        NotBonus(COLORS[i], 1);
      }
    }
  }

}
