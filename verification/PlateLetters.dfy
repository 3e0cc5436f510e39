/** The characters that count on a plate, spelled out. */
module PlateLetters {
  import opened PlateMatcher

  const DIGITS := "0123456789"
  const CAPITALS := "ABCDEFGHIJKLMNOPQRSTUVWXYZ"
  const SMALL := "abcdefghijklmnopqrstuvwxyz"

  predicate IsDigit(c: char) { c in DIGITS }

  predicate IsCapital(c: char) { c in CAPITALS }

  predicate IsSmall(c: char) { c in SMALL }

  lemma DigitRange(c: char)
    ensures IsDigit(c) <==> '0' <= c <= '9'
  {
    if '0' <= c <= '9' { assert c == DIGITS[c as int - '0' as int]; }
  }

  lemma CapitalRange(c: char)
    ensures IsCapital(c) <==> 'A' <= c <= 'Z'
  {
    if 'A' <= c <= 'Z' { assert c == CAPITALS[c as int - 'A' as int]; }
  }

  lemma SmallRange(c: char)
    ensures IsSmall(c) <==> 'a' <= c <= 'z'
  {
    if 'a' <= c <= 'z' { assert c == SMALL[c as int - 'a' as int]; }
  }

  /** A character counts if it is a digit or a letter of either case. */
  lemma AlnumExactly(c: char)
    ensures IsAlnum(c) <==> IsDigit(c) || IsCapital(c) || IsSmall(c)
  {
    hide IsDigit, IsCapital, IsSmall;
    DigitRange(c);
    CapitalRange(c);
    SmallRange(c);
  }

  /** Each small letter becomes the capital of its place, and a capital stays. */
  lemma UpperExactly(k: nat)
    requires k < 26
    ensures Upper(SMALL[k]) == CAPITALS[k] && Upper(CAPITALS[k]) == CAPITALS[k]
  {
    assert SMALL[k] == ('a' as int + k) as char && CAPITALS[k] == ('A' as int + k) as char;
  }

  /** Blanks are the space and the five control characters that end or divide lines. */
  lemma SpaceExactly(c: char)
    ensures IsSpace(c) <==> c in " \t\n\U{000B}\U{000C}\r"
  {
  }
}
