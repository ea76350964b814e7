/** The `NaturalNumber` pattern `/^[1-9][0-9]*$/` (src/constants/index.ts:12)
    that the duration field is validated against. The pattern is written as a
    small regular expression and given the meaning of an anchored match, so
    that what it accepts can be proved rather than assumed. */
module Constants {

  /** The regular expressions the pattern is built from. */
  datatype Regex = CharRange(lo: char, hi: char) | Concat(left: Regex, right: Regex) | Star(body: Regex)

  /** `re` matches the whole of `s` (the pattern is anchored by `^` and `$`). */
  ghost predicate Matches(re: Regex, s: string)
    decreases re, |s|
  {
    match re
    case CharRange(lo, hi) => |s| == 1 && lo <= s[0] <= hi
    case Concat(a, b) => exists k :: 0 <= k <= |s| && Matches(a, s[..k]) && Matches(b, s[k..])
    case Star(r) => s == [] || exists k :: 1 <= k <= |s| && Matches(r, s[..k]) && Matches(Star(r), s[k..])
  }

  const Digit: Regex := CharRange('0', '9')

  /** `/^[1-9][0-9]*$/` */
  const NaturalNumber: Regex := Concat(CharRange('1', '9'), Star(Digit))

  predicate IsDigit(c: char) {
    '0' <= c <= '9'
  }

  /** The pattern's meaning stated directly: a non-empty string of digits whose first digit is not 0. */
  predicate IsNaturalNumber(s: string) {
    |s| > 0 && '1' <= s[0] <= '9' && forall i :: 0 <= i < |s| ==> IsDigit(s[i])
  }

  /** `[0-9]*` matches exactly the strings made of digits. */
  lemma {:induction false} DigitsMatch(s: string)
    ensures Matches(Star(Digit), s) <==> forall i :: 0 <= i < |s| ==> IsDigit(s[i])
    decreases |s|
  {
    if s != [] {
      DigitsMatch(s[1..]);
      if Matches(Star(Digit), s) {
        var k :| 1 <= k <= |s| && Matches(Digit, s[..k]) && Matches(Star(Digit), s[k..]);
        assert k == 1;
        forall i | 0 <= i < |s| ensures IsDigit(s[i]) {
          if i > 0 {
            assert s[1..][i - 1] == s[i];
          } else {
            assert s[..1][0] == s[0];
          }
        }
      }
      if forall i :: 0 <= i < |s| ==> IsDigit(s[i]) {
        assert forall i :: 0 <= i < |s[1..]| ==> s[1..][i] == s[i + 1];
        assert Matches(Digit, s[..1]);
        assert Matches(Star(Digit), s[1..]);
      }
    }
  }

  /** The pattern accepts exactly the natural numbers written without leading zeros. */
  lemma NaturalNumberMeaning(s: string)
    ensures Matches(NaturalNumber, s) <==> IsNaturalNumber(s)
  {
    if Matches(NaturalNumber, s) {
      var k :| 0 <= k <= |s| && Matches(CharRange('1', '9'), s[..k]) && Matches(Star(Digit), s[k..]);
      assert k == 1;
      DigitsMatch(s[1..]);
      assert s[..1][0] == s[0];
      forall i | 0 <= i < |s| ensures IsDigit(s[i]) {
        if i > 0 {
          assert s[1..][i - 1] == s[i];
        }
      }
    }
    if IsNaturalNumber(s) {
      DigitsMatch(s[1..]);
      assert forall i :: 0 <= i < |s[1..]| ==> s[1..][i] == s[i + 1];
      assert Matches(CharRange('1', '9'), s[..1]);
    }
  }

  /** The empty string, "0" and anything with a leading zero are rejected;
      every single digit from 1 to 9 is accepted. */
  lemma NaturalNumberEdges(s: string, c: char)
    ensures !Matches(NaturalNumber, "") && !Matches(NaturalNumber, "0")
    ensures |s| > 0 && s[0] == '0' ==> !Matches(NaturalNumber, s)
    ensures '1' <= c <= '9' ==> Matches(NaturalNumber, [c])
  {
    NaturalNumberMeaning("");
    NaturalNumberMeaning("0");
    NaturalNumberMeaning(s);
    NaturalNumberMeaning([c]);
  }

  /** Typing another digit after an accepted string keeps it accepted. */
  lemma NaturalNumberExtends(s: string, c: char)
    requires Matches(NaturalNumber, s) && IsDigit(c)
    ensures Matches(NaturalNumber, s + [c])
  {
    NaturalNumberMeaning(s);
    NaturalNumberMeaning(s + [c]);
  }

  function Pow10(n: nat): (p: nat)
    ensures p >= 1
  {
    if n == 0 then 1 else 10 * Pow10(n - 1)
  }

  /** The value a string of decimal digits denotes, exactly. JavaScript's
      `Number(s)` gives this value only while it stays below 2^53; larger
      values are rounded to a double (see `NaturalNumberExactAsDouble`). */
  function DecimalValue(s: string): (v: nat)
    requires forall i :: 0 <= i < |s| ==> IsDigit(s[i])
    ensures v < Pow10(|s|)
  {
    if s == [] then 0
    else
      assert IsDigit(s[|s| - 1]);
      DecimalValue(s[..|s| - 1]) * 10 + (s[|s| - 1] as int - '0' as int)
  }

  lemma {:induction false} Pow10Monotone(m: nat, n: nat)
    requires m <= n
    ensures Pow10(m) <= Pow10(n)
    decreases n
  {
    if m < n {
      Pow10Monotone(m, n - 1);
    }
  }

  /** Accepted strings of at most 15 digits denote numbers below 2^53, which a
      JavaScript number holds exactly. */
  lemma NaturalNumberExactAsDouble(s: string)
    requires IsNaturalNumber(s) && |s| <= 15
    ensures DecimalValue(s) < 0x20_0000_0000_0000
  {
    Pow10Monotone(|s|, 15);
    assert Pow10(15) == 1_000_000_000_000_000;
  }

  /** An accepted string denotes a number of at least 1, and at least its first digit. */
  lemma {:induction false} NaturalNumberValue(s: string)
    requires IsNaturalNumber(s)
    ensures DecimalValue(s) >= s[0] as int - '0' as int >= 1
    decreases |s|
  {
    if |s| > 1 {
      NaturalNumberValue(s[..|s| - 1]);
    }
  }
}
