/** Vocabulary shared by the models: optional values and the few Python string operations they use. */
module Common {

  datatype Option<+T> = None | Some(value: T)

  /** Python's `o or fallback` for an optional string: both a missing and an empty string are falsy. */
  function OrElse(o: Option<string>, fallback: string): string {
    if o.Some? && o.value != "" then o.value else fallback
  }

  /** ASCII lower-casing of one character. */
  function LowerChar(c: char): char {
    if 'A' <= c <= 'Z' then c + 32 as char else c
  }

  /** Python's `str.lower` on ASCII text. */
  function Lower(s: string): (r: string)
    ensures |r| == |s|
    ensures forall i | 0 <= i < |s| :: r[i] == LowerChar(s[i])
  {
    seq(|s|, i requires 0 <= i < |s| => LowerChar(s[i]))
  }

  /** Python's `o or other` for two optional strings. */
  function Either(o: Option<string>, other: Option<string>): Option<string> {
    if o.Some? && o.value != "" then o else other
  }

  /** Python's `str(n)` for an integer. */
  function Decimal(n: int): string
    decreases n < 0, if n < 0 then -n else n
  {
    if n < 0 then "-" + Decimal(-n)
    else if n < 10 then ['0' + n as char]
    else Decimal(n / 10) + Decimal(n % 10)
  }

  /** Python's `needle in text` for strings. */
  predicate Contains(text: string, needle: string) {
    needle <= text || (text != [] && Contains(text[1..], needle))
  }

  /** It means that the text has the needle somewhere in it. */
  lemma {:induction false} ContainsIff(text: string, needle: string)
    ensures Contains(text, needle) <==> exists i :: 0 <= i <= |text| && needle <= text[i..]
  {
    if needle <= text {
      assert needle <= text[0..];
    }
    if text != "" {
      ContainsIff(text[1..], needle);
      if i :| 0 <= i <= |text[1..]| && needle <= text[1..][i..] {
        assert text[1..][i..] == text[i + 1..];
      }
      if i :| 0 < i <= |text| && needle <= text[i..] {
        assert text[1..][i - 1..] == text[i..];
      }
      assert text[0..] == text;
    }
  }

  /** The same letter in whatever case, or the same character. */
  predicate SameLetter(c: char, d: char) {
    || c == d
    || ('A' <= c <= 'Z' && d as int == c as int + 32)
    || ('A' <= d <= 'Z' && c as int == d as int + 32)
  }

  /** Texts have the same lower-case form exactly when they agree letter by letter but for case. */
  lemma LowerIff(a: string, b: string)
    ensures Lower(a) == Lower(b) <==> |a| == |b| && forall i | 0 <= i < |a| :: SameLetter(a[i], b[i])
  {
    if Lower(a) == Lower(b) {
      assert |a| == |Lower(a)| == |b|;
      forall i | 0 <= i < |a| ensures SameLetter(a[i], b[i]) {
        assert Lower(a)[i] == Lower(b)[i];
      }
    }
  }

  /** The number a text of digits, with a sign before it or not, stands for. */
  function Reading(s: string): int {
    if s != "" && s[0] == '-' then -Digits(s[1..]) else Digits(s)
  }

  function Digits(s: string): int {
    if s == "" then 0 else 10 * Digits(s[..|s| - 1]) + (s[|s| - 1] as int - '0' as int)
  }

  lemma {:induction false} DigitsOfDecimal(n: nat)
    ensures Digits(Decimal(n)) == n && Decimal(n) != "" && forall c | c in Decimal(n) :: '0' <= c <= '9'
  {
    if n >= 10 {
      DigitsOfDecimal(n / 10);
      DigitsOfDecimal(n % 10);
      var s, last := Decimal(n), Decimal(n % 10);
      assert |last| == 1 && s == Decimal(n / 10) + last;
      assert s[..|s| - 1] == Decimal(n / 10) && s[|s| - 1] == last[0];
      assert last[..0] == [] && Digits(last) == last[0] as int - '0' as int;
    } else {
      assert Decimal(n)[..0] == [];
    }
  }

  /** Printing a number and reading it gives the number back. */
  lemma DecimalRoundTrip(n: int)
    ensures Reading(Decimal(n)) == n
  {
    DigitsOfDecimal(if n < 0 then -n else n);
    if n < 0 {
      assert Decimal(n)[1..] == Decimal(-n);
    } else {
      assert Decimal(n)[0] in Decimal(n);
    }
  }
}
