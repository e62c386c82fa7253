/** Decimal printing and parsing of the file counter (strconv.Itoa, strconv.Atoi) and the
    `filecount.txt` round trip across a clean restart. */
module Decimal {

  datatype Option<+T> = None | Some(value: T)

  predicate IsDigit(c: char) {
    '0' <= c <= '9'
  }

  function Digit(d: nat): (c: char)
    requires d < 10
    ensures IsDigit(c) && DigitValue(c) == d
  {
    ('0' as int + d) as char
  }

  function DigitValue(c: char): (d: nat)
    requires IsDigit(c)
    ensures d < 10
  {
    c as int - '0' as int
  }

  function Digits(n: nat): (s: string)
    ensures s != "" && forall c <- s :: IsDigit(c)
  {
    if n < 10 then [Digit(n)] else Digits(n / 10) + [Digit(n % 10)]
  }

  function Itoa(n: int): string {
    if n < 0 then "-" + Digits(-n) else Digits(n)
  }

  function ParseDigits(s: string): Option<nat> {
    if s == "" || !IsDigit(s[|s| - 1]) then None
    else if |s| == 1 then Some(DigitValue(s[0]))
    else match ParseDigits(s[..|s| - 1])
      case None => None
      case Some(n) => Some(10 * n + DigitValue(s[|s| - 1]))
  }

  /** An optional sign, then digits; anything else is an error. */
  function Atoi(s: string): Option<int> {
    if s == "" then None
    else if s[0] == '-' then
      match ParseDigits(s[1..])
      case None => None
      case Some(n) => Some(-(n as int))
    else
      match ParseDigits(if s[0] == '+' then s[1..] else s)
      case None => None
      case Some(n) => Some(n as int)
  }

  function TrimSuffix(s: string, suffix: string): string {
    if |suffix| <= |s| && s[|s| - |suffix|..] == suffix then s[..|s| - |suffix|] else s
  }

  /** What main does with the text of filecount.txt. */
  function LoadCounter(text: string): Option<int> {
    Atoi(TrimSuffix(text, "\n"))
  }

  lemma {:induction false} ParsePrinted(n: nat)
    ensures ParseDigits(Digits(n)) == Some(n)
  {
    if n >= 10 {
      ParsePrinted(n / 10);
      var s := Digits(n);
      assert s[..|s| - 1] == Digits(n / 10);
    }
  }

  lemma AtoiInvertsItoa(n: int)
    ensures Atoi(Itoa(n)) == Some(n)
  {
    var s := Itoa(n);
    if n < 0 {
      ParsePrinted(-n);
      assert s[1..] == Digits(-n);
    } else {
      ParsePrinted(n);
      assert s[0] in s;
    }
  }

  lemma ItoaInjective(m: int, n: int)
    ensures Itoa(m) == Itoa(n) <==> m == n
  {
    AtoiInvertsItoa(m);
    AtoiInvertsItoa(n);
  }

  /** The counter written by the finalizer (no newline) and the counter written by the
      initialization script (with newline) are both read back exactly, whatever number it is. */
  lemma CounterSurvivesRestart(n: int)
    ensures LoadCounter(Itoa(n)) == Some(n)
    ensures LoadCounter(Itoa(n) + "\n") == Some(n)
  {
    AtoiInvertsItoa(n);
    var s := Itoa(n);
    var digits := Digits(if n < 0 then -n else n);
    assert s[|s| - 1] == digits[|digits| - 1] && digits[|digits| - 1] in digits;
    assert s[|s| - 1..] == [s[|s| - 1]];
    assert (s + "\n")[|s|..] == "\n";
    assert (s + "\n")[..|s|] == s;
  }

  // ----- What a text of digits means

  predicate AllDigits(s: string) {
    s != "" && forall c <- s :: '0' <= c <= '9'
  }

  lemma {:induction false} ParseExactly(s: string)
    ensures ParseDigits(s).Some? <==> AllDigits(s)
    decreases |s|
  {
    if |s| > 1 {
      var front, last := s[..|s| - 1], s[|s| - 1];
      ParseExactly(front);
      assert s == front + [last];
      assert last in s && forall c <- front :: c in s;
      assert AllDigits(s) <==> AllDigits(front) && '0' <= last <= '9';
    } else if s != "" {
      assert s == [s[0]] && s[0] in s;
    }
  }

  /** Exactly which texts are numbers: a sign at most, and then at least one digit and nothing else. */
  lemma AtoiExactly(s: string)
    ensures Atoi(s).Some? <==> AllDigits(s) || (s != "" && s[0] in {'+', '-'} && AllDigits(s[1..]))
  {
    ParseExactly(s);
    if s != "" {
      ParseExactly(s[1..]);
      assert s[0] in s;
    }
  }

  /** And which: a digit stands for its distance from '0', and one more digit for ten times the number and
      that distance, added or, after a minus sign, taken away. */
  lemma AtoiPlaceValue(s: string, c: char)
    requires '0' <= c <= '9'
    ensures Atoi([c]) == Some(c as int - '0' as int)
    ensures Atoi(['-', c]) == Some('0' as int - c as int)
    ensures Atoi(s).Some? && '-' !in s ==> Atoi(s + [c]) == Some(10 * Atoi(s).value + (c as int - '0' as int))
    ensures Atoi(s).Some? && '-' in s ==> Atoi(s + [c]) == Some(10 * Atoi(s).value - (c as int - '0' as int))
  {
    var t := s + [c];
    if Atoi(s).Some? {
      AtoiExactly(s);
      assert s == [s[0]] + s[1..];
      assert '-' in s <==> s[0] == '-' by {
        assert forall c :: c in s <==> c == s[0] || c in s[1..];
      }
      assert t[0] == s[0] && t[..|t| - 1] == s && t[1..] == s[1..] + [c];
      assert t[1..][..|t[1..]| - 1] == s[1..];
    }
    assert ['-', c][1..] == [c];
  }

  /** The text the initialization script writes. */
  lemma FirstCounter()
    ensures LoadCounter("1\n") == Some(1)
  {
    assert "1\n"[1..] == "\n" && "1\n"[..1] == "1";
  }
}
