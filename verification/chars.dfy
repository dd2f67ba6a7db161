/** Character classes of Go's RE2 regular expressions, maximal runs of a
    class, and the decimal conversions of Go's `strconv` package
    (`Atoi`, `Itoa`) for a 64-bit `int`. */
module Chars {
  import opened Wrappers

  /** The character classes the directive grammars use. */
  datatype Class =
    | Space     // `\s`, which RE2 defines as [\t\n\f\r ]
    | NonSpace  // `\S`
    | Word      // `\w`, which RE2 defines as [0-9A-Za-z_]
    | Digit     // `\d`, which RE2 defines as [0-9]
    | IPChar    // the bracket class [0-9\.\*]

  predicate IsSpace(c: char) {
    c == ' ' || c == '\t' || c == '\n' || c == '\r' || c == '\U{000C}'
  }

  predicate IsDigit(c: char) {
    '0' <= c <= '9'
  }

  predicate IsWord(c: char) {
    IsDigit(c) || 'a' <= c <= 'z' || 'A' <= c <= 'Z' || c == '_'
  }

  predicate In(cls: Class, c: char) {
    match cls
    case Space => IsSpace(c)
    case NonSpace => !IsSpace(c)
    case Word => IsWord(c)
    case Digit => IsDigit(c)
    case IPChar => IsDigit(c) || c == '.' || c == '*'
  }

  /** Every character of `s[i..j]` belongs to `cls` (and the slice ends inside `s`). */
  predicate AllIn(s: string, i: nat, j: nat, cls: Class) {
    j <= |s| && forall k :: i <= k < j ==> In(cls, s[k])
  }

  /** The end of the maximal run of `cls` characters starting at `i`:
      what a greedy `cls*` consumes from position `i`. */
  function Skip(s: string, i: nat, cls: Class): (j: nat)
    requires i <= |s|
    ensures i <= j <= |s|
    ensures AllIn(s, i, j, cls)
    ensures j == |s| || !In(cls, s[j])
    decreases |s| - i
  {
    if i < |s| && In(cls, s[i]) then Skip(s, i + 1, cls) else i
  }

  /** A run that cannot be extended is the one `Skip` finds. */
  lemma SkipIs(s: string, i: nat, j: nat, cls: Class)
    requires i <= j <= |s|
    requires AllIn(s, i, j, cls)
    requires j == |s| || !In(cls, s[j])
    ensures Skip(s, i, cls) == j
  {
  }

  // ---------------------------------------------------------------------
  // Decimal conversions (strconv.Atoi / strconv.Itoa on a 64-bit int)
  // ---------------------------------------------------------------------

  const MaxInt: int := 0x7FFF_FFFF_FFFF_FFFF
  const MinInt: int := -0x8000_0000_0000_0000

  predicate IsDigits(s: string) {
    |s| > 0 && AllIn(s, 0, |s|, Digit)
  }

  function DigitValue(c: char): nat
    requires IsDigit(c)
  {
    (c as int) - ('0' as int)
  }

  function DigitChar(d: nat): (c: char)
    requires d < 10
    ensures IsDigit(c) && DigitValue(c) == d
  {
    ((d + '0' as int) as char)
  }

  /** The value of a string of decimal digits, most significant first. */
  function DigitsValue(s: string): nat
    requires AllIn(s, 0, |s|, Digit)
  {
    if |s| == 0 then 0
    else
      assert AllIn(s[..|s| - 1], 0, |s| - 1, Digit);
      DigitsValue(s[..|s| - 1]) * 10 + DigitValue(s[|s| - 1])
  }

  /** The shortest decimal spelling of `n`. */
  function NatDigits(n: nat): (s: string)
    ensures IsDigits(s)
    ensures |s| > 1 ==> s[0] != '0'
    decreases n
  {
    if n < 10 then [DigitChar(n)] else NatDigits(n / 10) + [DigitChar(n % 10)]
  }

  /** strconv.Itoa: decimal digits, with a leading '-' for negative values. */
  function Itoa(n: int): (s: string)
    ensures |s| > 0
    ensures n >= 0 <==> s[0] != '-'
  {
    if n < 0 then "-" + NatDigits(-n) else NatDigits(n)
  }

  const SyntaxError: string := "invalid syntax"
  const RangeError: string := "value out of range"

  /** strconv.Atoi for a 64-bit `int`: an optional sign, then one or more
      decimal digits, whose value must fit in 64 bits. */
  function Atoi(s: string): (r: Result<int, string>)
    ensures r.Success? ==> MinInt <= r.value <= MaxInt
    ensures IsDigits(s) ==> (r.Success? <==> DigitsValue(s) <= MaxInt)
    ensures IsDigits(s) && r.Success? ==> r.value == DigitsValue(s)
    ensures |s| == 0 ==> r == Failure(SyntaxError)
  {
    if |s| == 0 then Failure(SyntaxError)
    else
      var body := if s[0] == '-' || s[0] == '+' then s[1..] else s;
      if !IsDigits(body) then Failure(SyntaxError)
      else
        var v: int := if s[0] == '-' then 0 - (DigitsValue(body) as int) else DigitsValue(body) as int;
        if MinInt <= v <= MaxInt then Success(v) else Failure(RangeError)
  }

  lemma {:induction false} DigitsValueOfNatDigits(n: nat)
    ensures DigitsValue(NatDigits(n)) == n
    decreases n
  {
    if n >= 10 {
      var s := NatDigits(n);
      assert s[..|s| - 1] == NatDigits(n / 10);
      DigitsValueOfNatDigits(n / 10);
    }
  }

  /** Itoa and Atoi are inverse on every 64-bit value. */
  lemma AtoiOfItoa(n: int)
    requires MinInt <= n <= MaxInt
    ensures Atoi(Itoa(n)) == Success(n)
  {
    if n < 0 {
      DigitsValueOfNatDigits(-n);
      assert Itoa(n)[1..] == NatDigits(-n);
    } else {
      DigitsValueOfNatDigits(n);
    }
  }
}
