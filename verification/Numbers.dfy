/** Printing numbers in base 8 and 10, and reading them back. */
module Numbers {
  import opened Wrappers

  const INT64_LIMIT := 0x8000_0000_0000_0000

  /** Go's int on a 64-bit machine. */
  type Int = n: int | -INT64_LIMIT <= n < INT64_LIMIT

  datatype Base = Octal | Decimal

  function Times(v: nat, base: Base): nat {
    if base.Octal? then v * 8 else v * 10
  }

  /** The number without its last digit, and the last digit. */
  function DivMod(n: nat, base: Base): (r: (nat, nat))
    ensures n == Times(r.0, base) + r.1 && r.1 < Times(1, base)
    ensures n >= Times(1, base) ==> r.0 < n
  {
    if base.Octal? then (n / 8, n % 8) else (n / 10, n % 10)
  }

  function Digits(n: nat, base: Base): string {
    var (q, d) := DivMod(n, base);
    if n < Times(1, base) then [DigitChar(n)] else Digits(q, base) + [DigitChar(d)]
  }

  function DigitChar(d: nat): char
    requires d < 10
  {
    ('0' as int + d) as char
  }

  predicate IsDigit(c: char, base: Base) {
    '0' as int <= c as int < '0' as int + Times(1, base)
  }

  predicate AllDigits(s: string, base: Base) {
    forall k :: 0 <= k < |s| ==> IsDigit(s[k], base)
  }

  predicate IsNumeral(s: string, base: Base) {
    s != "" && AllDigits(s, base)
  }

  function Value(s: string, base: Base): nat
    requires AllDigits(s, base)
  {
    if s == "" then 0 else Times(Value(s[..|s| - 1], base), base) + (s[|s| - 1] as int - '0' as int)
  }

  lemma {:induction false} LastDigit(s: string, c: char, base: Base)
    requires AllDigits(s, base) && IsDigit(c, base)
    ensures AllDigits(s + [c], base)
    ensures Value(s + [c], base) == Times(Value(s, base), base) + (c as int - '0' as int)
  {
    assert (s + [c])[..|s|] == s;
  }

  lemma {:induction false} DigitsReadBack(n: nat, base: Base)
    ensures IsNumeral(Digits(n, base), base) && Value(Digits(n, base), base) == n
  {
    if n < Times(1, base) {
      LastDigit("", DigitChar(n), base);
      assert "" + [DigitChar(n)] == [DigitChar(n)];
    } else {
      var (q, d) := DivMod(n, base);
      DigitsReadBack(q, base);
      LastDigit(Digits(q, base), DigitChar(d), base);
    }
  }

  /** The numeral of a non-negative number, read. */
  function ReadNumeral(s: string, base: Base): Option<nat> {
    if IsNumeral(s, base) then Some(Value(s, base)) else None
  }

  /** The verb %d. */
  function Itoa(n: Int): string {
    var m: int := n;
    if m < 0 then "-" + Digits(-m, Decimal) else Digits(m, Decimal)
  }

  /** strconv.Atoi: a sign is allowed; a number that does not fit is an error. */
  function Atoi(s: string): Option<Int> {
    var unsigned := if s != "" && (s[0] == '-' || s[0] == '+') then s[1..] else s;
    if !IsNumeral(unsigned, Decimal) then None
    else
      var v: int := Value(unsigned, Decimal);
      var v := if s[0] == '-' then -v else v;
      if -INT64_LIMIT <= v < INT64_LIMIT then Some(v) else None
  }

  lemma {:induction false} ItoaReadsBack(n: Int)
    ensures Atoi(Itoa(n)) == Some(n)
  {
    var m: int := n;
    if m < 0 {
      NegativeReadsBack(n);
    } else {
      NaturalReadsBack(m);
    }
  }

  lemma {:induction false} NaturalReadsBack(m: nat)
    requires m < INT64_LIMIT
    ensures Atoi(Digits(m, Decimal)) == Some(m)
  {
    DigitsReadBack(m, Decimal);
    assert IsDigit(Digits(m, Decimal)[0], Decimal);
  }

  lemma {:induction false} NegativeReadsBack(n: Int)
    requires n < 0
    ensures Atoi(Itoa(n)) == Some(n)
  {
    var m: int := n;
    DigitsReadBack(-m, Decimal);
    assert ("-" + Digits(-m, Decimal))[1..] == Digits(-m, Decimal);
  }

  /** Only the numeral of zero starts with a zero. */
  lemma {:induction false} NoLeadingZero(n: nat, base: Base)
    ensures Digits(n, base) != "" && (n > 0 ==> Digits(n, base)[0] != '0')
  {
    if n >= Times(1, base) {
      NoLeadingZero(DivMod(n, base).0, base);
    }
  }

  /** A printed number is its digits, behind a minus sign exactly if it is negative. */
  lemma {:induction false} ItoaForm(n: Int)
    ensures Itoa(n) != "" && (Itoa(n)[0] == '-' <==> n < 0)
    ensures Spells(Itoa(n), n, if n < 0 then Itoa(n)[1..] else Itoa(n))
  {
    var m: int := n;
    var d := Digits(if m < 0 then -m else m, Decimal);
    DigitsReadBack(if m < 0 then -m else m, Decimal);
    assert IsDigit(d[0], Decimal);
    assert m < 0 ==> ("-" + d)[1..] == d;
  }

  /** The text is the digits `d`, behind at most one sign, and their value is `n`. */
  predicate Spells(s: string, n: int, d: string) {
    && IsNumeral(d, Decimal)
    && var v: int := Value(d, Decimal);
       ((s == d || s == "+" + d) && n == v) || (s == "-" + d && n == -v)
  }

  /** What Atoi reads, if the value fits. */
  lemma {:induction false} AtoiExactly(s: string, n: Int)
    ensures Atoi(s) == Some(n) <==> exists d :: Spells(s, n, d)
  {
    var unsigned := if s != "" && (s[0] == '-' || s[0] == '+') then s[1..] else s;
    if Atoi(s) == Some(n) {
      assert s == unsigned || s == [s[0]] + unsigned;
      assert Spells(s, n, unsigned);
    }
    if d :| Spells(s, n, d) {
      assert IsDigit(d[0], Decimal);
      assert unsigned == d;
    }
  }
}
