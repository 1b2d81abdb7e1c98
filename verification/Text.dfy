/** Characters, decimal numerals and the numeric conversion `std::stoi` of the C++ library. */
module Text {
  import opened Wrappers

  const INT_MAX := 0x7fff_ffff
  const INT_MIN := -0x8000_0000

  predicate IsDigit(c: char) {
    '0' <= c <= '9'
  }

  /** White space of the "C" locale. */
  predicate IsSpace(c: char) {
    c == ' ' || 9 <= c as int <= 13
  }

  /** The six characters of white space, one by one. */
  predicate White(c: char) {
    c == ' ' || c == '\t' || c == '\n' || c == '\U{0B}' || c == '\U{0C}' || c == '\r'
  }

  predicate Blank(s: string) {
    forall i :: 0 <= i < |s| ==> White(s[i])
  }

  lemma SpaceIsWhite(c: char)
    ensures IsSpace(c) <==> White(c)
  {
  }

  predicate AllDigits(s: string) {
    forall i :: 0 <= i < |s| ==> IsDigit(s[i])
  }

  function DigitValue(c: char): nat
    requires IsDigit(c)
  {
    c as int - '0' as int
  }

  function DigitChar(d: nat): (c: char)
    requires d < 10
    ensures IsDigit(c) && DigitValue(c) == d
  {
    ('0' as int + d) as char
  }

  /** The number a string of digits denotes. */
  function Value(s: string): nat
    requires AllDigits(s)
  {
    if s == "" then 0 else Value(s[..|s| - 1]) * 10 + DigitValue(s[|s| - 1])
  }

  /** The decimal numeral of n. */
  function Decimal(n: nat): (s: string)
    ensures s != "" && AllDigits(s) && Value(s) == n
  {
    if n < 10 then
      var s := [DigitChar(n)];
      assert s[..0] == "";
      s
    else
      var front := Decimal(n / 10);
      var s := front + [DigitChar(n % 10)];
      assert s[..|s| - 1] == front;
      s
  }

  /** The numeral of n, padded with zeros to exactly `width` digits. */
  function Padded(n: nat, width: nat): (s: string)
    requires n < Pow10(width)
    ensures |s| == width && AllDigits(s) && Value(s) == n
    decreases width
  {
    if width == 0 then ""
    else
      var front := Padded(n / 10, width - 1);
      var s := front + [DigitChar(n % 10)];
      assert s[..|s| - 1] == front;
      s
  }

  function Pow10(k: nat): (p: nat)
    ensures p >= 1
  {
    if k == 0 then 1 else 10 * Pow10(k - 1)
  }

  lemma {:induction false} ValueBound(s: string)
    requires AllDigits(s)
    ensures Value(s) < Pow10(|s|)
  {
    if s != "" {
      ValueBound(s[..|s| - 1]);
    }
  }

  /** How many characters at the front of s satisfy p. */
  function Span(p: char -> bool, s: string): (n: nat)
    ensures n <= |s| && (forall i :: 0 <= i < n ==> p(s[i])) && (n < |s| ==> !p(s[n]))
  {
    if s == "" || !p(s[0]) then 0 else 1 + Span(p, s[1..])
  }

  datatype StoiError = InvalidArgument | OutOfRange

  /** The sign at the front of t. */
  function Sign(t: string): (r: string)
    ensures |r| <= |t|
  {
    if t != "" && (t[0] == '-' || t[0] == '+') then [t[0]] else ""
  }

  /** The number that a sign and digits stand for. */
  function Signed(sign: string, digits: string): int
    requires AllDigits(digits)
  {
    if sign == "-" then 0 - Value(digits) else Value(digits)
  }

  function InInt(v: int): Result<int, StoiError> {
    if INT_MIN <= v <= INT_MAX then Ok(v) else Err(OutOfRange)
  }

  /** std::stoi in base ten: white space, an optional sign, the longest run of digits; what
      follows is ignored. It throws when there is no digit and when the value leaves int. */
  function Stoi(s: string): Result<int, StoiError> {
    StoiFrom(s[Span(IsSpace, s)..])
  }

  function StoiFrom(t: string): Result<int, StoiError> {
    var u := t[|Sign(t)|..];
    var digits := u[..Span(IsDigit, u)];
    if digits == "" then Err(InvalidArgument) else InInt(Signed(Sign(t), digits))
  }

  lemma StoiDigits(s: string)
    requires s != "" && AllDigits(s)
    ensures Stoi(s) == if Value(s) <= INT_MAX then Ok(Value(s)) else Err(OutOfRange)
  {
    assert IsDigit(s[0]) && !IsSpace(s[0]);
    assert s[Span(IsSpace, s)..] == s;
    assert s[..Span(IsDigit, s)] == s;
  }

  lemma SpanPrefix(p: char -> bool, a: string, b: string)
    requires (forall i :: 0 <= i < |a| ==> p(a[i])) && (b == "" || !p(b[0]))
    ensures Span(p, a + b) == |a|
  {
    assert forall i :: 0 <= i < |a| ==> (a + b)[i] == a[i];
    assert b != "" ==> (a + b)[|a|] == b[0];
  }

  lemma IntLimits()
    ensures INT_MIN == -2147483648 && INT_MAX == 2147483647
  {
  }

  lemma SignFirst(sign: string, u: string)
    requires sign == "" || sign == "+" || sign == "-"
    requires u != "" && IsDigit(u[0])
    ensures var t := sign + u; t != "" && !IsSpace(t[0]) && Sign(t) == sign && t[|sign|..] == u
  {
    assert (sign + u)[0] == if sign == "" then u[0] else sign[0];
  }

  lemma DigitsFirst(digits: string, tail: string)
    requires digits != "" && AllDigits(digits) && (tail == "" || !IsDigit(tail[0]))
    ensures var u := digits + tail; u != "" && IsDigit(u[0]) && u[..Span(IsDigit, u)] == digits
  {
    SpanPrefix(IsDigit, digits, tail);
    assert (digits + tail)[..|digits|] == digits;
  }

  /** White space, a sign or none, digits, and anything that does not go on with a digit: the
      signed number, when it fits. */
  lemma StoiReads(blank: string, sign: string, digits: string, tail: string)
    requires Blank(blank) && (sign == "" || sign == "+" || sign == "-")
    requires digits != "" && AllDigits(digits) && (tail == "" || !IsDigit(tail[0]))
    ensures var v: int := if sign == "-" then 0 - Value(digits) else Value(digits);
            Stoi(blank + (sign + (digits + tail))) ==
            if -2147483648 <= v <= 2147483647 then Ok(v) else Err(OutOfRange)
  {
    var t := sign + (digits + tail);
    DigitsFirst(digits, tail);
    SignFirst(sign, digits + tail);
    SpaceIsWhite(t[0]);
    AfterBlank(blank, t);
    ReadsFrom(t, sign, digits, tail);
  }

  lemma ReadsFrom(t: string, sign: string, digits: string, tail: string)
    requires t == sign + (digits + tail) && (sign == "" || sign == "+" || sign == "-")
    requires digits != "" && AllDigits(digits) && (tail == "" || !IsDigit(tail[0]))
    ensures var v: int := if sign == "-" then 0 - Value(digits) else Value(digits);
            StoiFrom(t) == if -2147483648 <= v <= 2147483647 then Ok(v) else Err(OutOfRange)
  {
    DigitsFirst(digits, tail);
    SignFirst(sign, digits + tail);
  }

  /** The white space in front is skipped. */
  lemma AfterBlank(blank: string, t: string)
    requires Blank(blank) && (t == "" || !White(t[0]))
    ensures Stoi(blank + t) == StoiFrom(t)
  {
    BlankIsSpace(blank);
    if t != "" {
      SpaceIsWhite(t[0]);
    }
    SpanPrefix(IsSpace, blank, t);
    assert (blank + t)[|blank|..] == t;
  }

  lemma BlankIsSpace(blank: string)
    ensures Blank(blank) <==> forall i :: 0 <= i < |blank| ==> IsSpace(blank[i])
  {
    forall i | 0 <= i < |blank| ensures IsSpace(blank[i]) <==> White(blank[i]) {
      SpaceIsWhite(blank[i]);
    }
  }

  /** White space, a sign or none, and no digit after that: no number. */
  lemma StoiFails(blank: string, sign: string, tail: string)
    requires Blank(blank) && (sign == "" || sign == "+" || sign == "-")
    requires tail == "" || !IsDigit(tail[0])
    requires sign == "" && tail != "" ==> !White(tail[0]) && tail[0] != '+' && tail[0] != '-'
    ensures Stoi(blank + (sign + tail)) == Err(InvalidArgument)
  {
    var t := sign + tail;
    assert t != "" ==> t[0] == if sign == "" then tail[0] else sign[0];
    AfterBlank(blank, t);
    FailsFrom(t, sign, tail);
  }

  lemma FailsFrom(t: string, sign: string, tail: string)
    requires t == sign + tail && (sign == "" || sign == "+" || sign == "-")
    requires tail == "" || !IsDigit(tail[0])
    requires sign == "" && tail != "" ==> tail[0] != '+' && tail[0] != '-'
    ensures StoiFrom(t) == Err(InvalidArgument)
  {
    assert t != "" ==> t[0] == if sign == "" then tail[0] else sign[0];
    assert t[|sign|..] == tail;
  }

  // ------------------------------------------------------------ what numerals denote

  lemma DigitTable(c: char)
    ensures IsDigit(c) <==> c in "0123456789"
    ensures IsDigit(c) ==> DigitValue(c) < 10 && "0123456789"[DigitValue(c)] == c
  {
    var table := "0123456789";
    assert table[0] == '0' && table[1] == '1' && table[2] == '2' && table[3] == '3' && table[4] == '4';
    assert table[5] == '5' && table[6] == '6' && table[7] == '7' && table[8] == '8' && table[9] == '9';
  }

  /** The decimal system: digits in front count ten times as much for each digit behind them. */
  lemma {:induction false} ValuePositional(a: string, b: string)
    requires AllDigits(a) && AllDigits(b)
    ensures AllDigits(a + b) && Value(a + b) == Value(a) * Pow10(|b|) + Value(b)
  {
    if b == "" {
      assert a + b == a;
    } else {
      var k := |b| - 1;
      ValuePositional(a, b[..k]);
      ValueLast(a, b);
      Tenfold(Value(a), Pow10(k));
    }
  }

  lemma ValueLast(a: string, b: string)
    requires AllDigits(a) && AllDigits(b) && b != ""
    ensures AllDigits(a + b) && AllDigits(a + b[..|b| - 1])
    ensures Value(a + b) == Value(a + b[..|b| - 1]) * 10 + DigitValue(b[|b| - 1])
  {
    assert (a + b)[..|a + b| - 1] == a + b[..|b| - 1];
  }

  lemma Tenfold(v: nat, p: nat)
    ensures v * p * 10 == v * (10 * p)
  {
  }

  lemma ValueOfDigit(c: char)
    requires IsDigit(c)
    ensures Value([c]) == DigitValue(c)
  {
    assert [c][..0] == "";
  }

  // ------------------------------------------------------------ machine integers

  /** static_cast to a 32-bit signed integer. */
  function Int32(n: int): (r: int)
    ensures -2147483648 <= r <= 2147483647 && (n - r) % 4294967296 == 0
    ensures INT_MIN <= n <= INT_MAX ==> r == n
  {
    var m := n % 0x1_0000_0000;
    if m <= INT_MAX then m else m - 0x1_0000_0000
  }

  /** static_cast to a 32-bit unsigned integer. */
  function Uint32(n: int): (r: nat)
    ensures r < 4294967296 && (n - r) % 4294967296 == 0
    ensures 0 <= n < 4294967296 ==> r == n
  {
    n % 0x1_0000_0000
  }

  /** Conversion to a 64-bit unsigned integer. */
  function Uint64(n: int): (r: nat)
    ensures r < 0x1_0000_0000_0000_0000 && (n - r) % 0x1_0000_0000_0000_0000 == 0
    ensures 0 <= n < 0x1_0000_0000_0000_0000 ==> r == n
  {
    n % 0x1_0000_0000_0000_0000
  }
}
