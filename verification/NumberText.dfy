/** Numbers as text: ntoa writes a number in a base, strtoul reads it. Unsigned long has 64 bits. */
module NumberText {
  import opened Modular

  const RANGE: nat := 0x1_0000_0000_0000_0000

  // ---------------------------------------------------------------- powers

  function Pow(base: nat, k: nat): nat {
    if k == 0 then 1 else Pow(base, k - 1) * base
  }

  lemma {:induction false} PowPositive(base: nat, k: nat)
    requires base > 0
    ensures Pow(base, k) > 0
  {
    if k > 0 {
      PowPositive(base, k - 1);
      assert Pow(base, k - 1) * base > 0;
    }
  }

  lemma ExactQuotient(d: nat, b: nat)
    requires b > 0
    ensures d * b / b == d
  {
    DivisionUnique(d * b, d, 0, b);
  }

  // ---------------------------------------------------------------- numerals

  /** The digits of n, k places and one more, the most significant first. */
  function Digits(n: nat, base: nat, k: nat): (s: seq<nat>)
    requires base > 0
    ensures |s| == k + 1
    decreases k
  {
    if k == 0 then [n]
    else
      PowPositive(base, k);
      [n / Pow(base, k)] + Digits(n % Pow(base, k), base, k - 1)
  }

  function Value(s: seq<nat>, base: nat): nat {
    if s == [] then 0 else Value(s[..|s| - 1], base) * base + s[|s| - 1]
  }

  lemma {:induction false} ValueOfCons(d: nat, s: seq<nat>, base: nat)
    ensures Value([d] + s, base) == d * Pow(base, |s|) + Value(s, base)
    decreases |s|
  {
    if s == [] {
      assert ([d] + s)[..0] == [];
    } else {
      var t, last := s[..|s| - 1], s[|s| - 1];
      assert ([d] + s)[..|s|] == [d] + t;
      ValueOfCons(d, t, base);
      Distribute(d * Pow(base, |t|), Value(t, base), base);
      Associate(d, Pow(base, |t|), base);
    }
  }

  lemma Distribute(a: nat, b: nat, c: nat)
    ensures (a + b) * c == a * c + b * c
  {
  }

  lemma Associate(a: nat, b: nat, c: nat)
    ensures (a * b) * c == a * (b * c)
  {
  }

  predicate AllDigits(s: seq<nat>, base: nat) {
    forall i :: 0 <= i < |s| ==> s[i] < base
  }

  lemma FirstAndRest(n: nat, base: nat, k: nat, d: nat)
    requires base > 0 && n < Pow(base, k + 1) && d == Pow(base, k)
    ensures d > 0 && n / d < base && 0 <= n % d < d && n == (n / d) * d + n % d
  {
    PowPositive(base, k);
    QuotientBelow(n, d, base);
  }

  /** The digits of a number have its value, and each of them is below the base. */
  lemma {:induction false} DigitsValue(n: nat, base: nat, k: nat)
    requires base > 0 && n < Pow(base, k + 1)
    ensures Value(Digits(n, base, k), base) == n && AllDigits(Digits(n, base, k), base)
    decreases k
  {
    if k > 0 {
      var d := Pow(base, k);
      FirstAndRest(n, base, k, d);
      DigitsValue(n % d, base, k - 1);
      ValueOfCons(n / d, Digits(n % d, base, k - 1), base);
    } else {
      assert Value([n][..0], base) == 0;
    }
  }

  /** The exponent of the first digit: the largest one whose power does not exceed the number. */
  ghost predicate IsTop(n: nat, base: nat, k: nat) {
    n < Pow(base, k + 1) && (k > 0 ==> Pow(base, k) <= n)
  }

  /** A numeral has no leading zero, unless it is the number 0. */
  lemma NoLeadingZero(n: nat, base: nat, k: nat)
    requires base > 0 && IsTop(n, base, k)
    ensures Digits(n, base, k)[0] == 0 <==> n == 0
  {
    if k > 0 {
      PowPositive(base, k);
      QuotientBelow(n, Pow(base, k), 1);
    }
  }

  lemma {:induction false} PowMonotone(a: nat, b: nat, k: nat)
    requires a <= b
    ensures Pow(a, k) <= Pow(b, k)
  {
    if k > 0 {
      PowMonotone(a, b, k - 1);
      ProductMonotone(Pow(a, k - 1), Pow(b, k - 1), a, b);
    }
  }

  lemma ProductMonotone(a: nat, b: nat, c: nat, d: nat)
    requires a <= b && c <= d
    ensures a * c <= b * d
  {
    assert b * d == a * c + a * (d - c) + (b - a) * d;
  }

  lemma {:induction false} PowGrows(base: nat, j: nat, k: nat)
    requires base > 0 && j <= k
    ensures Pow(base, j) <= Pow(base, k)
  {
    if j < k {
      PowGrows(base, j, k - 1);
      PowPositive(base, k - 1);
      ProductMonotone(Pow(base, k - 1), Pow(base, k - 1), 1, base);
    }
  }

  lemma PowOf8()
    ensures Pow(8, 22) >= RANGE
  {
    assert Pow(8, 4) == 4096;
    assert Pow(8, 8) == 16777216;
    assert Pow(8, 12) == 68719476736;
    assert Pow(8, 16) == 281474976710656;
    assert Pow(8, 20) == 1152921504606846976;
  }

  /** From base 8 on, 22 digits are enough for every 64-bit number. */
  lemma DigitCount(n: nat, base: nat, k: nat)
    requires base >= 8 && n < RANGE && IsTop(n, base, k)
    ensures |Digits(n, base, k)| <= 22
  {
    if k >= 22 {
      PowOf8();
      PowMonotone(8, base, 22);
      PowGrows(base, 22, k);
    }
  }

  lemma PowOf2()
    ensures Pow(2, 64) >= RANGE
  {
    assert Pow(2, 8) == 256;
    assert Pow(2, 16) == 65536;
    assert Pow(2, 24) == 16777216;
    assert Pow(2, 32) == 4294967296;
    assert Pow(2, 40) == 1099511627776;
    assert Pow(2, 48) == 281474976710656;
    assert Pow(2, 56) == 72057594037927936;
  }

  lemma DigitCountAnyBase(n: nat, base: nat, k: nat)
    requires base >= 2 && n < RANGE && IsTop(n, base, k)
    ensures |Digits(n, base, k)| <= 64
  {
    if k >= 64 {
      PowOf2();
      PowMonotone(2, base, 64);
      PowGrows(base, 64, k);
    }
  }

  // ---------------------------------------------------------------- ntoa

  function DigitChar(digit: nat, upcase: bool): char
    requires digit < 36
  {
    (if digit < 10 then 48 + digit else 48 + digit + 7 + (if upcase then 0 else 0x20)) as char
  }

  /** The character of a digit. */
  lemma DigitCharIs(digit: nat, upcase: bool)
    requires digit < 36
    ensures DigitChar(digit, upcase)
            == if digit < 10 then "0123456789"[digit]
               else if upcase then "ABCDEFGHIJKLMNOPQRSTUVWXYZ"[digit - 10] else "abcdefghijklmnopqrstuvwxyz"[digit - 10]
  {
    assert digit in {0, 1, 2, 3, 4, 5, 6, 7, 8, 9, 10, 11, 12, 13, 14, 15, 16, 17, 18, 19, 20, 21, 22, 23, 24, 25, 26, 27, 28,
                     29, 30, 31, 32, 33, 34, 35};
  }

  function Text(digits: seq<nat>, upcase: bool): string
    requires AllDigits(digits, 36)
  {
    seq(|digits|, i requires 0 <= i < |digits| => DigitChar(digits[i], upcase))
  }

  predicate HasRoom(dest: array<char>, base: nat) {
    dest.Length > if base >= 8 then 22 else 64
  }

  method FindDivisor(number: nat, base: nat) returns (divisor: nat, digit: nat, ghost k: nat)
    requires number < RANGE && 2 <= base <= 36
    ensures divisor == Pow(base, k) && divisor > 0 && digit == number / divisor < base && IsTop(number, base, k)
  {
    divisor, k := 1, 0;
    digit := number / divisor;
    while digit >= base
      invariant divisor == Pow(base, k) && 0 < divisor && digit == number / divisor && (k > 0 ==> divisor <= number)
      decreases number - divisor
    {
      QuotientBelow(number, divisor, base);
      assert divisor * base < RANGE;  // the multiplication does not wrap
      ProductMonotone(divisor, divisor, 2, base);
      divisor := (divisor * base) % RANGE;
      k := k + 1;
      digit := number / divisor;
    }
    QuotientBelow(number, divisor, base);
  }

  /** Writes the numeral of a number and the terminator. */
  method Ntoa(dest: array<char>, number: nat, base: nat, upcase: bool) returns (ghost k: nat)
    requires number < RANGE && 2 <= base <= 36 && HasRoom(dest, base)
    modifies dest
    ensures IsTop(number, base, k) && k + 1 < dest.Length && AllDigits(Digits(number, base, k), base)
    ensures dest[..k + 1] == Text(Digits(number, base, k), upcase) && dest[k + 1] == '\0'
  {
    var divisor, digit;
    divisor, digit, k := FindDivisor(number, base);
    DigitsValue(number, base, k);
    if base >= 8 {
      DigitCount(number, base, k);
    } else {
      DigitCountAnyBase(number, base, k);
    }
    ghost var all := Text(Digits(number, base, k), upcase);
    var n: nat, p := number, 0;
    ghost var j := k;
    while true
      invariant p + j == k && dest[..p] == all[..p]
      invariant divisor == Pow(base, j) > 0 && n < Pow(base, j + 1) && digit == n / divisor
      invariant AllDigits(Digits(n, base, j), base) && Text(Digits(n, base, j), upcase) == all[p..]
      decreases j
    {
      FirstAndRest(n, base, j, divisor);
      FirstDigit(n, base, j, divisor);
      FirstChar(Digits(n, base, j), upcase);
      n := n % divisor;
      dest[p] := DigitChar(digit, upcase);
      assert all[p] == all[p..][0];
      p := p + 1;
      LowerPower(base, j);
      divisor := divisor / base;
      if divisor == 0 {
        break;
      }
      assert all[p..] == all[p - 1..][1..];
      digit := n / divisor;
      j := j - 1;
    }
    dest[p] := '\0';
  }

  lemma LowerPower(base: nat, j: nat)
    requires base >= 2
    ensures Pow(base, j) / base == if j == 0 then 0 else Pow(base, j - 1)
    ensures j > 0 ==> Pow(base, j - 1) > 0
  {
    if j > 0 {
      ExactQuotient(Pow(base, j - 1), base);
      PowPositive(base, j - 1);
    }
  }

  /** What the digits of a number begin with, and what follows. */
  lemma FirstDigit(n: nat, base: nat, j: nat, d: nat)
    requires base > 0 && d == Pow(base, j) > 0
    ensures Digits(n, base, j)[0] == n / d
    ensures j > 0 ==> Digits(n, base, j)[1..] == Digits(n % d, base, j - 1)
  {
    if j == 0 {
      assert n / 1 == n;
    }
  }

  lemma FirstChar(digits: seq<nat>, upcase: bool)
    requires digits != [] && AllDigits(digits, 36)
    ensures Text(digits, upcase)[0] == DigitChar(digits[0], upcase) && Text(digits[1..], upcase) == Text(digits, upcase)[1..]
  {
  }

  // ---------------------------------------------------------------- strtoul

  /** A string in memory: its last character, and no other that matters, is the terminator. */
  predicate IsCString(s: string) {
    s != "" && s[|s| - 1] == '\0'
  }

  predicate IsSpace(c: char) {
    c == ' ' || c == '\U{000c}' || c == '\n' || c == '\r' || c == '\t' || c == '\U{000b}'
  }

  /** What strtoul takes a character for; the characters between '9' and 'A' count as 10 to 16. */
  function DigitValue(ch: char): int {
    var c := ch as int;
    if c < 48 then -1
    else
      var upper := if 97 <= c <= 122 then c - 32 else c;
      (if upper >= 65 then upper - 7 else upper) - 48
  }

  predicate IsDigit(ch: char, base: nat) {
    0 <= DigitValue(ch) < base
  }

  function Accumulate(result: nat, base: nat, ch: char): nat
    requires IsDigit(ch, base)
  {
    (result * base + DigitValue(ch)) % RANGE
  }

  /** Reads digits from a position on: the result, where it stops, and whether it saw an overflow. */
  function Scan(s: string, pos: nat, base: nat, result: nat): (r: (nat, nat, bool))
    requires IsCString(s) && pos < |s|
    ensures pos <= r.1 < |s|
    decreases |s| - pos
  {
    if !IsDigit(s[pos], base) then (result, pos, false)
    else if Accumulate(result, base, s[pos]) < result then (RANGE - 1, pos, true)
    else Scan(s, pos + 1, base, Accumulate(result, base, s[pos]))
  }

  function SkipSpaces(s: string, pos: nat): (r: nat)
    requires IsCString(s) && pos < |s|
    ensures pos <= r < |s|
    decreases |s| - pos
  {
    if IsSpace(s[pos]) then SkipSpaces(s, pos + 1) else pos
  }

  /** Behind the sign and the prefix: the position, the base, and whether reading goes on. */
  function Prefix(s: string, pos: nat, base: nat): (r: (nat, nat, bool))
    requires IsCString(s) && pos < |s|
    ensures pos <= r.0 < |s|
  {
    if s[pos] != '0' then (pos, if base == 0 then 10 else base, true)
    else if s[pos + 1] != 'x' && s[pos + 1] != 'X' then (pos + 1, if base == 0 then 8 else base, true)
    else if base != 0 && base != 16 then (pos + 1, base, false)
    else (pos + 2, 16, true)
  }

  /** The number that strtoul returns and where its end pointer points. */
  function Parsed(s: string, base: nat): (nat, nat)
    requires IsCString(s)
  {
    if base == 1 || base > 36 then (0, 0)
    else
      var start := SkipSpaces(s, 0);
      var first := if s[start] == '+' || s[start] == '-' then start + 1 else start;
      var (pos, b, more) := Prefix(s, first, base);
      if !more then (0, 0)
      else
        var (result, end, overflow) := Scan(s, pos, b, 0);
        if overflow || end == pos || s[start] != '-' then (result, end) else ((RANGE - result) % RANGE, end)
  }

  method Strtoul(s: string, nBase: nat) returns (result: nat, end: nat)
    requires IsCString(s)
    ensures (result, end) == Parsed(s, nBase)
  {
    result, end := 0, 0;
    if nBase != 0 && (nBase < 2 || nBase > 36) {
      return;
    }
    var pos := 0;
    while IsSpace(s[pos])
      invariant pos < |s| && SkipSpaces(s, 0) == SkipSpaces(s, pos)
      decreases |s| - pos
    {
      pos := pos + 1;
    }
    var minus := false;
    if s[pos] == '+' || s[pos] == '-' {
      minus := s[pos] == '-';
      pos := pos + 1;
    }
    var base, more;
    pos, base, more := ReadPrefix(s, pos, nBase);
    if !more {
      return;
    }
    var negate;
    result, end, negate := ReadDigits(s, pos, base);
    if negate && minus {
      result := (RANGE - result) % RANGE;
    }
  }

  /** Reads the prefix that tells the base; it must not contradict the base that was given. */
  method ReadPrefix(s: string, start: nat, nBase: nat) returns (pos: nat, base: nat, more: bool)
    requires IsCString(s) && start < |s|
    ensures (pos, base, more) == Prefix(s, start, nBase)
  {
    pos, base, more := start, nBase, true;
    if s[pos] == '0' {
      pos := pos + 1;
      if s[pos] == 'x' || s[pos] == 'X' {
        if base != 0 && base != 16 {
          return pos, base, false;
        }
        base := 16;
        pos := pos + 1;
      } else if base == 0 {
        base := 8;
      }
    } else if base == 0 {
      base := 10;
    }
  }

  /** Reads digits; the sign does not apply when there are none, or too many. */
  method ReadDigits(s: string, start: nat, base: nat) returns (result: nat, pos: nat, negate: bool)
    requires IsCString(s) && start < |s|
    ensures var r := Scan(s, start, base, 0); result == r.0 && pos == r.1 && negate == (!r.2 && pos != start)
  {
    result, pos := 0, start;
    var first := true;
    while IsDigit(s[pos], base)
      invariant start <= pos < |s| && first == (pos == start)
      invariant Scan(s, start, base, 0) == Scan(s, pos, base, result)
      decreases |s| - pos
    {
      var previous := result;
      result := Accumulate(result, base, s[pos]);
      if result < previous {
        return RANGE - 1, pos, false;
      }
      pos := pos + 1;
      first := false;
    }
    negate := !first;
  }

  // ---------------------------------------------------------------- reading what was written

  lemma DigitCharValue(d: nat, upcase: bool)
    requires d < 36
    ensures DigitValue(DigitChar(d, upcase)) == d
    ensures DigitChar(d, upcase) == '0' <==> d == 0
    ensures !IsSpace(DigitChar(d, upcase)) && DigitChar(d, upcase) != '+' && DigitChar(d, upcase) != '-'
  {
  }

  lemma {:induction false} PrefixValue(s: seq<nat>, base: nat, i: nat)
    requires i <= |s| && base > 0
    ensures Value(s[..i], base) <= Value(s, base)
    decreases |s|
  {
    if i < |s| {
      var t := s[..|s| - 1];
      assert s[..i] == t[..i];
      PrefixValue(t, base, i);
      ProductMonotone(Value(t, base), Value(t, base), 1, base);
    } else {
      assert s[..i] == s;
    }
  }

  /** Reading one digit more. */
  lemma ScanOne(s: string, pos: nat, base: nat, value: nat, digit: nat, upcase: bool)
    requires IsCString(s) && pos < |s| && 2 <= base <= 36 && digit < base && s[pos] == DigitChar(digit, upcase)
    requires value * base + digit < RANGE
    ensures pos + 1 < |s| && Scan(s, pos, base, value) == Scan(s, pos + 1, base, value * base + digit)
  {
    DigitCharValue(digit, upcase);
    ProductMonotone(value, value, 1, base);
  }

  lemma {:induction false} ScanText(digits: seq<nat>, base: nat, upcase: bool, i: nat)
    requires 2 <= base <= 36 && AllDigits(digits, base) && Value(digits, base) < RANGE && i <= |digits|
    ensures AllDigits(digits, 36)
    ensures Scan(Text(digits, upcase) + "\0", i, base, Value(digits[..i], base)) == (Value(digits, base), |digits|, false)
    decreases |digits| - i
  {
    assert AllDigits(digits, 36);
    var s := Text(digits, upcase) + "\0";
    if i < |digits| {
      assert s[i] == DigitChar(digits[i], upcase);
      assert digits[..i + 1][..i] == digits[..i];
      PrefixValue(digits, base, i + 1);
      ScanOne(s, i, base, Value(digits[..i], base), digits[i], upcase);
      ScanText(digits, base, upcase, i + 1);
    } else {
      assert digits[..i] == digits;
    }
  }

  /** Main result. In every base strtoul reads back what ntoa wrote, up to the terminator. */
  lemma RoundTrip(n: nat, base: nat, k: nat, upcase: bool)
    requires n < RANGE && 2 <= base <= 36 && IsTop(n, base, k)
    ensures AllDigits(Digits(n, base, k), 36)
    ensures Parsed(Text(Digits(n, base, k), upcase) + "\0", base) == (n, k + 1)
  {
    var digits := Digits(n, base, k);
    DigitsValue(n, base, k);
    assert AllDigits(digits, 36);
    var s := Text(digits, upcase) + "\0";
    assert s[0] == DigitChar(digits[0], upcase);
    DigitCharValue(digits[0], upcase);
    NoLeadingZero(n, base, k);
    if n == 0 {
      ZeroHasOneDigit(base, k);
      assert s[1] == '\0';
    } else {
      ScanText(digits, base, upcase, 0);
      assert Value(digits[..0], base) == 0;
    }
  }

  lemma ZeroHasOneDigit(base: nat, k: nat)
    requires base > 0 && IsTop(0, base, k)
    ensures k == 0
  {
    PowPositive(base, k);
  }

  // ---------------------------------------------------------------- signs and prefixes

  /** Reading does not depend on what stands in front. */
  lemma {:induction false} ScanBehind(front: string, s: string, i: nat, base: nat, value: nat)
    requires IsCString(s) && i < |s|
    ensures IsCString(front + s)
    ensures var (result, end, overflow) := Scan(s, i, base, value);
            Scan(front + s, |front| + i, base, value) == (result, |front| + end, overflow)
    decreases |s| - i
  {
    if IsDigit(s[i], base) && Accumulate(value, base, s[i]) >= value {
      ScanBehind(front, s, i + 1, base, Accumulate(value, base, s[i]));
    }
  }

  function Numeral(n: nat, base: nat, k: nat, upcase: bool): (s: string)
    requires n < RANGE && 2 <= base <= 36 && n < Pow(base, k + 1)
    ensures IsCString(s) && |s| == k + 2
  {
    DigitsValue(n, base, k);
    Text(Digits(n, base, k), upcase) + "\0"
  }

  lemma NumeralScanned(n: nat, base: nat, k: nat, upcase: bool)
    requires n < RANGE && 2 <= base <= 36 && IsTop(n, base, k)
    ensures Scan(Numeral(n, base, k, upcase), 0, base, 0) == (n, k + 1, false)
  {
    hide Scan, Pow, Text, Digits;
    var digits := Digits(n, base, k);
    DigitsValue(n, base, k);
    assert Value(digits[..0], base) == 0;
    ScanText(digits, base, upcase, 0);
  }

  lemma NumeralStart(n: nat, base: nat, k: nat, upcase: bool)
    requires n < RANGE && 2 <= base <= 36 && IsTop(n, base, k)
    ensures var t := Numeral(n, base, k, upcase);
            && t[0] != '+' && t[0] != '-' && !IsSpace(t[0])
            && (t[0] == '0' <==> n == 0) && (n == 0 ==> k == 0 && t[1] == '\0')
  {
    var digits := Digits(n, base, k);
    DigitsValue(n, base, k);
    assert Numeral(n, base, k, upcase)[0] == DigitChar(digits[0], upcase);
    DigitCharValue(digits[0], upcase);
    NoLeadingZero(n, base, k);
    if n == 0 {
      ZeroHasOneDigit(base, k);
    }
  }

  /** A numeral is read back behind anything that may stand in front of it. */
  lemma NumeralBehind(front: string, n: nat, base: nat, k: nat, upcase: bool)
    requires n < RANGE && 2 <= base <= 36 && IsTop(n, base, k)
    ensures var s := front + Numeral(n, base, k, upcase);
            && IsCString(s) && Scan(s, |front|, base, 0) == (n, |front| + k + 1, false)
            && s[|front|] != '+' && s[|front|] != '-' && !IsSpace(s[|front|])
            && (s[|front|] == '0' <==> n == 0) && (n == 0 ==> k == 0 && s[|front| + 1] == '\0')
  {
    hide Scan, Numeral, Pow, Accumulate;
    var t := Numeral(n, base, k, upcase);
    NumeralScanned(n, base, k, upcase);
    NumeralStart(n, base, k, upcase);
    ScanBehind(front, t, 0, base, 0);
  }

  /** A sign in front of a numeral: the number, or its negative modulo 2^64. */
  lemma SignedRoundTrip(n: nat, base: nat, k: nat, upcase: bool, minus: bool)
    requires n < RANGE && 2 <= base <= 36 && IsTop(n, base, k)
    ensures Parsed((if minus then "-" else "+") + Numeral(n, base, k, upcase), base)
            == (if minus then (RANGE - n) % RANGE else n, k + 2)
  {
    hide Scan, Numeral, Accumulate;
    var front := if minus then "-" else "+";
    var s := front + Numeral(n, base, k, upcase);
    NumeralBehind(front, n, base, k, upcase);
    assert s[0] == front[0] && !IsSpace(s[0]);
    if n == 0 {
      ScanAtEnd(s, 2, base);
    }
  }

  lemma ScanAtEnd(s: string, pos: nat, base: nat)
    requires IsCString(s) && pos < |s| && s[pos] == '\0'
    ensures Scan(s, pos, base, 0) == (0, pos, false)
  {
  }

  /** Hexadecimal numbers with their prefix are read back with base 16 given, or none. */
  lemma HexRoundTrip(n: nat, k: nat, upcase: bool, x: char, given: nat)
    requires n < RANGE && IsTop(n, 16, k) && (x == 'x' || x == 'X') && (given == 0 || given == 16)
    ensures Parsed("0" + [x] + Numeral(n, 16, k, upcase), given) == (n, k + 3)
  {
    hide Scan, Numeral, Accumulate;
    var front := "0" + [x];
    var s := front + Numeral(n, 16, k, upcase);
    NumeralBehind(front, n, 16, k, upcase);
    assert s[0] == '0' && s[1] == x && SkipSpaces(s, 0) == 0;
    assert Prefix(s, 0, given) == (2, 16, true);
  }

  /** With any other base given, the prefix is refused. */
  lemma PrefixContradicts(t: string, x: char, given: nat)
    requires IsCString(t) && (x == 'x' || x == 'X') && 2 <= given <= 36 && given != 16
    ensures Parsed("0" + [x] + t, given) == (0, 0)
  {
    var s := "0" + [x] + t;
    assert s[0] == '0' && s[1] == x && SkipSpaces(s, 0) == 0;
  }

  /** Without a base, a numeral is decimal, and octal behind a zero. */
  lemma DecimalRoundTrip(n: nat, k: nat, upcase: bool)
    requires n < RANGE && IsTop(n, 10, k)
    ensures Parsed(Numeral(n, 10, k, upcase), 0) == (n, k + 1)
  {
    hide Scan, Numeral, Accumulate;
    var s := Numeral(n, 10, k, upcase);
    NumeralBehind("", n, 10, k, upcase);
    assert "" + s == s && SkipSpaces(s, 0) == 0;
    if n == 0 {
      ScanAtEnd(s, 1, 8);
    }
  }

  lemma OctalRoundTrip(n: nat, k: nat, upcase: bool)
    requires n < RANGE && IsTop(n, 8, k)
    ensures Parsed("0" + Numeral(n, 8, k, upcase), 0) == (n, k + 2)
  {
    hide Scan, Numeral, Accumulate;
    var s := "0" + Numeral(n, 8, k, upcase);
    NumeralBehind("0", n, 8, k, upcase);
    assert s[0] == '0' && SkipSpaces(s, 0) == 0;
    NotX(n, 8, k, upcase);
    assert Prefix(s, 0, 0) == (1, 8, true);
  }

  lemma NotX(n: nat, base: nat, k: nat, upcase: bool)
    requires n < RANGE && 2 <= base <= 10 && IsTop(n, base, k)
    ensures Numeral(n, base, k, upcase)[0] != 'x' && Numeral(n, base, k, upcase)[0] != 'X'
  {
    DigitsValue(n, base, k);
    assert Numeral(n, base, k, upcase)[0] == DigitChar(Digits(n, base, k)[0], upcase);
  }

  // ---------------------------------------------------------------- what stands in front and behind

  lemma {:induction false} SpacesAre(front: string, s: string, i: nat)
    requires IsCString(s) && i <= |front| && forall j :: 0 <= j < |front| ==> front[j] in " \U{000c}\n\r\t\U{000b}"
    ensures IsCString(front + s) && SkipSpaces(front + s, i) == |front| + SkipSpaces(s, 0)
    decreases |front| - i
  {
    if i < |front| {
      assert (front + s)[i] == front[i];
      SpacesAre(front, s, i + 1);
    } else {
      SkipBehind(front, s, 0);
    }
  }

  lemma {:induction false} SkipBehind(front: string, s: string, i: nat)
    requires IsCString(s) && i < |s|
    ensures IsCString(front + s) && SkipSpaces(front + s, |front| + i) == |front| + SkipSpaces(s, i)
    decreases |s| - i
  {
    assert (front + s)[|front| + i] == s[i];
    if IsSpace(s[i]) {
      SkipBehind(front, s, i + 1);
    }
  }

  /** White space in front of any text moves the end and changes nothing else, unless a prefix contradicts the base. */
  lemma SpacesSkipped(front: string, s: string, base: nat)
    requires IsCString(s) && base != 1 && base <= 36
    requires forall j :: 0 <= j < |front| ==> front[j] in " \U{000c}\n\r\t\U{000b}"
    ensures IsCString(front + s)
    ensures Parsed(front + s, base) == (Parsed(s, base).0, |front| + Parsed(s, base).1) || Parsed(front + s, base) == Parsed(s, base) == (0, 0)
  {
    hide Scan, SkipSpaces, Prefix;
    SpacesAre(front, s, 0);
    var start := SkipSpaces(s, 0);
    assert (front + s)[|front| + start] == s[start];
    var first := if s[start] == '+' || s[start] == '-' then start + 1 else start;
    PrefixBehind(front, s, first, base);
    ScanBehind(front, s, Prefix(s, first, base).0, Prefix(s, first, base).1, 0);
  }

  lemma PrefixBehind(front: string, s: string, first: nat, base: nat)
    requires IsCString(s) && first < |s|
    ensures IsCString(front + s)
    ensures var (pos, b, more) := Prefix(s, first, base); Prefix(front + s, |front| + first, base) == (|front| + pos, b, more)
  {
    assert (front + s)[|front| + first] == s[first];
    if s[first] == '0' {
      assert (front + s)[|front| + first + 1] == s[first + 1];
    }
  }

  /** A numeral is read back behind any white space. */
  lemma NumeralBehindSpaces(front: string, n: nat, base: nat, k: nat, upcase: bool)
    requires n < RANGE && 2 <= base <= 36 && IsTop(n, base, k)
    requires forall j :: 0 <= j < |front| ==> front[j] in " \U{000c}\n\r\t\U{000b}"
    ensures IsCString(front + Numeral(n, base, k, upcase))
    ensures Parsed(front + Numeral(n, base, k, upcase), base) == (n, |front| + k + 1)
  {
    hide Parsed;
    RoundTrip(n, base, k, upcase);
    SpacesSkipped(front, Numeral(n, base, k, upcase), base);
  }

  /** Nothing is read, and nothing is skipped, if the text begins with none of these. */
  lemma NothingToRead(s: string, base: nat)
    requires IsCString(s) && s[0] !in " \U{000c}\n\r\t\U{000b}+-" && !IsDigit(s[0], if base == 0 then 10 else base)
    ensures Parsed(s, base) == (0, 0)
  {
    assert !IsSpace(s[0]) by {
      assert forall c: char :: IsSpace(c) ==> c in " \U{000c}\n\r\t\U{000b}";
    }
  }

  /** Up to base 36 digits and letters have their values; the seven characters between '9' and 'A' count from 10 on. */
  lemma WhichDigits(ch: char, base: nat)
    requires 2 <= base <= 36
    ensures IsDigit(ch, base)
            <==> || ('0' <= ch <= '9' && DigitValue(ch) == ch as int - '0' as int < base)
                 || ('A' <= ch <= 'Z' && DigitValue(ch) == 10 + ch as int - 'A' as int < base)
                 || ('a' <= ch <= 'z' && DigitValue(ch) == 10 + ch as int - 'a' as int < base)
                 || (':' <= ch <= '@' && DigitValue(ch) == 10 + ch as int - ':' as int < base)
  {
  }

  /** So a colon is read as a hexadecimal number. */
  lemma ColonIsTen()
    ensures Parsed(":\0", 16) == (10, 1)
  {
    var s := ":\0";
    assert s[0] == ':' && s[1] == '\0';
    assert Scan(s, 0, 16, 0) == Scan(s, 1, 16, 10);
  }

  /** Reading stops at the first character that is no digit, whatever follows. */
  lemma {:induction false} ScanStops(t: string, rest: string, i: nat, base: nat, value: nat)
    requires IsCString(rest) && i <= |t| && !IsDigit(rest[0], base)
    ensures IsCString(t + rest) && IsCString(t + "\0")
    ensures Scan(t + rest, i, base, value) == Scan(t + "\0", i, base, value)
    decreases |t| - i
  {
    if i < |t| {
      assert (t + rest)[i] == (t + "\0")[i] == t[i];
      if IsDigit(t[i], base) {
        ScanStops(t, rest, i + 1, base, Accumulate(value, base, t[i]));
      }
    } else {
      assert (t + rest)[i] == rest[0] && (t + "\0")[i] == '\0';
    }
  }

  /** A numeral is read back whatever follows, but a zero must not look like the prefix. */
  lemma NumeralFollowed(n: nat, base: nat, k: nat, upcase: bool, rest: string)
    requires n < RANGE && 2 <= base <= 36 && IsTop(n, base, k) && AllDigits(Digits(n, base, k), 36)
    requires IsCString(rest) && !IsDigit(rest[0], base) && (n == 0 ==> rest[0] != 'x' && rest[0] != 'X')
    ensures IsCString(Text(Digits(n, base, k), upcase) + rest)
    ensures Parsed(Text(Digits(n, base, k), upcase) + rest, base) == (n, k + 1)
  {
    hide Scan, Pow, Digits;
    var t := Text(Digits(n, base, k), upcase);
    NumeralStart(n, base, k, upcase);
    NumeralScanned(n, base, k, upcase);
    assert Numeral(n, base, k, upcase) == t + "\0";
    ScanStops(t, rest, 0, base, 0);
    assert (t + rest)[0] == (t + "\0")[0];
    if n == 0 {
      assert (t + rest)[1] == rest[0];
      ScanNone(t + rest, 1, base);
    }
  }

  lemma ScanNone(s: string, pos: nat, base: nat)
    requires IsCString(s) && pos < |s| && !IsDigit(s[pos], base)
    ensures Scan(s, pos, base, 0) == (0, pos, false)
  {
  }

  // ---------------------------------------------------------------- overflow

  /** The value of the first i digits as the loop of strtoul has it, modulo 2^64. */
  function Wrapped(digits: seq<nat>, base: nat, i: nat): (v: nat)
    requires i <= |digits|
    ensures v < RANGE
  {
    Value(digits[..i], base) % RANGE
  }

  /** With the next digit it falls, which is what the overflow test looks for. */
  predicate Falls(digits: seq<nat>, base: nat, i: nat)
    requires i < |digits|
  {
    Wrapped(digits, base, i + 1) < Wrapped(digits, base, i)
  }

  predicate NeverFalls(digits: seq<nat>, base: nat, i: nat) {
    forall j :: i <= j < |digits| ==> !Falls(digits, base, j)
  }

  lemma WrappedStep(digits: seq<nat>, base: nat, i: nat)
    requires i < |digits|
    ensures Wrapped(digits, base, i + 1) == (Wrapped(digits, base, i) * base + digits[i]) % RANGE
  {
    assert digits[..i + 1][..i] == digits[..i];
    var v := Value(digits[..i], base);
    assert v == v % RANGE + v / RANGE * RANGE;
    WrappedProduct(v % RANGE, v / RANGE, base);
    AddMultiple(v % RANGE * base + digits[i], v / RANGE * base, RANGE);
  }

  lemma WrappedProduct(r: nat, q: nat, base: nat)
    ensures (r + q * RANGE) * base == r * base + (q * base) * RANGE
  {
    Distribute(r, q * RANGE, base);
  }

  /** The scan of a text of digits from the i-th on, with what the loop has of those before. */
  lemma {:induction false} ScanWrapped(digits: seq<nat>, base: nat, upcase: bool, i: nat)
    requires 2 <= base <= 36 && AllDigits(digits, base) && AllDigits(digits, 36) && i <= |digits|
    ensures var (result, end, overflow) := Scan(Text(digits, upcase) + "\0", i, base, Wrapped(digits, base, i));
            if NeverFalls(digits, base, i) then result == Value(digits, base) % RANGE && end == |digits| && !overflow
            else result == RANGE - 1 && overflow && i <= end < |digits| && Falls(digits, base, end)
                 && forall j :: i <= j < end ==> !Falls(digits, base, j)
    decreases |digits| - i
  {
    hide Scan, Wrapped, Falls;
    if i < |digits| {
      ScanStep(digits, base, upcase, i);
      ScanWrapped(digits, base, upcase, i + 1);
    } else {
      ScanEnd(digits, base, upcase);
    }
  }

  lemma ScanStep(digits: seq<nat>, base: nat, upcase: bool, i: nat)
    requires 2 <= base <= 36 && AllDigits(digits, base) && AllDigits(digits, 36) && i < |digits|
    ensures var s := Text(digits, upcase) + "\0";
            Scan(s, i, base, Wrapped(digits, base, i))
            == if Falls(digits, base, i) then (RANGE - 1, i, true) else Scan(s, i + 1, base, Wrapped(digits, base, i + 1))
  {
    hide Wrapped, Value;
    assert (Text(digits, upcase) + "\0")[i] == DigitChar(digits[i], upcase);
    DigitCharValue(digits[i], upcase);
    WrappedStep(digits, base, i);
  }

  lemma ScanEnd(digits: seq<nat>, base: nat, upcase: bool)
    requires 2 <= base <= 36 && AllDigits(digits, base) && AllDigits(digits, 36)
    ensures Scan(Text(digits, upcase) + "\0", |digits|, base, Wrapped(digits, base, |digits|))
            == (Value(digits, base) % RANGE, |digits|, false)
  {
    hide Value;
    assert digits[..|digits|] == digits;
    assert (Text(digits, upcase) + "\0")[|digits|] == '\0';
  }

  /**
   Main result. For every numeral without a leading zero, however long, strtoul returns its value modulo 2^64
   when that never falls from digit to digit, and otherwise reports an overflow at the first digit where it does.
   */
  lemma NumeralParsed(digits: seq<nat>, base: nat, upcase: bool)
    requires 2 <= base <= 36 && AllDigits(digits, base) && AllDigits(digits, 36) && digits != [] && digits[0] != 0
    ensures var (result, end) := Parsed(Text(digits, upcase) + "\0", base);
            if NeverFalls(digits, base, 0) then result == Value(digits, base) % RANGE && end == |digits|
            else result == RANGE - 1 && end < |digits| && Falls(digits, base, end) && forall j :: 0 <= j < end ==> !Falls(digits, base, j)
  {
    hide Scan, Value, Falls;
    var s := Text(digits, upcase) + "\0";
    assert s[0] == DigitChar(digits[0], upcase);
    DigitCharValue(digits[0], upcase);
    NothingRead(digits, base);
    ScanWrapped(digits, base, upcase, 0);
  }

  lemma NothingRead(digits: seq<nat>, base: nat)
    ensures Wrapped(digits, base, 0) == 0
  {
  }

  /** A number below 2^64 never falls, so it is read exactly. */
  lemma {:induction false} SmallNeverFalls(digits: seq<nat>, base: nat)
    requires base > 0 && Value(digits, base) < RANGE
    ensures NeverFalls(digits, base, 0)
  {
    forall j | 0 <= j < |digits| ensures !Falls(digits, base, j) {
      PrefixValue(digits, base, j + 1);
      PrefixValue(digits[..j + 1], base, j);
      assert digits[..j + 1][..j] == digits[..j];
    }
  }

  /** So strtoul is right exactly for numbers below 2^64, those that fall somewhere, and those that wrap to the largest number. */
  lemma StrtoulRightIff(digits: seq<nat>, base: nat, upcase: bool)
    requires 2 <= base <= 36 && AllDigits(digits, base) && AllDigits(digits, 36) && digits != [] && digits[0] != 0
    ensures var v := Value(digits, base);
            Parsed(Text(digits, upcase) + "\0", base).0 == (if v < RANGE then v else RANGE - 1)
            <==> v < RANGE || v % RANGE == RANGE - 1 || !NeverFalls(digits, base, 0)
  {
    hide Parsed, Value, Falls, NeverFalls, Text;
    NumeralParsed(digits, base, upcase);
    if Value(digits, base) < RANGE {
      SmallNeverFalls(digits, base);
    }
  }

  /** A number that it takes for 2^62: 2^61 with one more digit 0. */
  const MISSED: seq<nat> := [2, 3, 0, 5, 8, 4, 3, 0, 0, 9, 2, 1, 3, 6, 9, 3, 9, 5, 2, 0]

  lemma OverflowMissed()
    ensures Parsed("23058430092136939520\0", 10) == (0x4000_0000_0000_0000, 20)
    ensures AllDigits(MISSED, 10) && Value(MISSED, 10) == 0x2000_0000_0000_0000 * 10 >= RANGE
  {
    hide Parsed, NeverFalls, Value;
    MissedText();
    MissedValue();
    MissedNeverFalls();
    NumeralParsed(MISSED, 10, false);
  }

  lemma MissedText()
    ensures AllDigits(MISSED, 10) && Text(MISSED, false) + "\0" == "23058430092136939520\0"
  {
  }

  lemma MissedNeverFalls()
    ensures NeverFalls(MISSED, 10, 0)
  {
    var front := MISSED[..19];
    FrontOfMissed();
    MissedValue();
    SmallNeverFalls(front, 10);
    forall j | 0 <= j < 20 ensures !Falls(MISSED, 10, j) {
      hide Value;
      if j < 19 {
        assert !Falls(front, 10, j);
        assert front[..j] == MISSED[..j] && front[..j + 1] == MISSED[..j + 1];
      } else {
        assert MISSED[..20] == MISSED;
      }
    }
  }

  lemma MissedValue()
    ensures Value(MISSED, 10) == 0x2000_0000_0000_0000 * 10
  {
    FrontOfMissed();
    assert MISSED == MISSED[..19] + [0];
    ValueOfMore(MISSED[..19], 0, 10);
  }

  lemma ValueOfMore(s: seq<nat>, d: nat, base: nat)
    ensures Value(s + [d], base) == Value(s, base) * base + d
  {
    assert (s + [d])[..|s|] == s;
  }

  lemma FourDigits(s: seq<nat>, a: nat, b: nat, c: nat, d: nat)
    ensures Value(s + [a, b, c, d], 10) == Value(s, 10) * 10000 + a * 1000 + b * 100 + c * 10 + d
  {
    hide Value;
    ValueOfMore(s, a, 10);
    ValueOfMore(s + [a], b, 10);
    ValueOfMore(s + [a] + [b], c, 10);
    ValueOfMore(s + [a] + [b] + [c], d, 10);
    assert s + [a] + [b] + [c] + [d] == s + [a, b, c, d];
  }

  lemma FirstEight()
    ensures Value([2, 3, 0, 5, 8, 4, 3, 0], 10) == 23058430
  {
    assert Value([], 10) == 0;
    hide Value;
    FourDigits([], 2, 3, 0, 5);
    assert [] + [2, 3, 0, 5] == [2, 3, 0, 5];
    FourDigits([2, 3, 0, 5], 8, 4, 3, 0);
    assert [2, 3, 0, 5] + [8, 4, 3, 0] == [2, 3, 0, 5, 8, 4, 3, 0];
  }

  lemma NextEight(s: seq<nat>)
    requires Value(s, 10) == 23058430
    ensures Value(s + [0, 9, 2, 1] + [3, 6, 9, 3], 10) == 2305843009213693
  {
    hide Value;
    FourDigits(s, 0, 9, 2, 1);
    FourDigits(s + [0, 9, 2, 1], 3, 6, 9, 3);
  }

  lemma LastThree(s: seq<nat>)
    requires Value(s, 10) == 2305843009213693
    ensures Value(s + [9] + [5] + [2], 10) == 0x2000_0000_0000_0000
  {
    hide Value;
    ValueOfMore(s, 9, 10);
    ValueOfMore(s + [9], 5, 10);
    ValueOfMore(s + [9] + [5], 2, 10);
  }

  lemma FrontOfMissed()
    ensures Value(MISSED[..19], 10) == 0x2000_0000_0000_0000
  {
    hide Value;
    var s: seq<nat> := [2, 3, 0, 5, 8, 4, 3, 0];
    FirstEight();
    NextEight(s);
    LastThree(s + [0, 9, 2, 1] + [3, 6, 9, 3]);
    assert MISSED[..19] == s + [0, 9, 2, 1] + [3, 6, 9, 3] + [9] + [5] + [2];
  }
}
