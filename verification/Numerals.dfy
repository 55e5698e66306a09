/** Numbers as text: `my_itoa` (22-12-25/3-4.c), the recursive `printd` (24-12-25/4-12.c), `itob`
    (22-12-25/3-5.c) and `htoi` (18-12-25/2-3.c). A C string is an array of characters with a NUL after
    its text; an `int` has 32 bits, and where the C code lets it overflow it wraps. */
module Numerals {

  const INT_MIN: int := -0x8000_0000
  const INT_MAX: int := 0x7FFF_FFFF

  type Int32 = n: int | INT_MIN <= n <= INT_MAX

  /** C's division and remainder, which truncate towards zero. */
  function CDiv(n: int, d: int): int
    requires d > 0
  {
    if n >= 0 then n / d else -((-n) / d)
  }

  function CMod(n: int, d: int): int
    requires d > 0
  {
    if n >= 0 then n % d else -((-n) % d)
  }

  /** Two's complement wrap-around at 32 bits. */
  function Wrap(x: int): Int32 {
    (x + 0x8000_0000) % 0x1_0000_0000 - 0x8000_0000
  }

  /** C's division: the remainder completes the quotient, is less than the divisor, and has the dividend's sign. */
  lemma DivisionLaw(n: int, d: int)
    requires d > 0
    ensures n == CDiv(n, d) * d + CMod(n, d) && -d < CMod(n, d) < d
    ensures (n >= 0 ==> CMod(n, d) >= 0 && CDiv(n, d) >= 0) && (n <= 0 ==> CMod(n, d) <= 0 && CDiv(n, d) <= 0)
  {
    if n >= 0 {
      assert n == n / d * d + n % d;
    } else {
      assert -n == (-n) / d * d + (-n) % d;
    }
  }

  /** The wrapped number is the one of its class that an int can hold. */
  lemma WrapLaw(x: int)
    ensures -2147483648 <= Wrap(x) <= 2147483647 && (Wrap(x) - x) % 4294967296 == 0
    ensures -2147483648 <= x <= 2147483647 ==> Wrap(x) == x
  {
    var y := x + 2147483648;
    assert y == y / 4294967296 * 4294967296 + y % 4294967296;
    assert Wrap(x) - x == -(y / 4294967296) * 4294967296;
  }

  lemma MulAtLeast(x: int, b: int)
    requires x >= 1 && b >= 0
    ensures x * b >= b
  {
  }

  lemma DivMod(n: nat, base: nat)
    requires base >= 2
    ensures n == n / base * base + n % base
    ensures 0 <= n % base < base
    ensures 0 <= n / base
    ensures n >= 1 ==> n / base < n
    ensures n >= base ==> n / base >= 1
  {
  }

  lemma OneDivision(x: int, y: int, q: int, r: int, base: nat)
    requires x * base + y == q * base + r && 0 <= y < base && 0 <= r < base
    ensures x == q && y == r
  {
    assert (x - q) * base == r - y && (q - x) * base == y - r;
    if x > q {
      MulAtLeast(x - q, base);
    } else if x < q {
      MulAtLeast(q - x, base);
    }
  }

  lemma DivModBack(q: nat, base: nat, r: nat)
    requires base >= 2 && r < base
    ensures q * base + r >= 0 && (q * base + r) / base == q && (q * base + r) % base == r
  {
    assert q * base >= 0;
    var n := q * base + r;
    DivMod(n, base);
    OneDivision(n / base, n % base, q, r, base);
  }

  // ---------- texts ----------

  function Digit(d: nat): char
    requires d < 16
  {
    if d < 10 then '0' + d as char else 'A' + (d - 10) as char
  }

  /** The value of a digit character of either case, -1 for any other character. */
  function DigitValue(c: char): (d: int)
    ensures -1 <= d < 16
  {
    if '0' <= c <= '9' then (c - '0') as int
    else if 'a' <= c <= 'f' then (c - 'a') as int + 10
    else if 'A' <= c <= 'F' then (c - 'A') as int + 10
    else -1
  }

  /** The digits, written out; their values, in either case; and no other character has one. */
  lemma DigitListed(d: nat, c: char)
    requires d < 16
    ensures Digit(d) == "0123456789ABCDEF"[d]
    ensures DigitValue("0123456789ABCDEF"[d]) == DigitValue("0123456789abcdef"[d]) == d
    ensures DigitValue(c) >= 0 ==> c == "0123456789ABCDEF"[DigitValue(c)] || c == "0123456789abcdef"[DigitValue(c)]
  {
    DigitTexts();
  }

  lemma DigitTexts()
    ensures forall k | 0 <= k < 10 :: "0123456789ABCDEF"[k] as int == "0123456789abcdef"[k] as int == '0' as int + k
    ensures forall k | 10 <= k < 16 :: "0123456789ABCDEF"[k] as int == 'A' as int + k - 10
    ensures forall k | 10 <= k < 16 :: "0123456789abcdef"[k] as int == 'a' as int + k - 10
  {
  }

  lemma DigitOf(d: nat)
    requires d < 16
    ensures DigitValue(Digit(d)) == d && Digit(d) != '\0' && Digit(d) != '-'
    ensures Digit(d) == '0' <==> d == 0
  {
  }

  /** The digits of `n`, most significant first. */
  function Digits(n: nat, base: nat): (s: string)
    requires 2 <= base <= 16
    ensures s != ""
  {
    DivMod(n, base);
    if n < base then [Digit(n)] else Digits(n / base, base) + [Digit(n % base)]
  }

  function Text(n: int, base: nat): string
    requires 2 <= base <= 16
  {
    if n < 0 then "-" + Digits(-n, base) else Digits(n, base)
  }

  /** The number that a string of digits stands for. */
  function Value(s: string, base: nat): int {
    if s == "" then 0 else Value(s[..|s| - 1], base) * base + DigitValue(s[|s| - 1])
  }

  function ValueSigned(s: string, base: nat): int {
    if s != "" && s[0] == '-' then -Value(s[1..], base) else Value(s, base)
  }

  ghost predicate IsDigit(c: char, base: nat) {
    exists d :: 0 <= d < base && d < 16 && c == Digit(d)
  }

  /** The one way to write each number: digits of the base, upper case, no leading zero. */
  ghost predicate Canonical(s: string, base: nat) {
    && s != ""
    && (forall i | 0 <= i < |s| :: IsDigit(s[i], base))
    && (s[0] == '0' ==> |s| == 1)
  }

  /** The digits are canonical, and they stand for the number. */
  lemma {:induction false} DigitsOk(n: nat, base: nat)
    requires 2 <= base <= 16
    ensures Canonical(Digits(n, base), base)
    ensures Value(Digits(n, base), base) == n
    ensures n > 0 ==> Digits(n, base)[0] != '0'
  {
    hide Digit, DigitValue;
    DivMod(n, base);
    if n < base {
      DigitOf(n);
      assert Digits(n, base)[..0] == "";
      assert Value("", base) == 0;
    } else {
      DigitsOk(n / base, base);
      DigitOf(n % base);
      var s := Digits(n, base);
      assert s[..|s| - 1] == Digits(n / base, base);
      assert IsDigit(Digit(n % base), base);
    }
  }

  lemma MulGrows(v: nat, base: nat, d: nat)
    ensures v * base + d >= 0
    ensures base >= 2 && v >= 1 ==> v * base + d >= base
  {
    if v >= 1 { MulAtLeast(v, base); }
  }

  lemma {:induction false} NoValueBelowZero(s: string, base: nat)
    requires base >= 2
    requires forall i | 0 <= i < |s| :: IsDigit(s[i], base)
    ensures Value(s, base) >= 0
    ensures s != "" && s[0] != '0' ==> Value(s, base) >= 1
  {
    if s != "" {
      hide Digit, DigitValue;
      assert IsDigit(s[|s| - 1], base);
      var d: int :| 0 <= d < base && d < 16 && s[|s| - 1] == Digit(d);
      DigitOf(d);
      var front := s[..|s| - 1];
      NoValueBelowZero(front, base);
      MulGrows(Value(front, base), base, d);
      if |s| == 1 { assert Value(front, base) == 0; }
    }
  }

  /** No other canonical text stands for the same number. */
  lemma {:induction false} CanonicalUnique(s: string, base: nat)
    requires 2 <= base <= 16 && Canonical(s, base)
    ensures Value(s, base) >= 0 && Digits(Value(s, base), base) == s
    decreases |s|
  {
    hide Digit, DigitValue;
    NoValueBelowZero(s, base);
    var front := s[..|s| - 1];
    assert IsDigit(s[|s| - 1], base);
    var d: int :| 0 <= d < base && d < 16 && s[|s| - 1] == Digit(d);
    DigitOf(d);
    assert s == front + [Digit(d)];
    if front == "" {
      assert Value(front, base) == 0;
    } else {
      NoValueBelowZero(front, base);
      CanonicalUnique(front, base);
      var v := Value(front, base);
      DivModBack(v, base, d);
      MulGrows(v, base, d);
    }
  }

  /** The text reads back as the number, in every base. */
  lemma TextReadsBack(n: int, base: nat)
    requires 2 <= base <= 16
    ensures ValueSigned(Text(n, base), base) == n
  {
    hide Digit, DigitValue;
    if n < 0 {
      DigitsOk(-n, base);
      assert Text(n, base)[1..] == Digits(-n, base);
    } else {
      DigitsOk(n, base);
      var c := Digits(n, base)[0];
      assert IsDigit(c, base);
      var d :| 0 <= d < base && d < 16 && c == Digit(d);
      DigitOf(d);
    }
  }

  /** The value of a text, digit by digit; and two texts of numbers. */
  lemma ValueLaw(s: string, c: char, base: nat)
    ensures Value("", base) == 0 && Value(s + [c], base) == Value(s, base) * base + DigitValue(c)
  {
    assert (s + [c])[..|s|] == s;
  }

  lemma Texts()
    ensures Text(-120, 10) == "-120" && Text(0, 10) == "0" && Text(255, 16) == "FF" && Text(5, 2) == "101"
  {
    assert Digits(120, 10) == Digits(12, 10) + [Digit(0)] && Digits(12, 10) == Digits(1, 10) + [Digit(2)];
    assert Digits(1, 10) == [Digit(1)];
    assert [Digit(1)] + [Digit(2)] + [Digit(0)] == "120" && "-" + "120" == "-120";
    assert Digits(255, 16) == Digits(15, 16) + [Digit(15)] && Digits(15, 16) == [Digit(15)];
    assert [Digit(15)] + [Digit(15)] == "FF";
    assert Digits(5, 2) == Digits(2, 2) + [Digit(1)] && Digits(2, 2) == Digits(1, 2) + [Digit(0)];
    assert Digits(1, 2) == [Digit(1)] && [Digit(1)] + [Digit(0)] + [Digit(1)] == "101";
  }

  // ---------- what the digit loops write ----------

  function Backwards(s: string): string {
    if s == "" then "" else Backwards(s[1..]) + [s[0]]
  }

  /** The digits of `n` least significant first, none for zero. */
  function Emitted(n: nat, base: nat): string
    requires 2 <= base <= 16
  {
    DivMod(n, base);
    if n == 0 then "" else [Digit(n % base)] + Emitted(n / base, base)
  }

  lemma {:induction false} BackwardsConcat(a: string, b: string)
    ensures Backwards(a + b) == Backwards(b) + Backwards(a)
  {
    if a == "" {
      assert a + b == b;
    } else {
      assert (a + b)[1..] == a[1..] + b;
      BackwardsConcat(a[1..], b);
    }
  }

  lemma {:induction false} BackwardsAt(s: string, k: nat)
    requires k < |s|
    ensures |Backwards(s)| == |s| && Backwards(s)[k] == s[|s| - 1 - k]
  {
    if |s| > 1 {
      BackwardsAt(s[1..], if k < |s| - 1 then k else 0);
    }
  }

  lemma {:induction false} EmittedBackwards(n: nat, base: nat)
    requires 2 <= base <= 16 && n > 0
    ensures Backwards(Emitted(n, base)) == Digits(n, base)
  {
    hide Digit;
    DivMod(n, base);
    var d := [Digit(n % base)];
    BackwardsConcat(d, Emitted(n / base, base));
    assert Backwards(d) == d;
    if n >= base {
      EmittedBackwards(n / base, base);
    } else {
      assert n / base == 0 && n % base == n by { DivModBack(0, base, n); }
    }
  }

  /** What `reverse` makes of the emitted digits and the sign. */
  lemma SignedBackwards(n: int, base: nat)
    requires 2 <= base <= 16 && n > 0
    ensures Backwards(Emitted(n, base)) == Text(n, base)
    ensures Backwards(Emitted(n, base) + "-") == Text(-n, base)
    ensures |Emitted(n, base)| == |Text(n, base)| && |Emitted(n, base) + "-"| == |Text(-n, base)|
  {
    hide Digit, Digits;
    EmittedBackwards(n, base);
    BackwardsConcat(Emitted(n, base), "-");
    assert Backwards("-") == "-";
    if |Emitted(n, base)| > 0 { BackwardsAt(Emitted(n, base), 0); }
  }

  // ---------- C strings ----------

  /** The array holds `text` and a terminator. */
  ghost predicate Holds(s: array<char>, text: string)
    reads s
  {
    && |text| < s.Length
    && s[|text|] == '\0'
    && (forall k | 0 <= k < |text| :: s[k] == text[k] && text[k] != '\0')
  }

  /** The first `|text|` characters of the array. */
  ghost predicate Starts(s: array<char>, text: string)
    reads s
  {
    && |text| <= s.Length
    && (forall k | 0 <= k < |text| :: s[k] == text[k] && text[k] != '\0')
  }

  method Strlen(s: array<char>, ghost text: string) returns (n: nat)
    requires Holds(s, text)
    ensures n == |text|
  {
    n := 0;
    while s[n] != '\0'
      invariant n <= |text|
      decreases |text| - n
    {
      n := n + 1;
    }
  }

  lemma BackwardsHeld(s: array<char>, text: string)
    requires |text| < s.Length && s[|text|] == '\0'
    requires forall k | 0 <= k < |text| :: s[k] == text[|text| - 1 - k] && text[k] != '\0'
    ensures Holds(s, Backwards(text))
  {
    if text != "" { BackwardsAt(text, 0); }
    forall k | 0 <= k < |text| ensures Backwards(text)[k] == text[|text| - 1 - k] {
      BackwardsAt(text, k);
    }
  }

  /** `reverse` of 22-12-25/3-4.c and 3-5.c: two indices that meet. */
  method Reverse(s: array<char>, ghost text: string)
    requires Holds(s, text)
    modifies s
    ensures Holds(s, Backwards(text))
  {
    var j: int := Strlen(s, text);
    var i := 0;
    j := j - 1;
    while i < j
      invariant 0 <= i <= |text| && j == |text| - 1 - i && i <= j + 2
      invariant s[|text|] == '\0'
      invariant forall k | 0 <= k < i :: s[k] == text[|text| - 1 - k]
      invariant forall k | j < k < |text| :: s[k] == text[|text| - 1 - k]
      invariant forall k | i <= k <= j :: s[k] == text[k]
    {
      s[i], s[j] := s[j], s[i];
      i := i + 1;
      j := j - 1;
    }
    BackwardsHeld(s, text);
  }

  /** `reverse` of 24-12-25/4-12.c: the first half against the second. */
  method ReverseHalves(s: array<char>, ghost text: string)
    requires Holds(s, text)
    modifies s
    ensures Holds(s, Backwards(text))
  {
    var len := Strlen(s, text);
    var i := 0;
    while i < len / 2
      invariant 0 <= i <= len / 2
      invariant s[len] == '\0'
      invariant forall k | 0 <= k < i :: s[k] == text[len - 1 - k] && s[len - 1 - k] == text[k]
      invariant forall k | i <= k < len - i :: s[k] == text[k]
    {
      var t := s[i];
      s[i] := s[len - 1 - i];
      s[len - 1 - i] := t;
      i := i + 1;
    }
    forall k | 0 <= k < len ensures s[k] == text[len - 1 - k] {
      if k >= len - len / 2 { assert s[len - 1 - (len - 1 - k)] == text[len - 1 - k]; }
    }
    BackwardsHeld(s, text);
  }

  // ---------- itoa ----------

  lemma EmitStep(done: string, m: nat, whole: string, base: nat)
    requires 2 <= base <= 16 && m > 0 && done + Emitted(m, base) == whole
    ensures m / base >= 0 && done + [Digit(m % base)] + Emitted(m / base, base) == whole
    ensures |done| < |whole|
    ensures Digit(m % base) != '\0'
  {
    DivMod(m, base);
    DigitOf(m % base);
    hide Digit;
    assert Emitted(m, base) == [Digit(m % base)] + Emitted(m / base, base);
    assert done + ([Digit(m % base)] + Emitted(m / base, base)) == done + [Digit(m % base)] + Emitted(m / base, base);
  }

  lemma DecimalDigit(d: nat)
    requires d < 10
    ensures Digit(d) == '0' + d as char
  {
  }

  /** The loop for a positive number: its digits, the last one first. */
  method EmitPositive(n0: Int32, s: array<char>) returns (ptr: nat)
    requires n0 > 0 && |Emitted(n0, 10)| < s.Length
    modifies s
    ensures ptr == |Emitted(n0, 10)| && Starts(s, Emitted(n0, 10))
  {
    hide Digit, Emitted;
    var n: Int32 := n0;
    ghost var text := "";
    ptr := 0;
    assert "" + Emitted(n0, 10) == Emitted(n0, 10);
    while n > 0
      invariant n >= 0 && ptr == |text|
      invariant text + Emitted(n, 10) == Emitted(n0, 10)
      invariant Starts(s, text)
    {
      EmitStep(text, n, Emitted(n0, 10), 10);
      DecimalDigit(n % 10);
      text := text + [Digit(n % 10)];
      s[ptr] := '0' + CMod(n, 10) as char;
      ptr := ptr + 1;
      n := CDiv(n, 10);
    }
    EmittedNone(10);
    assert text + "" == text;
  }

  /** The loop for a negative one, which never negates the number itself. */
  method EmitNegative(n0: Int32, s: array<char>) returns (ptr: nat)
    requires n0 < 0 && |Emitted(Magnitude(n0), 10)| < s.Length
    modifies s
    ensures ptr == |Emitted(Magnitude(n0), 10)| && Starts(s, Emitted(Magnitude(n0), 10))
  {
    hide Digit, Emitted;
    var n: Int32 := n0;
    ghost var text, whole := "", Emitted(Magnitude(n0), 10);
    ptr := 0;
    assert "" + whole == whole;
    while n < 0
      invariant n <= 0 && ptr == |text|
      invariant text + Emitted(Magnitude(n), 10) == whole
      invariant Starts(s, text)
    {
      EmitStep(text, Magnitude(n), whole, 10);
      DecimalDigit(Magnitude(n) % 10);
      text := text + [Digit(Magnitude(n) % 10)];
      var digit: Int32 := CMod(n, 10) * -1;
      s[ptr] := '0' + digit as char;
      ptr := ptr + 1;
      n := CDiv(n, 10);
    }
    EmittedNone(10);
    assert text + "" == text;
  }

  /** `my_itoa` writes the canonical decimal text of every int, the least one included; no value on the
      way leaves the range of an int. */
  method MyItoa(n0: Int32, s: array<char>)
    requires |Text(n0, 10)| < s.Length
    modifies s
    ensures Holds(s, Text(n0, 10))
  {
    hide Digit, Digits, Emitted, Backwards;
    var ptr := 0;
    ghost var text := "";
    if n0 > 0 {
      SignedBackwards(n0, 10);
      ptr := EmitPositive(n0, s);
      text := Emitted(n0, 10);
      s[ptr] := '\0';
    } else if n0 < 0 {
      SignedBackwards(Magnitude(n0), 10);
      ptr := EmitNegative(n0, s);
      text := Emitted(Magnitude(n0), 10) + "-";
      s[ptr] := '-';
      ptr := ptr + 1;
      s[ptr] := '\0';
    } else {
      ZeroText(10);
      text := "0";
      s[ptr] := '0';
      ptr := ptr + 1;
      s[ptr] := '\0';
    }
    Reverse(s, text);
  }

  lemma EmittedNone(base: nat)
    requires 2 <= base <= 16
    ensures Emitted(0, base) == ""
  {
  }

  lemma ZeroText(base: nat)
    requires 2 <= base <= 16
    ensures Text(0, base) == "0" == Backwards("0")
  {
    assert "0"[1..] == "";
  }

  /** The recursion of `my_printd`: it writes the digits of `n` from index `i` on, and a terminator. */
  method MyPrintd(n: Int32, s: array<char>, i: nat) returns (j: nat)
    requires i + |Emitted(Magnitude(n), 10)| < s.Length
    modifies s
    ensures j == i + |Emitted(Magnitude(n), 10)|
    ensures s[j] == '\0'
    ensures forall k | 0 <= k < i :: s[k] == old(s[k])
    ensures forall k | i <= k < j :: s[k] == Emitted(Magnitude(n), 10)[k - i]
    decreases Magnitude(n)
  {
    hide Digit;
    if n == 0 {
      s[i] := '\0';
      return i;
    }
    var m := Magnitude(n);
    DivMod(m, 10);
    DecimalDigit(m % 10);
    assert Emitted(m, 10) == [Digit(m % 10)] + Emitted(m / 10, 10);
    s[i] := if CMod(n, 10) < 0 then '0' + (-CMod(n, 10)) as char else '0' + CMod(n, 10) as char;
    j := MyPrintd(CDiv(n, 10), s, i + 1);
  }

  function Magnitude(n: int): nat {
    if n < 0 then -n else n
  }

  lemma {:induction false} EmittedPrintable(n: nat, base: nat, k: nat)
    requires 2 <= base <= 16 && k < |Emitted(n, base)|
    ensures Emitted(n, base)[k] != '\0'
  {
    DivMod(n, base);
    DigitOf(n % base);
    hide Digit;
    if k > 0 { EmittedPrintable(n / base, base, k - 1); }
  }

  /** The recursive `printd` writes the same text as `my_itoa`, for every int. */
  method Printd(n: Int32, s: array<char>)
    requires |Text(n, 10)| < s.Length
    modifies s
    ensures Holds(s, Text(n, 10))
  {
    hide Digit, Digits, Emitted, Backwards;
    if n == 0 {
      ZeroText(10);
      s[0] := '0';
      s[1] := '\0';
      return;
    }
    var m := Magnitude(n);
    SignedBackwards(m, 10);
    ghost var text := Emitted(m, 10);
    var i := MyPrintd(n, s, 0);
    forall k | 0 <= k < |text| ensures text[k] != '\0' { EmittedPrintable(m, 10, k); }
    if n < 0 {
      text := text + "-";
      s[i] := '-';
      i := i + 1;
    }
    s[i] := '\0';
    ReverseHalves(s, text);
  }

  // ---------- itob ----------

  /** The text that `itob` writes: `-n` wraps for the least int, and then no digit is written. */
  function ItobText(n: Int32, base: nat): string
    requires 2 <= base <= 16
  {
    if n == INT_MIN then "-" else Text(n, base)
  }

  /** `itob` writes that text for a base from 2 to 16, and nothing otherwise. */
  method Itob(n0: Int32, s: array<char>, base: int)
    requires 2 <= base <= 16 ==> |ItobText(n0, base)| < s.Length
    modifies s
    ensures 2 <= base <= 16 ==> Holds(s, ItobText(n0, base))
    ensures !(2 <= base <= 16) ==> s[..] == old(s[..])
  {
    hide Digit, Digits, Emitted, Backwards;
    if base >= 2 && base <= 16 {
      var ptr := 0;
      var n: Int32 := n0;
      ghost var text := "";
      ghost var magnitude: int := Magnitude(n0);
      if n == 0 {
        s[ptr] := '0';
        ptr := ptr + 1;
        text := "0";
        ZeroText(base);
      } else {
        SignedBackwards(magnitude, base);
      }
      var sign := n;
      if n < 0 {
        n := Wrap(0 - n);
      }
      if n > 0 {
        ptr := ItobDigits(n, s, base);
        text := Emitted(n, base);
      }
      if sign < 0 {
        text := text + "-";
        s[ptr] := '-';
        ptr := ptr + 1;
        if n0 == INT_MIN {
          assert text == "-";
          BackwardsAt("-", 0);
        } else {
          assert text == Emitted(magnitude, base) + "-";
        }
      }
      s[ptr] := '\0';
      assert Backwards(text) == ItobText(n0, base);
      Reverse(s, text);
    }
  }

  /** The loop of `itob`, which starts at index 0 whenever it has a digit to write. */
  method ItobDigits(n0: Int32, s: array<char>, base: nat) returns (ptr: nat)
    requires 2 <= base <= 16 && n0 > 0 && |Emitted(n0, base)| < s.Length
    modifies s
    ensures ptr == |Emitted(n0, base)|
    ensures Starts(s, Emitted(n0, base))
  {
    hide Digit, Emitted;
    ptr := 0;
    var n: Int32 := n0;
    ghost var text := "";
    ghost var whole := Emitted(n0, base);
    assert "" + whole == whole;
    while n > 0
      invariant n >= 0 && ptr == |text|
      invariant text + Emitted(n, base) == whole
      invariant Starts(s, text)
    {
      DivMod(n, base);
      EmitStep(text, n, whole, base);
      var c: Int32 := CMod(n, base);
      WriteDigit(s, ptr, c);
      text := text + [Digit(c)];
      ptr := ptr + 1;
      n := CDiv(n, base);
    }
    EmittedNone(base);
    assert text + "" == text;
  }

  method WriteDigit(s: array<char>, ptr: nat, c: int)
    requires ptr < s.Length && 0 <= c < 16
    modifies s
    ensures s[ptr] == Digit(c)
    ensures forall k | 0 <= k < s.Length && k != ptr :: s[k] == old(s[k])
  {
    if c > 9 {
      s[ptr] := (c - 10) as char + 'A';
    } else {
      s[ptr] := c as char + '0';
    }
  }

  /** `itob` can be undone exactly above the least int. */
  lemma ItobExactly(n: Int32, base: nat)
    requires 2 <= base <= 16
    ensures ValueSigned(ItobText(n, base), base) == n <==> n != -2147483648
    ensures n == -2147483648 ==> ItobText(n, base) == "-"
  {
    if n == INT_MIN {
      assert "-"[1..] == "";
      assert Value("", base) == 0;
    } else {
      TextReadsBack(n, base);
    }
  }

  // ---------- htoi ----------

  function Power(base: nat, k: nat): nat {
    if k == 0 then 1 else base * Power(base, k - 1)
  }

  ghost predicate AllHex(s: string) {
    forall i | 0 <= i < |s| :: DigitValue(s[i]) >= 0
  }

  /** What `htoi` is to answer: -1 unless the text is 0x or 0X and hexadecimal digits, else their value,
      wrapped to an int. */
  ghost function Hex(s: string): Int32 {
    if |s| > 2 && s[0] == '0' && (s[1] == 'x' || s[1] == 'X') && AllHex(s[2..]) then Wrap(Value(s[2..], 16)) else -1
  }

  /** Which texts `htoi` takes, and what for. */
  lemma HexIs(d: string, s: string)
    ensures d != "" && (forall i | 0 <= i < |d| :: d[i] in "0123456789ABCDEF" || d[i] in "0123456789abcdef") ==>
              Hex("0x" + d) == Hex("0X" + d) == Wrap(Value(d, 16))
    ensures |s| <= 2 || s[0] != '0' || s[1] !in "xX" ==> Hex(s) == -1
    ensures (exists i | 2 <= i < |s| :: s[i] !in "0123456789ABCDEF" && s[i] !in "0123456789abcdef") ==> Hex(s) == -1
  {
    HexTaken(d);
    if i :| 2 <= i < |s| && s[i] !in "0123456789ABCDEF" && s[i] !in "0123456789abcdef" {
      DigitIn(s[i]);
      hide DigitValue, Value, Wrap;
      assert s[2..][i - 2] == s[i];
    }
    hide DigitValue, Value, Wrap, AllHex;
  }

  lemma HexTaken(d: string)
    ensures d != "" && (forall i | 0 <= i < |d| :: d[i] in "0123456789ABCDEF" || d[i] in "0123456789abcdef") ==>
              Hex("0x" + d) == Hex("0X" + d) == Wrap(Value(d, 16))
  {
    var x, y := "0x" + d, "0X" + d;
    assert x[2..] == d && y[2..] == d && x[0] == y[0] == '0' && x[1] == 'x' && y[1] == 'X';
    forall i | 0 <= i < |d| && (d[i] in "0123456789ABCDEF" || d[i] in "0123456789abcdef")
      ensures DigitValue(d[i]) >= 0
    {
      DigitIn(d[i]);
    }
    hide DigitValue, Value, Wrap;
  }

  lemma DigitIn(c: char)
    ensures DigitValue(c) >= 0 <==> c in "0123456789ABCDEF" || c in "0123456789abcdef"
  {
    var upper, lower := "0123456789ABCDEF", "0123456789abcdef";
    if DigitValue(c) >= 0 {
      DigitListed(DigitValue(c), c);
    } else if d :| 0 <= d < 16 && (c == upper[d] || c == lower[d]) {
      DigitListed(d, c);
    }
  }

  lemma {:induction false} ValueHead(s: string, base: nat)
    requires s != ""
    ensures Value(s, base) == DigitValue(s[0]) * Power(base, |s| - 1) + Value(s[1..], base)
  {
    hide DigitValue;
    var last := DigitValue(s[|s| - 1]);
    if |s| == 1 {
      assert s[..0] == "" && s[1..] == "";
      assert Value(s, base) == Value("", base) * base + last;
    } else {
      var front := s[..|s| - 1];
      ValueHead(front, base);
      assert front[1..] == s[1..][..|s| - 2];
      assert front[0] == s[0];
      assert Value(s, base) == Value(front, base) * base + last;
      assert Value(s[1..], base) == Value(front[1..], base) * base + last;
      assert Power(base, |s| - 1) == base * Power(base, |s| - 2);
      hide Value, Power;
      Distribute(DigitValue(s[0]), Power(base, |s| - 2), Value(front[1..], base), base, last);
    }
  }

  lemma Distribute(d: int, p: int, v: int, base: int, last: int)
    ensures (d * p + v) * base + last == d * (base * p) + (v * base + last)
  {
  }

  lemma WrapSame(x: int, q: int)
    ensures Wrap(x + q * 0x1_0000_0000) == Wrap(x)
  {
    var y := x + 0x8000_0000;
    assert (y + q * 0x1_0000_0000) % 0x1_0000_0000 == y % 0x1_0000_0000;
  }

  lemma WrapParts(x: int) returns (q: int)
    ensures Wrap(x) == x + q * 0x1_0000_0000
  {
    q := -((x + 0x8000_0000) / 0x1_0000_0000);
  }

  /** Wrapping on the way does not change the wrapped result. */
  lemma WrapMulAdd(a: int, d: int, b: int)
    ensures Wrap(Wrap(b) + Wrap(Wrap(a) * d)) == Wrap(b + a * d)
  {
    var qa := WrapParts(a);
    var qb := WrapParts(b);
    var qp := WrapParts(Wrap(a) * d);
    hide Wrap;
    var m := 0x1_0000_0000;
    assert Wrap(a) * d == a * d + (qa * d) * m by {
      assert (a + qa * m) * d == a * d + (qa * d) * m;
    }
    assert Wrap(b) + Wrap(Wrap(a) * d) == (b + a * d) + (qb + qa * d + qp) * m;
    WrapSame(b + a * d, qb + qa * d + qp);
  }

  lemma WrapMul(a: int, d: int)
    ensures Wrap(Wrap(a) * d) == Wrap(a * d)
  {
    WrapMulAdd(a, d, 0);
    hide Wrap;
    var q := WrapParts(Wrap(a) * d);
    WrapZero();
    WrapSame(Wrap(a) * d, q);
  }

  lemma WrapZero()
    ensures Wrap(0) == 0
  {
  }

  function ToUpper(c: char): char {
    if 'a' <= c <= 'z' then c - 'a' + 'A' else c
  }

  /** One digit of the scan. */
  method HexDigit(c: char) returns (d: int)
    ensures d == DigitValue(c)
  {
    if '0' <= c <= '9' {
      d := (c - '0') as int;
    } else if 'A' <= ToUpper(c) <= 'F' {
      d := (ToUpper(c) - 'A') as int + 10;
    } else {
      d := -1;
    }
  }

  method Htoi(str: string) returns (res: Int32)
    ensures res == Hex(str)
  {
    hide DigitValue, Wrap, Value;
    var len := |str|;
    if len > 2 && str[0] == '0' && (str[1] == 'x' || str[1] == 'X') {
      ghost var digits := str[2..];
      var val: Int32 := 1;
      res := 0;
      ghost var weight := 1;
      ghost var sum := 0;
      var i := len - 1;
      HexBase(digits);
      while i >= 2
        invariant 1 <= i < len
        invariant weight == Power(16, len - 1 - i) && val == Wrap(weight)
        invariant sum == Value(digits[i - 1..], 16) && res == Wrap(sum)
        invariant AllHex(digits[i - 1..])
      {
        assert digits[i - 2..][1..] == digits[i - 1..];
        assert digits[i - 2..][0] == str[i];
        var d := HexDigit(str[i]);
        if d < 0 {
          assert DigitValue(digits[i - 2]) < 0;
          return -1;
        }
        ValueHead(digits[i - 2..], 16);
        WrapMulAdd(weight, d, sum);
        WrapMul(weight, 16);
        assert val * 16 == Wrap(weight) * 16;
        res := Wrap(res + Wrap(val * d));
        sum := sum + weight * d;
        val := Wrap(val * 16);
        weight := 16 * weight;
        i := i - 1;
      }
      assert digits[0..] == digits;
    } else {
      res := -1;
    }
  }

  lemma HexBase(digits: string)
    ensures digits[|digits|..] == "" && Value("", 16) == 0 && Power(16, 0) == 1 && Wrap(0) == 0 && Wrap(1) == 1
  {
  }

  /** `htoi` undoes `itob` in base 16, after "0x", for every nonnegative int. */
  lemma HexOfItob(n: Int32)
    requires n >= 0
    ensures Hex("0x" + ItobText(n, 16)) == n
  {
    var s := "0x" + ItobText(n, 16);
    assert s[2..] == Digits(n, 16);
    DigitsOk(n, 16);
    hide Digit, DigitValue;
    forall i | 0 <= i < |s[2..]| ensures DigitValue(s[2..][i]) >= 0 {
      assert IsDigit(s[2..][i], 16);
      var d :| 0 <= d < 16 && s[2..][i] == Digit(d);
      DigitOf(d);
    }
  }

  /** A hexadecimal text is read as its value exactly when that fits an int. */
  lemma HexExactly(s: string)
    requires s != "" && AllHex(s)
    ensures Hex("0x" + s) == Value(s, 16) <==> Value(s, 16) <= INT_MAX
  {
    assert ("0x" + s)[2..] == s;
    HexNotNegative(s);
  }

  function Zeros(k: nat): string {
    seq(k, _ => '0')
  }

  lemma {:induction false} EightZeros(k: nat)
    ensures Value("8" + Zeros(k), 16) == 8 * Power(16, k) && AllHex("8" + Zeros(k))
  {
    if k == 0 {
      assert "8" + Zeros(0) == "8";
      assert Value("8", 16) == Value("", 16) * 16 + 8;
    } else {
      EightZeros(k - 1);
      assert ("8" + Zeros(k))[..k] == "8" + Zeros(k - 1);
    }
  }

  /** Eight digits whose value comes out negative. */
  lemma HexWraps() returns (s: string)
    ensures |s| == 8 && AllHex(s) && Value(s, 16) == 0x8000_0000 && Hex("0x" + s) == -0x8000_0000
  {
    s := "8" + Zeros(7);
    EightZeros(7);
    assert Power(16, 7) == 0x1000_0000 by {
      assert Power(16, 3) == 4096;
      assert Power(16, 5) == 256 * Power(16, 3);
      assert Power(16, 7) == 256 * Power(16, 5);
    }
    assert ("0x" + s)[2..] == s;
    hide Value, Power, Zeros;
  }

  lemma HexNotNegative(s: string)
    requires AllHex(s)
    ensures Value(s, 16) >= 0
  {
    if s != "" {
      HexNotNegative(s[..|s| - 1]);
    }
  }
}
