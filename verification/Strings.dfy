/** Printing and parsing numbers in NUL-terminated character buffers (src/klibc/string.c). */
module Strings {
  import opened Memory
  import opened Bits

  type CChar = c: char | c as int < 0x100 witness '0'
  type Int32 = v: int | -0x8000_0000 <= v < 0x8000_0000

  /** The signed value C gives a char. */
  function CharValue(c: CChar): int { if c as int < 0x80 then c as int else c as int - 0x100 }

  /** A 32-bit word read as a signed number. */
  function Signed(w: Word): Int32 { if w < 0x8000_0000 then w else w - 0x1_0000_0000 }

  // ----- Numerals -----

  const DIGITS: string := "zyxwvutsrqponmlkjihgfedcba9876543210123456789abcdefghijklmnopqrstuvwxyz"

  type Base = b: int | 2 <= b <= 36 witness 10

  function Digit(d: int): (c: CChar)
    requires 0 <= d < 36
    ensures c != '\0' && (c == '0' <==> d == 0)
  {
    DIGITS[35 + d]
  }

  function DigitValue(c: CChar): Option<nat> {
    if '0' <= c <= '9' then Some(c as int - '0' as int)
    else if 'a' <= c <= 'z' then Some(c as int - 'a' as int + 10)
    else None
  }

  lemma DigitReads(d: int)
    requires 0 <= d < 36
    ensures DigitValue(Digit(d)) == Some(d)
    ensures d < 10 ==> Digit(d) as int == '0' as int + d
  {
    if d < 10 {
      assert Digit(d) as int == '0' as int + d;
    } else {
      assert Digit(d) as int == 'a' as int + (d - 10);
    }
  }

  lemma DigitUnique(c: CChar, d: int)
    requires DigitValue(c) == Some(d)
    ensures 0 <= d < 36 && Digit(d) == c
  {
    assert 0 <= d < 36;
    DigitReads(d);
  }

  /** The digits of n, highest first. */
  function Numeral(n: nat, base: Base): (s: seq<CChar>)
    ensures s != []
  {
    if n < base then [Digit(n)] else Shrinks(n, base); Numeral(n / base, base) + [Digit(n % base)]
  }

  lemma AtLeast(base: Base, k: nat)
    ensures base * k >= 2 * k && (k >= 1 ==> base * k >= base)
  {
  }

  /** A quotient and a remainder are determined by what they add up to. */
  lemma Joined(n: nat, h: nat, d: nat, base: Base)
    requires d < base && n == h * base + d
    ensures n / base == h && n % base == d
    ensures h > 0 ==> n >= base
  {
    Bits.Quotient(n, base, h, d);
    AtLeast(base, h);
  }

  lemma Shrinks(n: nat, base: Base)
    ensures n > 0 ==> n / base < n
    ensures 2 * (n / base) <= n && 0 <= n % base < base && n == n / base * base + n % base
    ensures n / base == 0 <==> n < base
  {
    Divided(n, base);
    AtLeast(base, n / base);
  }

  predicate IsNumeral(s: seq<CChar>, base: Base) { forall i :: 0 <= i < |s| ==> IsDigit(s[i], base) }

  predicate IsDigit(c: CChar, base: Base) { DigitValue(c).Some? && DigitValue(c).value < base }

  /** The number a digit string denotes. */
  function Eval(s: seq<CChar>, base: Base): nat
    requires IsNumeral(s, base)
  {
    if s == [] then 0
    else
      assert IsDigit(s[|s| - 1], base);
      Eval(s[..|s| - 1], base) * base + DigitValue(s[|s| - 1]).value
  }

  /** Printing then evaluating is the identity, and no numeral but that of zero starts with the digit 0. */
  lemma {:induction false} NumeralEvaluates(n: nat, base: Base)
    ensures IsNumeral(Numeral(n, base), base) && Eval(Numeral(n, base), base) == n
    ensures Numeral(n, base)[0] == '0' ==> n == 0 && Numeral(n, base) == ['0']
    decreases n
  {
    hide DigitValue, Digit;
    Shrinks(n, base);
    DigitReads(n % base);
    if n < base {
      Joined(n, 0, n, base);
      EvalAppend([], Digit(n), base);
      assert Numeral(n, base) == [] + [Digit(n)];
    } else {
      NumeralEvaluates(n / base, base);
      EvalAppend(Numeral(n / base, base), Digit(n % base), base);
    }
  }

  lemma EvalAppend(high: seq<CChar>, last: CChar, base: Base)
    requires IsNumeral(high, base) && IsDigit(last, base)
    ensures IsNumeral(high + [last], base)
            && Eval(high + [last], base) == Eval(high, base) * base + DigitValue(last).value
  {
    assert (high + [last])[..|high|] == high;
  }

  /** Without leading zeros there is only one way to write a number. */
  lemma {:induction false} NumeralUnique(s: seq<CChar>, base: Base)
    requires s != [] && IsNumeral(s, base) && (s[0] == '0' ==> |s| == 1)
    ensures Numeral(Eval(s, base), base) == s
    decreases |s|
  {
    hide DigitValue, Digit;
    var high, last := s[..|s| - 1], s[|s| - 1];
    assert IsDigit(last, base);
    DigitUnique(last, DigitValue(last).value);
    if high == [] {
      assert s == [last] && Eval(s, base) == DigitValue(last).value;
    } else {
      NumeralUnique(high, base);
      NumeralStep(Eval(s, base), Eval(high, base), DigitValue(last).value, base);
      assert s == high + [last];
    }
  }

  lemma NumeralStep(n: nat, h: nat, d: nat, base: Base)
    requires d < base && n == h * base + d && Numeral(h, base)[0] != '0'
    ensures Numeral(n, base) == Numeral(h, base) + [Digit(d)]
  {
    Joined(n, h, d, base);
  }

  /** At most one character a bit. */
  lemma {:induction false} NumeralLength(n: nat, base: Base, bits: nat)
    requires 1 <= bits && n < Pow2(bits)
    ensures |Numeral(n, base)| <= bits
    decreases bits
  {
    if n >= base {
      Shrinks(n, base);
      assert Pow2(bits) == 2 * Pow2(bits - 1) && Pow2(0) == 1;
      NumeralLength(n / base, base, bits - 1);
    }
  }

  /** A 33-byte buffer takes any 32-bit word in any base. */
  lemma WordFits(w: Word, base: Base)
    ensures |Numeral(w, base)| <= 32
  {
    assert Pow2(8) == 0x100;
    assert Pow2(16) == 0x1_0000;
    assert Pow2(24) == 0x100_0000;
    assert Pow2(32) == 0x1_0000_0000;
    NumeralLength(w, base, 32);
  }

  // ----- Text in a buffer -----

  function Rev<T>(s: seq<T>): (r: seq<T>)
    ensures |r| == |s|
  {
    seq(|s|, i requires 0 <= i < |s| => s[|s| - 1 - i])
  }

  predicate NoNul(s: seq<CChar>) { forall i :: 0 <= i < |s| ==> s[i] != '\0' }

  /** The buffer holds exactly that text and its terminator. */
  predicate IsText(buf: seq<CChar>, s: seq<CChar>) {
    |s| < |buf| && buf[..|s|] == s && buf[|s|] == '\0' && NoNul(s)
  }

  method StrLen(str: array<CChar>, ghost text: seq<CChar>) returns (len: nat)
    requires IsText(str[..], text)
    ensures len == |text|
  {
    len := 0;
    while str[len] != '\0'
      invariant 0 <= len <= |text|
      decreases |text| - len
    {
      assert len < |text|;
      len := len + 1;
    }
  }

  /** The two-index swapping loop over the first n characters. */
  method SwapEnds(str: array<CChar>, n: nat)
    requires n <= str.Length
    modifies str
    ensures str[..] == Rev(old(str[..n])) + old(str[n..])
  {
    var i, j := 0, n;
    while i + 1 < j
      invariant 0 <= i <= j <= n && i + j == n
      invariant forall k :: 0 <= k < i ==> str[k] == old(str[n - 1 - k])
      invariant forall k :: j <= k < n ==> str[k] == old(str[n - 1 - k])
      invariant forall k :: i <= k < j ==> str[k] == old(str[k])
      invariant forall k :: n <= k < str.Length ==> str[k] == old(str[k])
    {
      str[i], str[j - 1] := str[j - 1], str[i];
      i, j := i + 1, j - 1;
    }
  }

  method Reverse(str: array<CChar>, ghost text: seq<CChar>)
    requires IsText(str[..], text)
    modifies str
    ensures IsText(str[..], Rev(text)) && str[|text|..] == old(str[|text|..])
  {
    var len := StrLen(str, text);
    SwapEnds(str, len);
  }

  // ----- Printing -----

  /** The digits of v, or nothing when there is nothing left to write. */
  function Rest(v: nat, base: Base): seq<CChar> { if v == 0 then [] else Numeral(v, base) }

  /** Digits written lowest first, with v still to be written. */
  predicate Written(n: nat, base: Base, v: nat, low: seq<CChar>) {
    Numeral(n, base) == Rest(v, base) + Rev(low)
  }

  lemma NumeralSplit(v: nat, base: Base)
    ensures 0 <= v % base < base && v / base >= 0 && Numeral(v, base) == Rest(v / base, base) + [Digit(v % base)]
  {
    hide Digit;
    Shrinks(v, base);
    if v < base { Small(v, base); }
  }

  lemma WriteDigit(n: nat, base: Base, v: nat, low: seq<CChar>)
    requires (v > 0 || n == 0) && (if n == v then low == [] else Written(n, base, v, low))
    ensures 0 <= v % base < base && v / base >= 0 && Written(n, base, v / base, low + [Digit(v % base)])
    ensures |low| < |Numeral(n, base)|
  {
    NumeralSplit(v, base);
    var d, q := Digit(v % base), v / base;
    hide Numeral, Digit;
    RevSnoc(low, d);
    assert Numeral(n, base) == Numeral(v, base) + Rev(low);
    hide Rest, Rev;
    Regroup(Rest(q, base), [d], Rev(low));
  }

  lemma RevSnoc(s: seq<CChar>, c: CChar)
    ensures Rev(s + [c]) == [c] + Rev(s) && (s == [] ==> Rev(s) == [])
  {
  }

  lemma Regroup(a: seq<CChar>, b: seq<CChar>, c: seq<CChar>)
    ensures a + b + c == a + (b + c)
  {
  }

  lemma Small(v: nat, base: Base)
    requires v < base
    ensures v / base == 0 && v % base == v
  {
    Joined(v, 0, v, base);
  }


  /** The quotient of an unsigned word by a base fits a signed word. */
  function Quotient(u: Word, base: Base): (q: Word)
    ensures q < 0x8000_0000 && q == u / base
  {
    Shrinks(u, base);
    u / base
  }

  /** Where _vtoa finds the digit for a value and its quotient, in unsigned arithmetic. */
  function DigitIndex(v: Int32, v': Int32, base: Base): Word { Wrap(35 + Wrap(v) - Wrap(v') * base) }

  lemma NumeralNoNul(n: nat, base: Base)
    ensures NoNul(Numeral(n, base)) && NoNul(Rev(Numeral(n, base)))
  {
    NumeralEvaluates(n, base);
    var s := Numeral(n, base);
    forall i | 0 <= i < |s| ensures s[i] != '\0' {
      assert IsDigit(s[i], base);
    }
  }

  lemma IndexReads(v: Int32, base: Base)
    ensures var u := Wrap(v); var v' := Signed(Quotient(u, base));
            && Wrap(v') == Quotient(u, base) && 0 <= u % base < base && DigitIndex(v, v', base) == 35 + u % base
            && (v' != 0 ==> 0 < Wrap(v') < Wrap(v)) && (v' == 0 ==> 0 <= v)
  {
    var u := Wrap(v);
    Shrinks(u, base);
    assert Signed(Quotient(u, base)) == Quotient(u, base);
  }

  /** One turn of _vtoa's loop on the signed value v. */
  lemma VtoaStep(n: nat, base: Base, v: Int32, low: seq<CChar>)
    requires (Wrap(v) > 0 || n == 0) && (if n == Wrap(v) then low == [] else Written(n, base, Wrap(v), low))
    ensures var v' := Signed(Quotient(Wrap(v), base)); var at := DigitIndex(v, v', base);
            && Wrap(v') == Wrap(v) / base
            && 35 <= at < |DIGITS| && Written(n, base, Wrap(v'), low + [DIGITS[at]])
            && (v' != 0 ==> 0 < Wrap(v') < Wrap(v)) && (v' == 0 ==> 0 <= v)
    ensures |low| < |Numeral(n, base)|
  {
    hide DigitIndex, Numeral, Written, Signed, Wrap;
    IndexReads(v, base);
    WriteDigit(n, base, Wrap(v), low);
  }

  /** Whatever the sign, _vtoa prints the unsigned value: the division is unsigned, and the last value divided is
      below the base, so the minus sign is never written. */
  method Vtoa(result: array<CChar>, base: Base, value: Int32)
    requires |Numeral(Wrap(value), base)| < result.Length
    modifies result
    ensures IsText(result[..], Numeral(Wrap(value), base))
  {
    hide Numeral, Digit, DigitIndex, Signed;
    ghost var n := Wrap(value);
    var v, tmp, k := value, value, 0;
    while true
      invariant 0 <= k <= |Numeral(n, base)|
      invariant if k == 0 then Wrap(v) == n else 0 < Wrap(v) < n && Written(n, base, Wrap(v), result[..k])
      decreases Wrap(v)
    {
      tmp := v;
      ghost var low := result[..k];
      VtoaStep(n, base, v, low);
      v := Signed(Quotient(Wrap(v), base));
      result[k] := DIGITS[DigitIndex(tmp, v, base)];
      k := k + 1;
      assert result[..k] == low + [result[k - 1]];
      if v == 0 { break; }
    }
    assert tmp >= 0;
    NumeralNoNul(n, base);
    Finish(result, k, Numeral(n, base));
  }

  /** Terminates and turns round digits written lowest first. */
  method Finish(str: array<CChar>, k: nat, ghost numeral: seq<CChar>)
    requires k < str.Length && Rev(str[..k]) == numeral && NoNul(numeral)
    modifies str
    ensures IsText(str[..], numeral)
  {
    str[k] := '\0';
    SwapEnds(str, k);
  }

  /** What itoa prints for -1. */
  lemma MinusOneExample()
    ensures Numeral(Wrap(-1), 10) == "4294967295"
  {
    hide Numeral;
    var s: seq<CChar> := "4294967295";
    EvalUpTo(s, 10);
    assert s[..10] == s && Wrap(-1) == 4294967295;
    NumeralUnique(s, 10);
  }

  /** The value of the first n digits of that text. */
  lemma {:induction false} EvalUpTo(s: seq<CChar>, n: nat)
    requires s == "4294967295" && n <= 10
    ensures IsNumeral(s[..n], 10)
    ensures var values := [0, 4, 42, 429, 4294, 42949, 429496, 4294967, 42949672, 429496729, 4294967295];
            Eval(s[..n], 10) == values[n]
  {
    if n > 0 {
      EvalUpTo(s, n - 1);
      EvalAppend(s[..n - 1], s[n - 1], 10);
      assert s[..n] == s[..n - 1] + [s[n - 1]];
    }
  }

  /** itoa passes a negative number on, and so prints it as the unsigned word: the text never carries a sign. */
  method Itoa(n: Int32, str: array<CChar>)
    requires |Numeral(Wrap(n), 10)| < str.Length
    modifies str
    ensures IsText(str[..], Numeral(if n < 0 then n + 0x1_0000_0000 else n, 10))
  {
    hide Numeral, IsText;
    Vtoa(str, 10, n);
    assert Wrap(n) == if n < 0 then n + 0x1_0000_0000 else n;
  }

  method Utoa(n: Word, str: array<CChar>)
    requires |Numeral(n, 10)| < str.Length
    modifies str
    ensures IsText(str[..], Numeral(n, 10))
  {
    hide Numeral, Digit;
    var i, v := 0, n;
    if n == 0 {
      WriteDigit(0, 10, 0, []);
      DigitReads(0);
      str[0] := '0';
      i := 1;
      assert str[..1] == [] + [Digit(0)];
    }
    while v > 0
      invariant 0 <= i <= |Numeral(n, 10)| && 0 <= v <= n
      invariant if v == n && n > 0 then i == 0 else Written(n, 10, v, str[..i])
    {
      ghost var low := str[..i];
      WriteDigit(n, 10, v, low);
      DigitReads(v % 10);
      str[i] := (v % 10 + '0' as int) as char;
      i := i + 1;
      assert str[..i] == low + [Digit(v % 10)];
      v := v / 10;
    }
    NumeralNoNul(n, 10);
    assert Rev(Numeral(n, 10)) == str[..i];
    str[i] := '\0';
    Reverse(str, Rev(Numeral(n, 10)));
    assert Rev(Rev(Numeral(n, 10))) == Numeral(n, 10);
  }

  // ----- Parsing -----

  /** What atou makes of any text, digits or not, in 32-bit arithmetic. */
  function Parsed(s: seq<CChar>): Word {
    if s == [] then 0 else Wrap(Wrap(Parsed(s[..|s| - 1]) * 10) + (CharValue(s[|s| - 1]) - '0' as int))
  }

  method Atou(str: array<CChar>, ghost text: seq<CChar>) returns (result: Word)
    requires IsText(str[..], text)
    ensures result == Parsed(text)
  {
    result := 0;
    var i := 0;
    while str[i] != '\0'
      invariant 0 <= i <= |text| && result == Parsed(text[..i])
      decreases |text| - i
    {
      assert text[..i + 1][..i] == text[..i];
      result := Wrap(result * 10);
      result := Wrap(result + (CharValue(str[i]) - '0' as int));
      i := i + 1;
    }
    assert text[..|text|] == text;
  }

  lemma WrapStep(p: Word, e: nat, d: int)
    requires p == Wrap(e)
    ensures Wrap(Wrap(p * 10) + d) == Wrap(e * 10 + d)
  {
    var k, j := e / 0x1_0000_0000, p * 10 / 0x1_0000_0000;
    assert e * 10 + d == Wrap(p * 10) + d + 0x1_0000_0000 * (10 * k + j);
    WrapShift(Wrap(p * 10) + d, 10 * k + j);
  }

  lemma WrapShift(x: int, k: int)
    ensures Wrap(x + 0x1_0000_0000 * k) == Wrap(x)
  {
  }

  /** On decimal digits atou is evaluation modulo the word. */
  lemma {:induction false} ParsedEvaluates(s: seq<CChar>)
    requires IsNumeral(s, 10)
    ensures Parsed(s) == Wrap(Eval(s, 10))
    decreases |s|
  {
    if s != [] {
      var high, last := s[..|s| - 1], s[|s| - 1];
      ParsedEvaluates(high);
      assert IsDigit(last, 10) && CharValue(last) - '0' as int == DigitValue(last).value;
      WrapStep(Parsed(high), Eval(high, 10), DigitValue(last).value);
    }
  }

  /** atou after utoa is the identity on words. */
  lemma PrintThenParse(n: Word)
    ensures Parsed(Numeral(n, 10)) == n
  {
    NumeralEvaluates(n, 10);
    ParsedEvaluates(Numeral(n, 10));
  }
}
