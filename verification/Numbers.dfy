/** Printing and parsing integers: printnum and %d (lib/printfmt.c), strtol (lib/string.c). */
module Numbers {
  import opened Words

  const DIGITS: string := "0123456789abcdef"

  // ---- printnum ----

  function Repeat(c: char, n: int): (s: string)
    ensures |s| == (if n < 0 then 0 else n) && forall i | 0 <= i < |s| :: s[i] == c
  {
    seq(if n < 0 then 0 else n, _ => c)
  }

  lemma LastDigit(num: nat, base: nat)
    requires 2 <= base <= 16
    ensures num % base < base && num % base < |DIGITS| && (num >= base ==> num / base < num)
  {
  }

  /** The digits of a number, most significant first. */
  function Digits(num: nat, base: nat): (s: string)
    requires 2 <= base <= 16
    ensures |s| > 0
  {
    LastDigit(num, base);
    if num < base then [DIGITS[num]] else Digits(num / base, base) + [DIGITS[num % base]]
  }

  /** The digits, preceded by padding up to the width. */
  function Padded(num: nat, base: nat, width: int, padc: char): (s: string)
    requires 2 <= base <= 16
    ensures |s| == var n := |Digits(num, base)|; if width > n then width else n
  {
    Repeat(padc, width - |Digits(num, base)|) + Digits(num, base)
  }

  lemma PaddedMore(num: nat, base: nat, width: int, padc: char)
    requires 2 <= base <= 16 && num >= base
    ensures Padded(num, base, width, padc) == Padded(num / base, base, width - 1, padc) + [DIGITS[num % base]]
  {
  }

  lemma PaddedLast(num: nat, base: nat, width: int, padc: char)
    requires 2 <= base <= 16 && num < base
    ensures Padded(num, base, width, padc) == Repeat(padc, if width > 0 then width - 1 else 0) + [DIGITS[num % base]]
    ensures Repeat(padc, 0) == ""
  {
    SmallMod(num, base);
    assert Digits(num, base) == [DIGITS[num]] by {
      hide Repeat;
    }
    hide Digits;
    assert width <= 0 ==> Repeat(padc, width - 1) == Repeat(padc, 0);
  }

  lemma SmallMod(num: nat, base: nat)
    requires num < base
    ensures num % base == num
  {
  }

  lemma RepeatMore(c: char, n: nat)
    ensures Repeat(c, n + 1) == Repeat(c, n) + [c]
  {
  }

  class Sink {
    var out: string

    constructor ()
      ensures out == ""
    {
      out := "";
    }

    method Putch(c: char)
      modifies this
      ensures out == old(out) + [c]
    {
      out := out + [c];
    }

    /** The pad characters are emitted by the innermost call, which has seen the width go down by
        one for every digit but its own. */
    method Printnum(num: nat, base: nat, width: int, padc: char)
      requires 2 <= base <= 16
      modifies this
      ensures out == old(out) + Padded(num, base, width, padc)
      decreases num
    {
      hide Repeat, Padded, Digits;
      LastDigit(num, base);
      if num >= base {
        PaddedMore(num, base, width, padc);
        Printnum(num / base, base, width - 1, padc);
      } else {
        PaddedLast(num, base, width, padc);
        var w := width - 1;
        while w > 0
          invariant w <= width - 1 && (width > 0 ==> w >= 0) && (width <= 0 ==> w == width - 1)
          invariant out == old(out) + Repeat(padc, if width > 0 then width - 1 - w else 0)
        {
          RepeatMore(padc, width - 1 - w);
          Putch(padc);
          w := w - 1;
        }
      }
      Putch(DIGITS[num % base]);
    }

    /** The %d case of vprintfmt: the sign comes before the padding and is not counted in the width. */
    method PrintDecimal(num: int, width: int, padc: char)
      modifies this
      ensures out == old(out) + if num < 0 then "-" + Padded(-num, 10, width, padc) else Padded(num, 10, width, padc)
    {
      if num < 0 {
        Putch('-');
        Printnum(-num, 10, width, padc);
      } else {
        Printnum(num, 10, width, padc);
      }
    }
  }

  // ---- strtol ----

  /** The character at i; the string's end reads as NUL. */
  function At(s: string, i: nat): char { if i < |s| then s[i] else 0 as char }

  /** The value of a digit, or 99. */
  function Value(c: char): (v: nat)
    ensures v == 99 || v < 36
  {
    if '0' <= c <= '9' then (c - '0') as nat
    else if 'a' <= c <= 'z' then (c - 'a') as nat + 10
    else if 'A' <= c <= 'Z' then (c - 'A') as nat + 10
    else 99
  }

  predicate IsDigit(s: string, i: nat, base: nat) { Value(At(s, i)) < base }

  /** The end of the run of digits from i on. */
  function DigitsEnd(s: string, i: nat, base: nat): (e: nat)
    requires i <= |s| && base <= 36
    ensures i <= e <= |s| && !IsDigit(s, e, base) && forall j | i <= j < e :: IsDigit(s, j, base)
    decreases |s| - i
  {
    if i < |s| && IsDigit(s, i, base) then DigitsEnd(s, i + 1, base) else i
  }

  /** The number that a string of digits denotes. */
  function Eval(s: string, base: nat): nat {
    if s == "" then 0 else Eval(s[..|s| - 1], base) * base + Value(s[|s| - 1])
  }

  function SkipBlanks(s: string, i: nat): (j: nat)
    requires i <= |s|
    ensures i <= j <= |s|
    decreases |s| - i
  {
    if i < |s| && (s[i] == ' ' || s[i] == '\t') then SkipBlanks(s, i + 1) else i
  }

  /** Where the digits start, and the base. */
  function Prefix(s: string, i: nat, base: nat): (nat, nat) {
    if (base == 0 || base == 16) && At(s, i) == '0' && At(s, i + 1) == 'x' then (i + 2, 16)
    else if base == 0 && At(s, i) == '0' then (i + 1, 8)
    else if base == 0 then (i, 10)
    else (i, base)
  }

  /** What strtol returns: the value, which may have wrapped, and the index of *endptr. */
  function StrtolSpec(s: string, base: nat): (int, nat)
    requires base <= 36
  {
    var i := SkipBlanks(s, 0);
    var neg := At(s, i) == '-';
    var (j, b) := Prefix(s, if neg || At(s, i) == '+' then i + 1 else i, base);
    var e := DigitsEnd(s, j, b);
    var v := Int32(Eval(s[j..e], b));
    (if neg then Int32(-v) else v, e)
  }

  lemma Wraps(x: int, b: nat, d: nat)
    ensures Int32(Int32(x) * b + d) == Int32(x * b + d)
  {
    var k := x / WORDS + if x % WORDS < INT_LIMIT then 0 else 1;
    assert Int32(x) == x - k * WORDS;
    assert (x - k * WORDS) * b == x * b - (k * b) * WORDS;
    SameInt32(x * b + d, k * b);
  }

  lemma SameInt32(y: int, k: int)
    ensures Int32(y - k * WORDS) == Int32(y)
  {
  }

  method Strtol(s: string, base: nat) returns (result: int, endptr: nat)
    requires base <= 36
    ensures (result, endptr) == StrtolSpec(s, base)
  {
    hide Int32, Value, Eval, DigitsEnd;
    var i, neg, val, b := 0, false, 0, base;
    while At(s, i) == ' ' || At(s, i) == '\t'
      invariant i <= |s| && SkipBlanks(s, i) == SkipBlanks(s, 0)
      decreases |s| - i
    {
      i := i + 1;
    }
    if At(s, i) == '+' {
      i := i + 1;
    } else if At(s, i) == '-' {
      i := i + 1;
      neg := true;
    }
    if (base == 0 || base == 16) && At(s, i) == '0' && At(s, i + 1) == 'x' {
      i := i + 2;
      b := 16;
    } else if base == 0 && At(s, i) == '0' {
      i := i + 1;
      b := 8;
    } else if base == 0 {
      b := 10;
    }
    val, i := ParseDigits(s, i, b);
    return if neg then Int32(-val) else val, i;
  }

  /** The digit loop of strtol. */
  method ParseDigits(s: string, j: nat, base: nat) returns (val: int, i: nat)
    requires j <= |s| && base <= 36
    ensures i == DigitsEnd(s, j, base) && val == Int32(Eval(s[j..i], base))
  {
    hide Int32, Value;
    i, val := j, 0;
    assert Eval(s[j..j], base) == 0 && Int32(0) == 0 by { Zero(); }
    while true
      invariant j <= i <= |s| && DigitsEnd(s, i, base) == DigitsEnd(s, j, base)
      invariant val == Int32(Eval(s[j..i], base))
      decreases |s| - i
    {
      var dig := Value(At(s, i));
      if dig >= base {
        break;
      }
      assert i < |s| by { NulIsNoDigit(); }
      Wraps(Eval(s[j..i], base), base, dig);
      EvalMore(s, j, i, base);
      i := i + 1;
      val := Int32(val * base + dig);
    }
  }

  lemma Zero()
    ensures Int32(0) == 0
  {
  }

  lemma NulIsNoDigit()
    ensures Value(0 as char) == 99
  {
  }

  lemma EvalMore(s: string, j: nat, i: nat, base: nat)
    requires j <= i < |s|
    ensures Eval(s[j..i + 1], base) == Eval(s[j..i], base) * base + Value(s[i])
  {
    assert s[j..i + 1][..i - j] == s[j..i];
  }

  // ---- Round trip ----

  /** Not a blank, a sign, the x of a prefix, or the end of a string. */
  predicate Plain(c: char) { c !in {' ', '\t', '+', '-', 'x', 0 as char} }

  lemma DigitValue(d: nat)
    requires d < 16
    ensures Value(DIGITS[d]) == d && Plain(DIGITS[d]) && (DIGITS[d] == '0' <==> d == 0) && LowerCase(DIGITS[d])
  {
  }

  predicate LowerCase(c: char) { '0' <= c <= '9' || 'a' <= c <= 'f' }

  /** Digits of either case, and nothing else, have a value. */
  lemma DigitValues(c: char)
    ensures forall d: nat | d < 10 :: c == "0123456789"[d] <==> Value(c) == d
    ensures forall d: nat | d < 26 :: c == "abcdefghijklmnopqrstuvwxyz"[d] || c == "ABCDEFGHIJKLMNOPQRSTUVWXYZ"[d] <==> Value(c) == 10 + d
  {
    assert forall d: nat | d < 10 :: "0123456789"[d] == '0' + d as char;
    assert forall d: nat | d < 26 :: "abcdefghijklmnopqrstuvwxyz"[d] == 'a' + d as char;
    assert forall d: nat | d < 26 :: "ABCDEFGHIJKLMNOPQRSTUVWXYZ"[d] == 'A' + d as char;
  }

  lemma Recompose(num: nat, base: nat)
    requires base > 0
    ensures num / base * base + num % base == num
  {
  }

  lemma EvalSnoc(s: string, c: char, base: nat)
    ensures Eval(s + [c], base) == Eval(s, base) * base + Value(c) && Eval("", base) == 0
  {
    assert (s + [c])[..|s|] == s;
  }

  lemma Quotient(num: nat, base: nat)
    requires 2 <= base
    ensures num < base ==> num % base == num
    ensures num >= base ==> 0 < num / base < num
  {
    var q, r := num / base, num % base;
    Recompose(num, base);
    if num < base {
      assert q == 0;
    } else {
      assert q != 0;
      assert q * base >= q * 2;
    }
  }

  lemma DigitsStep(num: nat, base: nat)
    requires 2 <= base <= 16
    ensures num < base ==> num % base == num && Digits(num, base) == [DIGITS[num % base]]
    ensures num >= base ==> 0 < num / base < num && Digits(num, base) == Digits(num / base, base) + [DIGITS[num % base]]
  {
    Quotient(num, base);
  }

  /** The digits denote the number. */
  lemma {:induction false} DigitsDenote(num: nat, base: nat)
    requires 2 <= base <= 16
    ensures Eval(Digits(num, base), base) == num
    decreases num
  {
    hide Eval, Value, Digits;
    DigitsStep(num, base);
    DigitValue(num % base);
    if num < base {
      EvalSnoc("", DIGITS[num], base);
      assert "" + [DIGITS[num]] == Digits(num, base);
    } else {
      DigitsDenote(num / base, base);
      EvalSnoc(Digits(num / base, base), DIGITS[num % base], base);
      Recompose(num, base);
    }
  }

  /** They are digits of the base, in lower case, without a leading zero. */
  lemma {:induction false} DigitsPlain(num: nat, base: nat)
    requires 2 <= base <= 16
    ensures forall i | 0 <= i < |Digits(num, base)| :: Value(Digits(num, base)[i]) < base && Plain(Digits(num, base)[i])
    ensures forall i | 0 <= i < |Digits(num, base)| :: LowerCase(Digits(num, base)[i])
    ensures num > 0 ==> Digits(num, base)[0] != '0'
    decreases num
  {
    hide Value, Plain, Digits, LowerCase;
    DigitsStep(num, base);
    DigitValue(num % base);
    if num >= base {
      DigitsPlain(num / base, base);
    }
  }

  /** Leading zeros do not change the value. */
  lemma {:induction false} ZerosDenote(n: int, ds: string, base: nat)
    ensures Eval(Repeat('0', n) + ds, base) == Eval(ds, base)
    decreases (if n < 0 then 0 else n) + |ds|
  {
    var zs := Repeat('0', n);
    var all := zs + ds;
    if ds != "" {
      ZerosDenote(n, ds[..|ds| - 1], base);
      assert all[..|all| - 1] == zs + ds[..|ds| - 1];
    } else if n > 0 {
      ZerosDenote(n - 1, "", base);
      assert all[..|all| - 1] == Repeat('0', n - 1) + "";
    }
  }

  lemma {:induction false} AllDigits(s: string, i: nat, e: nat, base: nat)
    requires i <= e <= |s| && base <= 36 && (forall j | i <= j < e :: IsDigit(s, j, base)) && !IsDigit(s, e, base)
    ensures DigitsEnd(s, i, base) == e
    decreases e - i
  {
    if i < e {
      AllDigits(s, i + 1, e, base);
    } else {
      assert DigitsEnd(s, i, base) == e;
    }
  }

  lemma {:induction false} AllBlanks(s: string, i: nat, e: nat)
    requires i <= e < |s| && (forall j | i <= j < e :: s[j] == ' ') && s[e] != ' ' && s[e] != '\t'
    ensures SkipBlanks(s, i) == e
    decreases e - i
  {
    if i < e {
      AllBlanks(s, i + 1, e);
    }
  }

  /** A string of digits, at j in s and up to its end, is read as what it denotes. */
  lemma DigitsRead(s: string, j: nat, zeros: int, num: nat, base: nat)
    requires 2 <= base <= 16 && j <= |s| && s[j..] == Repeat('0', zeros) + Digits(num, base)
    ensures DigitsEnd(s, j, base) == |s| && Eval(s[j..|s|], base) == num
  {
    hide Eval, Digits, Repeat;
    DigitsDenote(num, base);
    DigitsPlain(num, base);
    ZerosDenote(zeros, Digits(num, base), base);
    DigitValue(0);
    NulIsNoDigit();
    assert s[j..] == s[j..|s|];
    forall k | j <= k < |s| ensures IsDigit(s, k, base) {
      assert s[k] == s[j..][k - j];
    }
    AllDigits(s, j, |s|, base);
  }

  /** Padding, an optional sign before it, and digits: what the prefix tests of strtol see. */
  lemma NoPrefix(s: string, j: nat, zeros: int, num: nat, base: nat)
    requires 2 <= base <= 16 && j <= |s| && s[j..] == Repeat('0', zeros) + Digits(num, base)
    ensures Prefix(s, j, base) == (j, base) && j < |s|
    ensures At(s, j) !in {' ', '\t', '+', '-'}
  {
    hide Eval, Digits, Value;
    DigitsPlain(num, base);
    assert At(s, j) == s[j..][0];
    assert j + 1 < |s| ==> At(s, j + 1) == s[j..][1];
  }

  /** strtol reads back what printnum printed, padded with spaces or zeros, and consumes all of it;
      the value comes back exactly when it is below 2^31. */
  lemma RoundTripIff(num: nat, base: nat, width: int, padc: char)
    requires 2 <= base <= 16 && (padc == ' ' || padc == '0')
    ensures var s := Padded(num, base, width, padc);
            && StrtolSpec(s, base) == (Int32(num), |s|)
            && (num < 0x1_0000_0000_0000_0000 ==> (StrtolSpec(s, base).0 == num <==> num < INT_LIMIT))
  {
    hide Eval, Digits, DigitsEnd, Value;
    var s := Padded(num, base, width, padc);
    var pad := width - |Digits(num, base)|;
    var j := if padc == ' ' && pad > 0 then pad else 0;
    var zeros := if padc == '0' then pad else 0;
    assert s[j..] == Repeat('0', zeros) + Digits(num, base);
    NoPrefix(s, j, zeros, num, base);
    AllBlanks(s, 0, j);
    DigitsRead(s, j, zeros, num, base);
  }

  /** A negative number printed by %d is read back exactly when the padding does not come between
      its sign and its digits: no padding, or zeros. */
  lemma NegativeRoundTripIff(num: nat, width: int, padc: char)
    requires 0 < num <= 0x8000_0000 && (padc == ' ' || padc == '0')
    ensures var s := "-" + Padded(num, 10, width, padc);
            StrtolSpec(s, 10) == (0 - num, |s|) <==> padc == '0' || width <= |Digits(num, 10)|
  {
    hide Eval, Digits, DigitsEnd, Value;
    var pad := width - |Digits(num, 10)|;
    var s := "-" + Padded(num, 10, width, padc);
    AllBlanks(s, 0, 0);
    if padc == '0' || pad <= 0 {
      var zeros := if padc == '0' then pad else 0;
      assert s[1..] == Repeat('0', zeros) + Digits(num, 10);
      NoPrefix(s, 1, zeros, num, 10);
      DigitsRead(s, 1, zeros, num, 10);
      Negated(num);
    } else {
      assert s[1] == ' ';
      BlankIsNoDigit(s);
    }
  }

  lemma Negated(num: nat)
    requires num <= 0x8000_0000
    ensures Int32(-Int32(num)) == 0 - num
  {
  }

  lemma BlankIsNoDigit(s: string)
    requires |s| > 1 && s[1] == ' '
    ensures DigitsEnd(s, 1, 10) == 1
  {
  }

  // ---- What strtol accepts ----

  predicate AllBlank(s: string) { forall i | 0 <= i < |s| :: s[i] == ' ' || s[i] == '\t' }

  /** The prefix that goes with the base asked for, before the text t, and the base of the digits. */
  predicate PrefixOf(pf: string, base: nat, t: string, b: nat) {
    if pf == "0x" then (base == 0 || base == 16) && b == 16
    else if pf == "0" then base == 0 && b == 8 && At(t, 0) != 'x'
    else && pf == "" && b == (if base == 0 then 10 else base)
         && (base == 0 ==> At(t, 0) != '0') && (base == 16 ==> !(At(t, 0) == '0' && At(t, 1) == 'x'))
  }

  /** strtol of blanks, a sign, a prefix, digits and anything that is no digit: the value of the
      digits in the prefix's base, with the sign, as a 32-bit number, and the index after the digits. */
  lemma StrtolParses(blanks: string, sign: string, pf: string, ds: string, rest: string, base: nat, b: nat)
    requires AllBlank(blanks) && sign in {"", "+", "-"} && base <= 36 && b <= 36 && PrefixOf(pf, base, ds + rest, b)
    requires (forall i | 0 <= i < |ds| :: Value(ds[i]) < b) && Value(At(rest, 0)) >= b
    requires sign == "" ==> At(pf + (ds + rest), 0) !in {' ', '\t', '+', '-'}
    ensures var v := Int32(Eval(ds, b));
            StrtolSpec(blanks + sign + pf + ds + rest, base) == (if sign == "-" then Int32(-v) else v, |blanks + sign + pf + ds|)
  {
    hide Eval, Value, Int32, Prefix, IsDigit, DigitsEnd, SkipBlanks, AllBlank, PrefixOf;
    var s := blanks + sign + pf + ds + rest;
    var i := |blanks| + |sign|;
    var j := i + |pf|;
    Parts(blanks, sign, pf, ds, rest);
    BlanksSkipped(s, 0, |blanks|);
    PrefixFound(s, i, pf, ds + rest, base, b);
    RestNoDigit(s, j, ds, rest, b);
    AllDigits(s, j, j + |ds|, b);
  }

  lemma Parts(blanks: string, sign: string, pf: string, ds: string, rest: string)
    requires sign in {"", "+", "-"} && (sign == "" ==> At(pf + (ds + rest), 0) !in {' ', '\t', '+', '-'})
    ensures var s, n := blanks + sign + pf + ds + rest, |blanks|;
            && |blanks + sign + pf + ds| == n + |sign| + |pf| + |ds| <= |s| && s[0..n] == blanks && At(s, n) !in {' ', '\t'}
            && (At(s, n) == '+' <==> sign == "+") && (At(s, n) == '-' <==> sign == "-")
            && s[n + |sign|..] == pf + (ds + rest) && s[n + |sign| + |pf|..] == ds + rest
            && s[n + |sign| + |pf|..n + |sign| + |pf| + |ds|] == ds
  {
    var s, n := blanks + sign + pf + ds + rest, |blanks|;
    assert s[n + |sign|..] == pf + (ds + rest);
    if sign == "" {
      assert At(s, n) == At(s[n..], 0);
    } else {
      assert s[n] == sign[0];
    }
  }

  lemma {:induction false} BlanksSkipped(s: string, i: nat, e: nat)
    requires i <= e <= |s| && AllBlank(s[i..e]) && At(s, e) != ' ' && At(s, e) != '\t'
    ensures SkipBlanks(s, i) == e
    decreases e - i
  {
    if i < e {
      assert s[i] == s[i..e][0] && s[i..e][1..] == s[i + 1..e];
      BlanksSkipped(s, i + 1, e);
    }
  }

  lemma PrefixFound(s: string, i: nat, pf: string, t: string, base: nat, b: nat)
    requires i <= |s| && s[i..] == pf + t && PrefixOf(pf, base, t, b)
    ensures Prefix(s, i, base) == (i + |pf|, b)
  {
    assert forall k: nat :: At(s, i + k) == At(s[i..], k);
    if pf == "0x" {
      assert s[i..][0] == '0' && s[i..][1] == 'x';
    } else if pf == "0" {
      assert s[i..][0] == '0' && At(s[i..], 1) == At(t, 0);
    } else {
      assert s[i..] == t;
    }
  }

  lemma RestNoDigit(s: string, j: nat, ds: string, rest: string, b: nat)
    requires j + |ds| <= |s| && s[j..] == ds + rest && Value(At(rest, 0)) >= b && forall i | 0 <= i < |ds| :: Value(ds[i]) < b
    ensures (forall k | j <= k < j + |ds| :: IsDigit(s, k, b)) && !IsDigit(s, j + |ds|, b)
  {
    hide Value;
    forall k | j <= k < j + |ds| ensures IsDigit(s, k, b) {
      assert s[k] == s[j..][k - j] == ds[k - j];
    }
    assert At(s, j + |ds|) == At(rest, 0) by {
      if rest != "" {
        assert s[j + |ds|] == s[j..][|ds|];
      }
    }
  }
}
