/** The few JavaScript built-ins the mosaic core relies on, over exact integers:
    `Math.min`/`Math.max`, `Number.prototype.toString(radix)` on non-negative
    integers, `parseInt(s, radix)` on a string of digits, and `String.prototype.trim`. */
module JsBuiltins {

  datatype Option<+T> = None | Some(value: T) {
    /** The `??` operator: the value when present, the default otherwise. */
    function GetOr(default: T): T {
      match this
      case Some(v) => v
      case None => default
    }
  }

  function Min(a: int, b: int): int { if a <= b then a else b }
  function Max(a: int, b: int): int { if a >= b then a else b }
  function MinReal(a: real, b: real): real { if a <= b then a else b }
  function MaxReal(a: real, b: real): real { if a >= b then a else b }

  /** The digit JavaScript prints for the value `d`, lower case, for radices up to 16. */
  function DigitChar(d: nat): char
    requires d < 16
  {
    if d < 10 then ('0' as int + d) as char else ('a' as int + (d - 10)) as char
  }

  predicate IsLowerHexDigit(c: char) {
    ('0' <= c <= '9') || ('a' <= c <= 'f')
  }

  predicate IsHexDigit(c: char) {
    ('0' <= c <= '9') || ('a' <= c <= 'f') || ('A' <= c <= 'F')
  }

  /** The value `parseInt` gives one digit, without regard to case. */
  function DigitValue(c: char): (v: nat)
    requires IsHexDigit(c)
    ensures v < 16
  {
    if '0' <= c <= '9' then (c as int - '0' as int)
    else if 'a' <= c <= 'f' then (c as int - 'a' as int) + 10
    else (c as int - 'A' as int) + 10
  }

  /** Every character of `s` is a digit of radix `base`. */
  predicate AllDigits(s: string, base: nat) {
    forall i :: 0 <= i < |s| ==> IsHexDigit(s[i]) && DigitValue(s[i]) < base
  }

  lemma DigitCharValue(d: nat)
    requires d < 16
    ensures IsLowerHexDigit(DigitChar(d)) && IsHexDigit(DigitChar(d)) && DigitValue(DigitChar(d)) == d
  {
  }

  /** `n.toString(base)`: most significant digit first, no leading zeros, "0" for zero. */
  function ToRadix(n: nat, base: nat): (s: string)
    requires 2 <= base <= 16
    ensures 1 <= |s|
    decreases n
  {
    if n < base then [DigitChar(n)]
    else DivModFacts(n, base); ToRadix(n / base, base) + [DigitChar(n % base)]
  }

  lemma {:induction false} ToRadixDigits(n: nat, base: nat)
    requires 2 <= base <= 16
    ensures AllDigits(ToRadix(n, base), base)
    decreases n
  {
    if n < base {
      DigitCharValue(n);
    } else {
      DivModFacts(n, base);
      ToRadixDigits(n / base, base);
      DigitCharValue(n % base);
      var p := ToRadix(n / base, base);
      assert ToRadix(n, base) == p + [DigitChar(n % base)];
    }
  }

  /** `parseInt(s, base)` on a string made only of digits of that base. */
  function ParseRadix(s: string, base: nat): nat
    requires AllDigits(s, base)
    decreases |s|
  {
    if s == [] then 0
    else ParseRadix(s[..|s| - 1], base) * base + DigitValue(s[|s| - 1])
  }

  lemma ParseAppend(p: string, d: nat, base: nat)
    requires 2 <= base <= 16 && d < base
    requires AllDigits(p, base)
    ensures AllDigits(p + [DigitChar(d)], base)
    ensures ParseRadix(p + [DigitChar(d)], base) == ParseRadix(p, base) * base + d
  {
    DigitCharValue(d);
    var s := p + [DigitChar(d)];
    assert s[..|s| - 1] == p;
  }

  /** Printing a number and parsing it back in the same radix gives the number. */
  lemma {:induction false} RadixRoundTrip(n: nat, base: nat)
    requires 2 <= base <= 16
    ensures AllDigits(ToRadix(n, base), base)
    ensures ParseRadix(ToRadix(n, base), base) == n
    decreases n
  {
    ToRadixDigits(n, base);
    if n < base {
      RoundTripSingleDigit(n, base);
    } else {
      DivModFacts(n, base);
      RadixRoundTrip(n / base, base);
      RoundTripStep(n, base);
    }
  }

  lemma RoundTripSingleDigit(n: nat, base: nat)
    requires 2 <= base <= 16 && n < base
    ensures AllDigits(ToRadix(n, base), base)
    ensures ParseRadix(ToRadix(n, base), base) == n
  {
    var s := ToRadix(n, base);
    DigitCharValue(n);
    assert s == [DigitChar(n)];
    assert s[..0] == [];
    assert ParseRadix(s, base) == ParseRadix([], base) * base + DigitValue(s[0]);
  }

  lemma RoundTripStep(n: nat, base: nat)
    requires 2 <= base <= 16 && n >= base
    requires AllDigits(ToRadix(n / base, base), base)
    requires ParseRadix(ToRadix(n / base, base), base) == n / base
    ensures AllDigits(ToRadix(n, base), base)
    ensures ParseRadix(ToRadix(n, base), base) == n
  {
    var q, d := n / base, n % base;
    var p := ToRadix(q, base);
    DigitCharValue(d);
    assert ToRadix(n, base) == p + [DigitChar(d)];
    ParseAppend(p, d, base);
    DivModFacts(n, base);
  }

  /** Euclidean division by a radix, in the form the digit proofs use it. */
  lemma DivModFacts(n: nat, base: nat)
    requires 2 <= base <= 16 && n >= base
    ensures 1 <= n / base < n && n % base < base
    ensures (n / base) * base + n % base == n
  {
  }

  /** The number-to-string conversion is injective: its strings parse back uniquely. */
  lemma RadixInjective(a: nat, b: nat, base: nat)
    requires 2 <= base <= 16
    requires ToRadix(a, base) == ToRadix(b, base)
    ensures a == b
  {
    RadixRoundTrip(a, base);
    RadixRoundTrip(b, base);
  }

  /** The characters `String.prototype.trim` removes: WhiteSpace and LineTerminator
      of ECMAScript, the space separators (category Zs) included. */
  predicate IsJsWhitespace(c: char) {
    c == '\t' || c == '\n' || c == '\U{000B}' || c == '\U{000C}' || c == '\r' || c == ' '
    || c == '\U{00A0}' || c == '\U{1680}' || ('\U{2000}' <= c <= '\U{200A}')
    || c == '\U{2028}' || c == '\U{2029}' || c == '\U{202F}' || c == '\U{205F}'
    || c == '\U{3000}' || c == '\U{FEFF}'
  }

  function TrimStart(s: string): (r: string)
    ensures |r| <= |s| && r == s[|s| - |r|..]
    ensures r == [] || !IsJsWhitespace(r[0])
    ensures forall i :: 0 <= i < |s| - |r| ==> IsJsWhitespace(s[i])
    decreases |s|
  {
    if s != [] && IsJsWhitespace(s[0]) then TrimStart(s[1..]) else s
  }

  function TrimEnd(s: string): (r: string)
    ensures |r| <= |s| && r == s[..|r|]
    ensures r == [] || !IsJsWhitespace(r[|r| - 1])
    ensures forall i :: |r| <= i < |s| ==> IsJsWhitespace(s[i])
    decreases |s|
  {
    if s != [] && IsJsWhitespace(s[|s| - 1]) then TrimEnd(s[..|s| - 1]) else s
  }

  /** `s.trim()`. */
  function Trim(s: string): string {
    TrimEnd(TrimStart(s))
  }

  predicate Blank(s: string) {
    forall i :: 0 <= i < |s| ==> IsJsWhitespace(s[i])
  }

  /** A string trims to the empty string exactly when every character is whitespace. */
  lemma {:induction false} TrimEmptyIffBlank(s: string)
    ensures Trim(s) == [] <==> Blank(s)
    decreases |s|
  {
    if s == [] {
    } else if IsJsWhitespace(s[0]) {
      TrimEmptyIffBlank(s[1..]);
      assert Blank(s) <==> Blank(s[1..]) by {
        if Blank(s[1..]) {
          forall i | 0 <= i < |s| ensures IsJsWhitespace(s[i]) {
            if i > 0 { assert s[i] == s[1..][i - 1]; }
          }
        }
        if Blank(s) {
          forall i | 0 <= i < |s[1..]| ensures IsJsWhitespace(s[1..][i]) {
            assert s[1..][i] == s[i + 1];
          }
        }
      }
    } else {
      assert TrimStart(s) == s;
      assert !Blank(s);
      assert TrimEnd(s) != [] by {
        var r := TrimEnd(s);
        if r == [] {
          TrimEndEmptyOnlyIfBlank(s);
        }
      }
    }
  }

  lemma {:induction false} TrimEndEmptyOnlyIfBlank(s: string)
    requires TrimEnd(s) == []
    ensures Blank(s)
    decreases |s|
  {
    if s != [] {
      TrimEndEmptyOnlyIfBlank(s[..|s| - 1]);
      forall i | 0 <= i < |s| ensures IsJsWhitespace(s[i]) {
        if i < |s| - 1 { assert s[i] == s[..|s| - 1][i]; }
      }
    }
  }
}
