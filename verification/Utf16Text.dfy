/**
  Text as the JavaScript code sees it: a sequence of UTF-16 code units. Lengths and offsets in
  the proxy count units; only the encoder counts code points, so surrogate pairs matter.
 */
module Utf16Text {
  newtype CodeUnit = u: int | 0 <= u < 0x1_0000

  type Text = seq<CodeUnit>

  const DOLLAR: CodeUnit := 36
  const COMMA: CodeUnit := 44
  const DOT: CodeUnit := 46
  const ZERO: CodeUnit := 48
  const SEMICOLON: CodeUnit := 59

  /** The text of a string literal. */
  function Ascii(s: string): (t: Text)
    requires forall i :: 0 <= i < |s| ==> s[i] < 128 as char
    ensures |t| == |s|
  {
    seq(|s|, i requires 0 <= i < |s| => s[i] as int as CodeUnit)
  }

  // ---------- Searching ----------

  /** `s.indexOf(c, from)`: the first position at or after `from` holding `c`, or -1. */
  function IndexOf(s: Text, c: CodeUnit, from: nat): (i: int)
    requires from <= |s|
    ensures i == -1 || from <= i < |s|
    ensures i != -1 ==> s[i] == c
    ensures forall k :: from <= k < (if i == -1 then |s| else i) ==> s[k] != c
    decreases |s| - from
  {
    if from == |s| then -1 else if s[from] == c then from else IndexOf(s, c, from + 1)
  }

  /** The search result depends only on what it looks at. */
  lemma {:induction false} IndexOfUnique(s: Text, c: CodeUnit, from: nat, i: int)
    requires from <= i < |s| && s[i] == c
    requires forall k :: from <= k < i ==> s[k] != c
    ensures IndexOf(s, c, from) == i
  {
  }

  // ---------- Decimal numbers ----------

  predicate IsDigit(u: CodeUnit) {
    ZERO <= u < ZERO + 10
  }

  predicate AllDigits(t: Text) {
    forall i :: 0 <= i < |t| ==> IsDigit(t[i])
  }

  /** The text of a number in a template literal. */
  function Decimal(n: nat): (t: Text)
    ensures |t| > 0 && AllDigits(t)
  {
    var digit := [ZERO + (n % 10) as CodeUnit];
    if n < 10 then digit else Decimal(n / 10) + digit
  }

  /** `Number(t)` on a run of digits; the empty run reads as zero, as it does in JavaScript. */
  function ToNat(t: Text): nat
    requires AllDigits(t)
  {
    if t == [] then 0
    else
      var last := t[|t| - 1];
      10 * ToNat(t[..|t| - 1]) + (last - ZERO) as nat
  }

  lemma {:induction false} ToNatDecimal(n: nat)
    ensures ToNat(Decimal(n)) == n
  {
    var t := Decimal(n);
    if n >= 10 {
      ToNatDecimal(n / 10);
      assert t[..|t| - 1] == Decimal(n / 10);
    } else {
      assert t[..|t| - 1] == [];
    }
  }

  // ---------- Code points ----------

  predicate IsHighSurrogate(u: CodeUnit) {
    0xD800 <= u < 0xDC00
  }

  predicate IsLowSurrogate(u: CodeUnit) {
    0xDC00 <= u < 0xE000
  }

  predicate StartsWithPair(t: Text) {
    |t| >= 2 && IsHighSurrogate(t[0]) && IsLowSurrogate(t[1])
  }

  /** Number of units the first code point of a non-empty text takes. */
  function FirstPointLength(t: Text): (n: nat)
    requires t != []
    ensures 1 <= n <= 2 && n <= |t|
  {
    if StartsWithPair(t) then 2 else 1
  }

  /** `[...t].length`: spreading a string yields code points, a lone surrogate counting as one. */
  function CodePoints(t: Text): (n: nat)
    ensures n <= |t|
  {
    if t == [] then 0 else 1 + CodePoints(t[FirstPointLength(t)..])
  }

  /** No surrogate pair anywhere: every code point is one unit. */
  predicate PairFree(t: Text) {
    forall i :: 0 <= i < |t| - 1 ==> !(IsHighSurrogate(t[i]) && IsLowSurrogate(t[i + 1]))
  }

  /** The two ways of counting agree exactly on text without surrogate pairs. */
  lemma {:induction false} CodePointsVersusUnits(t: Text)
    ensures CodePoints(t) == |t| <==> PairFree(t)
  {
    if t != [] {
      var rest := t[FirstPointLength(t)..];
      CodePointsVersusUnits(rest);
      if !StartsWithPair(t) {
        assert PairFree(rest) <==> PairFree(t) by {
          assert forall i :: 1 <= i < |t| ==> t[i] == rest[i - 1];
        }
      }
    }
  }
}
