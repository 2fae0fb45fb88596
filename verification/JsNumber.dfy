/**
  `Number(text)` on text without a dot, as far as it is a whole number. Anything else (a fraction,
  an infinity, not a number) is no position in a text, and is taken as no number at all.
 */
module JsNumber {
  import opened Wrappers
  import opened Utf16Text

  const PLUS: CodeUnit := 43
  const MINUS: CodeUnit := 45

  // ---------- White space ----------

  predicate IsSpace(u: CodeUnit) {
    9 <= u <= 13 || u == 32 || u == 0xA0 || u == 0x1680 || 0x2000 <= u <= 0x200A ||
    u == 0x2028 || u == 0x2029 || u == 0x202F || u == 0x205F || u == 0x3000 || u == 0xFEFF
  }

  function TrimStart(t: Text): Text {
    if t != [] && IsSpace(t[0]) then TrimStart(t[1..]) else t
  }

  function TrimEnd(t: Text): Text {
    if t != [] && IsSpace(t[|t| - 1]) then TrimEnd(t[..|t| - 1]) else t
  }

  // ---------- Literals ----------

  /** The value of a digit, up to the last letter. */
  function DigitValue(u: CodeUnit): Option<nat> {
    if IsDigit(u) then Some((u - ZERO) as nat)
    else if 97 <= u <= 122 then Some((u - 97) as nat + 10)
    else if 65 <= u <= 90 then Some((u - 65) as nat + 10)
    else None
  }

  function InBase(t: Text, base: nat): Option<nat> {
    if t == [] then Some(0)
    else
      var before, digit := InBase(t[..|t| - 1], base), DigitValue(t[|t| - 1]);
      if before.Some? && digit.Some? && digit.value < base then Some(base * before.value + digit.value) else None
  }

  /** `0x`, `0o` and `0b`, in either case. */
  function PrefixBase(t: Text): Option<nat> {
    if |t| < 3 || t[0] != ZERO then None
    else if t[1] == 120 || t[1] == 88 then Some(16)
    else if t[1] == 111 || t[1] == 79 then Some(8)
    else if t[1] == 98 || t[1] == 66 then Some(2)
    else None
  }

  function Signed(t: Text): Option<int> {
    var digits := if t != [] && (t[0] == PLUS || t[0] == MINUS) then t[1..] else t;
    if digits == [] || !AllDigits(digits) then None
    else
      var n: int := ToNat(digits);
      Some(if t[0] == MINUS then -n else n)
  }

  function Power(n: nat): (p: nat)
    ensures p > 0
  {
    if n == 0 then 1 else 10 * Power(n - 1)
  }

  function Scaled(mantissa: int, exponent: int): Option<int> {
    if exponent >= 0 then Some(mantissa * Power(exponent))
    else if mantissa % Power(-exponent) == 0 then Some(mantissa / Power(-exponent))
    else None
  }

  /** Where the exponent begins: the first `e` in either case. */
  function ExponentMark(t: Text): int {
    var lower, upper := IndexOf(t, 101, 0), IndexOf(t, 69, 0);
    if lower == -1 || (upper != -1 && upper < lower) then upper else lower
  }

  function Integral(raw: Text): Option<int> {
    var t := TrimEnd(TrimStart(raw));
    if t == [] then Some(0)
    else if PrefixBase(t).Some? then
      var n := InBase(t[2..], PrefixBase(t).value);
      if n.Some? then Some(n.value) else None
    else
      var mark := ExponentMark(t);
      if mark == -1 then Signed(t)
      else
        var mantissa, exponent := Signed(t[..mark]), Signed(t[mark + 1..]);
        if mantissa.Some? && exponent.Some? then Scaled(mantissa.value, exponent.value) else None
  }

  /** A run of digits, even an empty one, is read as the decimal number it is. */
  lemma {:induction false} IntegralOfDigits(raw: Text)
    requires AllDigits(raw)
    ensures Integral(raw) == Some(ToNat(raw))
  {
    hide ToNat;
    assert TrimEnd(TrimStart(raw)) == raw;
    if raw == [] {
      assert ToNat([]) == 0 by {
        NothingIsZero();
      }
    } else {
      assert PrefixBase(raw) == None && ExponentMark(raw) == -1;
    }
  }

  lemma {:induction false} NothingIsZero()
    ensures ToNat([]) == 0
  {
  }
}
