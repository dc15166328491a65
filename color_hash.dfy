/**
 * The string hash that the colour generators share, and the CSS `hsl(..)`
 * text they produce.
 *
 * Every generator walks the UTF-16 code units of a string computing
 * `hash = ((hash << 5) - hash) + char`. The category and team-colour copies
 * also apply `hash & hash` after each step, which is ToInt32; the name-colour
 * copy does not, so only its `<< 5` operand is brought into 32 bits.
 * Both are the polynomial `sum c_i * 31^(n-1-i)` taken modulo 2^32, as the
 * lemmas below show.
 */
module ColorHash {
  import opened JsCore

  /** One step of the loop with `hash = hash & hash` after it. */
  function WrappedStep(h: int, c: int): int {
    ToInt32(ShiftLeft5(h) - h + c)
  }

  /** The hash of the category and team-colour generators. */
  function WrappedHash(units: seq<int>): (r: int)
    ensures -TwoTo31 <= r < TwoTo31
  {
    if units == [] then 0 else WrappedStep(WrappedHash(units[..|units| - 1]), units[|units| - 1])
  }

  /** One step of the name-colour loop: `hash = char + ((hash << 5) - hash)`. */
  function UnwrappedStep(h: int, c: int): int {
    c + (ShiftLeft5(h) - h)
  }

  /** The hash of the name-colour generator; it is not brought back into
      32 bits, so it can leave the signed 32-bit range. */
  function UnwrappedHash(units: seq<int>): int {
    if units == [] then 0 else UnwrappedStep(UnwrappedHash(units[..|units| - 1]), units[|units| - 1])
  }

  /** The loop `for (..) { hash = ((hash << 5) - hash) + char; hash = hash & hash; }`
      over the code units of a string. */
  method ComputeWrappedHash(units: seq<int>) returns (hash: int)
    ensures hash == WrappedHash(units)
  {
    hash := 0;
    var i := 0;
    while i < |units|
      invariant 0 <= i <= |units|
      invariant hash == WrappedHash(units[..i])
    {
      assert units[..i + 1][..i] == units[..i];
      hash := ShiftLeft5(hash) - hash + units[i];
      hash := ToInt32(hash);
      i := i + 1;
    }
    assert units[..i] == units;
  }

  /** The loop `for (..) { hash = char + ((hash << 5) - hash); }`. */
  method ComputeUnwrappedHash(units: seq<int>) returns (hash: int)
    ensures hash == UnwrappedHash(units)
  {
    hash := 0;
    var i := 0;
    while i < |units|
      invariant 0 <= i <= |units|
      invariant hash == UnwrappedHash(units[..i])
    {
      assert units[..i + 1][..i] == units[..i];
      hash := units[i] + (ShiftLeft5(hash) - hash);
      i := i + 1;
    }
    assert units[..i] == units;
  }

  /** Reference definition: the base-31 polynomial over the code units. */
  function Poly31(units: seq<int>): int {
    if units == [] then 0 else Poly31(units[..|units| - 1]) * 31 + units[|units| - 1]
  }

  /** ToInt32 depends only on its argument modulo 2^32. */
  lemma ToInt32Periodic(x: int, k: int)
    ensures ToInt32(x + k * TwoTo32) == ToInt32(x)
  {
  }

  /** `(h << 5) - h + c` is `31 * h + c` modulo 2^32 whenever `h` agrees
      with `p` modulo 2^32. */
  lemma StepCongruent(h: int, p: int, c: int)
    requires ToInt32(h) == ToInt32(p)
    ensures ToInt32(ShiftLeft5(h) - h + c) == ToInt32(31 * p + c)
  {
    var a := ToInt32(h);
    var b := ToInt32(a * 32);
    var kh := (h - a) / TwoTo32;
    var kp := (p - a) / TwoTo32;
    var kb := (a * 32 - b) / TwoTo32;
    assert h == a + kh * TwoTo32;
    assert p == a + kp * TwoTo32;
    assert b == a * 32 - kb * TwoTo32;
    calc {
      ToInt32(b - h + c);
      { assert b - h + c == (31 * a + c) + (-kb - kh) * TwoTo32;
        ToInt32Periodic(31 * a + c, -kb - kh); }
      ToInt32(31 * a + c);
      { assert 31 * p + c == (31 * a + c) + (31 * kp) * TwoTo32;
        ToInt32Periodic(31 * a + c, 31 * kp); }
      ToInt32(31 * p + c);
    }
  }

  /** The wrapped hash is the base-31 polynomial as a signed 32-bit value. */
  lemma {:induction false} WrappedHashIsPoly31(units: seq<int>)
    ensures WrappedHash(units) == ToInt32(Poly31(units))
  {
    if units != [] {
      var p := units[..|units| - 1];
      var c := units[|units| - 1];
      WrappedHashIsPoly31(p);
      StepCongruent(WrappedHash(p), Poly31(p), c);
    }
  }

  /** The unwrapped hash agrees with the wrapped one modulo 2^32: the three
      generators hash a string to the same 32-bit value, and differ only in
      how they read colours out of it. */
  lemma {:induction false} UnwrappedHashAgreesModulo(units: seq<int>)
    ensures ToInt32(UnwrappedHash(units)) == WrappedHash(units)
  {
    if units != [] {
      var p := units[..|units| - 1];
      var c := units[|units| - 1];
      UnwrappedHashAgreesModulo(p);
      WrappedHashIsPoly31(p);
      WrappedHashIsPoly31(units);
      StepCongruent(UnwrappedHash(p), Poly31(p), c);
      assert ToInt32(UnwrappedHash(units)) == ToInt32(31 * Poly31(p) + c);
    }
  }

  /** Each unwrapped step moves the hash by at most 2^32 for code units
      below 2^16, so the value stays an exact integer in a double (below
      2^53) for names of fewer than 2^21 code units. */
  lemma {:induction false} UnwrappedHashMagnitude(units: seq<int>)
    requires forall i :: 0 <= i < |units| ==> 0 <= units[i] < 0x1_0000
    ensures Abs(UnwrappedHash(units)) <= |units| * TwoTo32
  {
    if units != [] {
      UnwrappedHashMagnitude(units[..|units| - 1]);
    }
  }

  // ---------------------------------------------------------------------
  // CSS colour text

  /** A colour in the HSL model: hue in degrees, saturation and lightness
      in percent. */
  datatype Hsl = Hsl(hue: int, saturation: int, lightness: int)

  /** The template literal `hsl(${hue}, ${saturation}%, ${lightness}%)`,
      with each value already turned into text. */
  function HslFromTexts(hue: string, saturation: string, lightness: string): string {
    "hsl(" + hue + ", " + saturation + "%, " + lightness + "%)"
  }

  /** The template literal over the values themselves: `${v}` is `String(v)`. */
  function HslTemplate(hue: Scalar, saturation: Scalar, lightness: Scalar): string {
    HslFromTexts(ToStr(hue), ToStr(saturation), ToStr(lightness))
  }

  /** `hsl(..)` text starts with "hsl(" and ends with `)`. */
  lemma HslShape(hue: string, saturation: string, lightness: string)
    ensures var t := HslFromTexts(hue, saturation, lightness);
      |t| > 4 && t[..4] == "hsl(" && t[|t| - 1] == ')'
  {
    var rest := hue + ", " + saturation + "%, " + lightness + "%)";
    assert HslFromTexts(hue, saturation, lightness) == "hsl(" + rest;
  }

  function HslText(c: Hsl): string {
    HslTemplate(Num(c.hue), Num(c.saturation), Num(c.lightness))
  }

  /** Element `i` of an array literal: `undefined` outside its bounds. */
  function Index(xs: seq<int>, i: int): (r: Scalar)
    ensures 0 <= i < |xs| ==> r == Num(xs[i])
    ensures !(0 <= i < |xs|) ==> r == Undef
  {
    if 0 <= i < |xs| then Num(xs[i]) else Undef
  }
}
