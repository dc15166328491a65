/**
 * The JavaScript built-ins that the front end leans on, written out so that
 * the components' comparisons and conversions mean what they mean in a
 * browser: loose scalar values, `Number(..)`, `String(..)`, `===`,
 * truthiness, the 32-bit conversion behind `<<`, `>>` and `&`
 * (ToInt32, section 7.1.6 of ECMA-262), UTF-16 `length`, `trim`, and the
 * few string helpers the components call.
 */
module JsCore {

  datatype Option<T> = None | Some(value: T)

  /** A JavaScript scalar as it reaches the components: from JSON, props or
      local storage. Numbers are integers; fractions are out of scope. */
  datatype Scalar = Undef | Null | Bool(b: bool) | Num(n: int) | NaN | Str(s: string)

  /** `!!v` */
  predicate Truthy(v: Scalar) {
    match v
    case Undef => false
    case Null => false
    case Bool(b) => b
    case Num(n) => n != 0
    case NaN => false
    case Str(s) => s != ""
  }

  /** `v ?? fallback` */
  function Coalesce(v: Scalar, fallback: Scalar): (r: Scalar)
    ensures r == v || r == fallback
    ensures !v.Undef? && !v.Null? ==> r == v
  {
    if v.Undef? || v.Null? then fallback else v
  }

  /** `a === b`: same type and same value; NaN equals nothing. */
  predicate StrictEq(a: Scalar, b: Scalar) {
    !a.NaN? && !b.NaN? && a == b
  }

  // ---------------------------------------------------------------------
  // Characters, UTF-16 and whitespace

  /** The UTF-16 code units of one character, as `charCodeAt` sees them. */
  function CodeUnitsOf(c: char): (r: seq<int>)
    ensures 1 <= |r| <= 2
    ensures forall i :: 0 <= i < |r| ==> 0 <= r[i] < 0x1_0000
    ensures |r| == 1 <==> (c as int) < 0x1_0000
  {
    var v := c as int;
    if v < 0x1_0000 then [v]
    else [0xD800 + (v - 0x1_0000) / 0x400, 0xDC00 + (v - 0x1_0000) % 0x400]
  }

  /** A string as the sequence of UTF-16 code units JavaScript stores. */
  function Utf16(s: string): (r: seq<int>)
    ensures |r| >= |s|
    ensures forall i :: 0 <= i < |r| ==> 0 <= r[i] < 0x1_0000
  {
    if s == [] then [] else Utf16(s[..|s| - 1]) + CodeUnitsOf(s[|s| - 1])
  }

  /** A string with no character outside the Basic Multilingual Plane has
      one code unit per character. */
  lemma {:induction false} Utf16OfBmp(s: string)
    requires forall i :: 0 <= i < |s| ==> (s[i] as int) < 0x1_0000
    ensures |Utf16(s)| == |s|
    ensures forall i :: 0 <= i < |s| ==> Utf16(s)[i] == s[i] as int
  {
    if s != [] {
      Utf16OfBmp(s[..|s| - 1]);
    }
  }

  /** `s.length` */
  function Length(s: string): nat {
    |Utf16(s)|
  }

  /** WhiteSpace and LineTerminator of ECMA-262 (section 12.2 and 12.3):
      what `trim` removes. */
  predicate IsJsWhitespace(c: char) {
    c == ' ' || c == '\t' || c == '\n' || c == '\r' || c == '\U{000B}' || c == '\U{000C}'
    || c == '\U{00A0}' || c == '\U{FEFF}' || c == '\U{1680}'
    || ('\U{2000}' <= c <= '\U{200A}')
    || c == '\U{2028}' || c == '\U{2029}' || c == '\U{202F}' || c == '\U{205F}' || c == '\U{3000}'
  }

  /** LineTerminator of ECMA-262: what a regular expression `.` refuses. */
  predicate IsLineTerminator(c: char) {
    c == '\n' || c == '\r' || c == '\U{2028}' || c == '\U{2029}'
  }

  function TrimStart(s: string): (r: string)
    ensures |r| <= |s| && r == s[|s| - |r|..]
    ensures r != [] ==> !IsJsWhitespace(r[0])
    ensures forall i :: 0 <= i < |s| - |r| ==> IsJsWhitespace(s[i])
  {
    if s != [] && IsJsWhitespace(s[0]) then TrimStart(s[1..]) else s
  }

  function TrimEnd(s: string): (r: string)
    ensures |r| <= |s| && r == s[..|r|]
    ensures r != [] ==> !IsJsWhitespace(r[|r| - 1])
    ensures forall i :: |r| <= i < |s| ==> IsJsWhitespace(s[i])
  {
    if s != [] && IsJsWhitespace(s[|s| - 1]) then TrimEnd(s[..|s| - 1]) else s
  }

  /** `s.trim()` */
  function Trim(s: string): (r: string) {
    TrimEnd(TrimStart(s))
  }

  /** `trim()` gives the empty string exactly for whitespace-only input. */
  lemma TrimEmptyIffBlank(s: string)
    ensures Trim(s) == [] <==> forall i :: 0 <= i < |s| ==> IsJsWhitespace(s[i])
  {
    var a := TrimStart(s);
    if Trim(s) != [] {
      var r := Trim(s);
      assert r[0] == a[0];
      assert !IsJsWhitespace(s[|s| - |a|]);
    }
  }

  /** `trim()` keeps a string that neither starts nor ends with whitespace. */
  lemma TrimKeeps(s: string)
    requires s != [] ==> !IsJsWhitespace(s[0]) && !IsJsWhitespace(s[|s| - 1])
    ensures Trim(s) == s
  {
  }

  // ---------------------------------------------------------------------
  // Case mapping (ASCII letters only)

  function LowerChar(c: char): char {
    if 'A' <= c <= 'Z' then (c as int + 32) as char else c
  }

  function UpperChar(c: char): char {
    if 'a' <= c <= 'z' then (c as int - 32) as char else c
  }

  /** `s.toLowerCase()`, for ASCII letters. */
  function ToLower(s: string): (r: string)
    ensures |r| == |s|
    ensures forall i :: 0 <= i < |s| ==> r[i] == LowerChar(s[i])
  {
    seq(|s|, i requires 0 <= i < |s| => LowerChar(s[i]))
  }

  /** `s.toUpperCase()`, for ASCII letters. */
  function ToUpper(s: string): (r: string)
    ensures |r| == |s|
    ensures forall i :: 0 <= i < |s| ==> r[i] == UpperChar(s[i])
  {
    seq(|s|, i requires 0 <= i < |s| => UpperChar(s[i]))
  }

  lemma ToLowerIdempotent(s: string)
    ensures ToLower(ToLower(s)) == ToLower(s)
  {
  }

  // ---------------------------------------------------------------------
  // Numbers and their decimal text

  function DigitChar(d: int): char
    requires 0 <= d < 10
  {
    ('0' as int + d) as char
  }

  predicate IsDigit(c: char) {
    '0' <= c <= '9'
  }

  /** The decimal digits of a natural number, without leading zeros. */
  function NatToString(n: nat): (r: string)
    ensures r != []
    ensures forall i :: 0 <= i < |r| ==> IsDigit(r[i])
    ensures |r| > 1 ==> r[0] != '0'
  {
    if n < 10 then [DigitChar(n)] else NatToString(n / 10) + [DigitChar(n % 10)]
  }

  /** `String(n)` for an integer. */
  function IntToString(n: int): (r: string)
    ensures r != []
  {
    if n < 0 then "-" + NatToString(-n) else NatToString(n)
  }

  predicate AllDigits(s: string) {
    forall i :: 0 <= i < |s| ==> IsDigit(s[i])
  }

  function DecimalValue(s: string): (v: nat)
    requires AllDigits(s)
  {
    if s == [] then 0 else DecimalValue(s[..|s| - 1]) * 10 + (s[|s| - 1] as int - '0' as int)
  }

  lemma {:induction false} DecimalValueOfNatToString(n: nat)
    ensures DecimalValue(NatToString(n)) == n
  {
    if n >= 10 {
      var r := NatToString(n);
      assert r[..|r| - 1] == NatToString(n / 10);
      DecimalValueOfNatToString(n / 10);
    }
  }

  /** The value of a digit or letter as a digit in a base up to 36, and 36
      for any other character. */
  function DigitValue(c: char): (v: nat)
    ensures v <= 36
    ensures v < 10 <==> IsDigit(c)
  {
    if '0' <= c <= '9' then c as int - '0' as int
    else if 'a' <= c <= 'z' then c as int - 'a' as int + 10
    else if 'A' <= c <= 'Z' then c as int - 'A' as int + 10
    else 36
  }

  predicate AllRadixDigits(s: string, base: nat) {
    forall i :: 0 <= i < |s| ==> DigitValue(s[i]) < base
  }

  function RadixValue(s: string, base: nat): (v: nat)
    requires AllRadixDigits(s, base)
  {
    if s == [] then 0 else RadixValue(s[..|s| - 1], base) * base + DigitValue(s[|s| - 1])
  }

  /** The base a `0x`, `0o` or `0b` prefix (in either case) selects for the
      digits after it, or 0 when the text has no such prefix and digits. */
  function PrefixBase(t: string): (base: nat)
    ensures base in {0, 2, 8, 16}
    ensures base != 0 ==> |t| > 2 && t[0] == '0'
  {
    if |t| <= 2 || t[0] != '0' then 0
    else if t[1] == 'x' || t[1] == 'X' then 16
    else if t[1] == 'o' || t[1] == 'O' then 8
    else if t[1] == 'b' || t[1] == 'B' then 2
    else 0
  }

  /** StringToNumber (section 7.1.4.1.1 of ECMA-262) for optionally signed
      decimal integers and unsigned `0x`, `0o` and `0b` integers; blank text
      is 0 and any other text is NaN. */
  function StringToNumber(s: string): (r: Scalar)
    ensures r.Num? || r.NaN?
  {
    TrimmedToNumber(Trim(s))
  }

  /** `StringToNumber` of a text already trimmed. */
  function TrimmedToNumber(t: string): (r: Scalar)
    ensures r.Num? || r.NaN?
  {
    if t == [] then Num(0)
    else if AllDigits(t) then Num(DecimalValue(t))
    else if |t| > 1 && t[0] == '-' && AllDigits(t[1..]) then Num(-(DecimalValue(t[1..]) as int))
    else if |t| > 1 && t[0] == '+' && AllDigits(t[1..]) then Num(DecimalValue(t[1..]))
    else if PrefixBase(t) != 0 && AllRadixDigits(t[2..], PrefixBase(t)) then Num(RadixValue(t[2..], PrefixBase(t)))
    else NaN
  }

  /** The characters a numeric text (section 7.1.4.1 of ECMA-262) can hold
      once trimmed: digits, signs, the point, exponent and radix letters,
      hexadecimal digits and the letters of `Infinity`. */
  predicate NumericLiteralChar(c: char) {
    IsDigit(c) || c in "+-.eExXoObBaAbcCdDfFInity"
  }

  /** A text holding any other character reads as NaN, in the model and in
      JavaScript alike. */
  lemma ForeignCharIsNaN(s: string, i: nat)
    requires i < |Trim(s)| && !NumericLiteralChar(Trim(s)[i])
    ensures StringToNumber(s) == NaN
  {
    ForeignCharInTrimmed(Trim(s), i);
  }

  lemma ForeignCharInTrimmed(t: string, i: nat)
    requires i < |t| && !NumericLiteralChar(t[i])
    ensures TrimmedToNumber(t) == NaN
  {
    assert !AllDigits(t);
    if i > 0 {
      assert t[1..][i - 1] == t[i];
    }
    if i >= 2 {
      assert t[2..][i - 2] == t[i];
      assert DigitValue(t[i]) >= 16;
    }
  }

  /** `Number(v)` */
  function ToNumber(v: Scalar): (r: Scalar)
    ensures r.Num? || r.NaN?
  {
    match v
    case Undef => NaN
    case Null => Num(0)
    case Bool(b) => Num(if b then 1 else 0)
    case Num(n) => Num(n)
    case NaN => NaN
    case Str(s) => StringToNumber(s)
  }

  /** `String(v)` */
  function ToStr(v: Scalar): string {
    match v
    case Undef => "undefined"
    case Null => "null"
    case Bool(b) => if b then "true" else "false"
    case Num(n) => IntToString(n)
    case NaN => "NaN"
    case Str(s) => s
  }

  /** `Number(a) === Number(b)` */
  predicate NumEq(a: Scalar, b: Scalar) {
    StrictEq(ToNumber(a), ToNumber(b))
  }

  /** `String(a) === String(b)` */
  predicate StrEq(a: Scalar, b: Scalar) {
    ToStr(a) == ToStr(b)
  }

  /** `Number(String(n)) === n`: the decimal text of an integer reads back
      as that integer. */
  lemma {:induction false} NumberOfString(n: int)
    ensures StringToNumber(IntToString(n)) == Num(n)
  {
    if n < 0 {
      NegativeNumberText(-n);
    } else {
      DecimalValueOfNatToString(n);
      DigitsReadAsNumber(NatToString(n));
    }
  }

  lemma NegativeNumberText(m: nat)
    requires m > 0
    ensures StringToNumber(IntToString(-(m as int))) == Num(-(m as int))
  {
    var d := NatToString(m);
    assert AllDigits(d);
    NegativeDigitsReadAsNumber(d);
    DecimalValueOfNatToString(m);
    assert IntToString(-(m as int)) == "-" + d;
  }

  /** A minus sign followed by decimal digits reads as the negated value. */
  lemma NegativeDigitsReadAsNumber(d: string)
    requires d != [] && AllDigits(d)
    ensures StringToNumber("-" + d) == Num(-(DecimalValue(d) as int))
  {
    var t := "-" + d;
    assert t[1..] == d;
    assert !IsJsWhitespace(t[0]);
    assert t[|t| - 1] == d[|d| - 1];
    assert IsDigit(t[|t| - 1]);
    TrimKeeps(t);
    assert !AllDigits(t) by { assert !IsDigit(t[0]); }
  }

  /** For numbers, comparing as strings and comparing as numbers agree. */
  lemma NumbersCompareAlikeAsStrings(a: int, b: int)
    ensures StrEq(Num(a), Num(b)) <==> NumEq(Num(a), Num(b))
  {
    if IntToString(a) == IntToString(b) {
      NumberOfString(a);
      NumberOfString(b);
    }
  }

  /** But a string id and a numeric id can be equal as numbers and differ as
      strings: `Number("07") === Number(7)` while `"07" !== "7"`. */
  lemma StringAndNumberComparisonsDiffer()
    ensures NumEq(Str("07"), Num(7)) && !StrEq(Str("07"), Num(7))
  {
    var t := "07";
    assert AllDigits(t);
    assert DecimalValue(t) == 7 by {
      assert t[..1] == "0" && t[..1][..0] == [];
    }
    DigitsReadAsNumber(t);
    assert ToStr(Num(7)) == "7";
  }

  /** Decimal digits read as their value, leading zeros and all. */
  lemma DigitsReadAsNumber(s: string)
    requires s != [] && AllDigits(s)
    ensures StringToNumber(s) == Num(DecimalValue(s))
  {
    TrimKeeps(s);
  }

  // ---------------------------------------------------------------------
  // 32-bit integer conversion

  const TwoTo31: int := 0x8000_0000
  const TwoTo32: int := 0x1_0000_0000

  /** ToInt32 (section 7.1.6 of ECMA-262) on an integral value. */
  function ToInt32(x: int): (r: int)
    ensures -TwoTo31 <= r < TwoTo31
    ensures (x - r) % TwoTo32 == 0
    ensures -TwoTo31 <= x < TwoTo31 ==> r == x
  {
    var m := x % TwoTo32;
    if m >= TwoTo31 then m - TwoTo32 else m
  }

  /** `x << 5`: the operand is brought into 32 bits, shifted, and the
      result brought into 32 bits again. */
  function ShiftLeft5(x: int): (r: int)
    ensures -TwoTo31 <= r < TwoTo31
  {
    ToInt32(ToInt32(x) * 32)
  }

  /** `x >> 2`: sign-propagating, so it rounds toward minus infinity, which
      is what Dafny's `/` by a positive divisor does. */
  function ShiftRight2(x: int): (r: int)
    ensures -TwoTo31 <= r < TwoTo31
    ensures 0 <= x < TwoTo31 ==> r == x / 4
  {
    ToInt32(x) / 4
  }

  /** `Math.abs(x)` */
  function Abs(x: int): (r: nat)
    ensures r == x || r == -x
  {
    if x < 0 then -x else x
  }

  /** The `%` operator of JavaScript: the sign follows the dividend. */
  function JsRem(a: int, b: int): (r: int)
    requires b > 0
    ensures a >= 0 ==> 0 <= r < b
    ensures a < 0 ==> -b < r <= 0
  {
    if a >= 0 then a % b else -((-a) % b)
  }

  // ---------------------------------------------------------------------
  // String helpers

  /** `s.startsWith(p)` */
  predicate StartsWith(s: string, p: string) {
    |p| <= |s| && s[..|p|] == p
  }

  predicate Occurs(s: string, p: string, i: int) {
    0 <= i && i + |p| <= |s| && s[i..i + |p|] == p
  }

  /** `s.indexOf(p)`, starting the search at `from`. */
  function IndexOfFrom(s: string, p: string, from: nat): (r: Option<nat>)
    decreases |s| - from
    ensures r.Some? ==> from <= r.value && Occurs(s, p, r.value)
    ensures r.Some? ==> forall j :: from <= j < r.value ==> !Occurs(s, p, j)
    ensures r.None? ==> forall j :: from <= j ==> !Occurs(s, p, j)
  {
    if from + |p| > |s| then None
    else if s[from..from + |p|] == p then Some(from)
    else IndexOfFrom(s, p, from + 1)
  }

  /** `s.replace(p, rep)` with a string pattern: only the first occurrence. */
  function ReplaceFirst(s: string, p: string, rep: string): (r: string)
    ensures IndexOfFrom(s, p, 0).None? ==> r == s
    ensures IndexOfFrom(s, p, 0).Some? ==>
      var i := IndexOfFrom(s, p, 0).value;
      r == s[..i] + rep + s[i + |p|..]
  {
    match IndexOfFrom(s, p, 0)
    case None => s
    case Some(i) => s[..i] + rep + s[i + |p|..]
  }

  /** `s.split(sep).pop()` for a set of one-character separators: the text
      after the last separator, or all of `s` when there is none. */
  function LastSegment(s: string, seps: set<char>): (r: string)
    ensures |r| <= |s| && r == s[|s| - |r|..]
    ensures forall i :: 0 <= i < |r| ==> r[i] !in seps
    ensures |r| < |s| ==> s[|s| - |r| - 1] in seps
  {
    if s == [] then []
    else if s[|s| - 1] in seps then []
    else LastSegment(s[..|s| - 1], seps) + [s[|s| - 1]]
  }

  /** `s.split(sep)[0]`: the text before the first separator. */
  function FirstSegment(s: string, sep: char): (r: string)
    ensures |r| <= |s| && r == s[..|r|]
    ensures forall i :: 0 <= i < |r| ==> r[i] != sep
    ensures |r| < |s| ==> s[|r|] == sep
  {
    if s == [] || s[0] == sep then [] else [s[0]] + FirstSegment(s[1..], sep)
  }

  /** `s.split(sep)` for a one-character separator. */
  function Split(s: string, sep: char): (r: seq<string>)
    ensures |r| >= 1
    decreases |s|
  {
    var head := FirstSegment(s, sep);
    if |head| == |s| then [s] else [head] + Split(s[|head| + 1..], sep)
  }

  /** `parts.join(sep)` */
  function Join(parts: seq<string>, sep: string): string {
    if parts == [] then []
    else if |parts| == 1 then parts[0]
    else parts[0] + sep + Join(parts[1..], sep)
  }

  /** Elements of `xs` satisfying `p`, in order: `xs.filter(p)`. */
  function Filter<T>(xs: seq<T>, p: T -> bool): (r: seq<T>)
    ensures |r| <= |xs|
    ensures forall x :: x in r ==> x in xs && p(x)
    ensures forall x :: x in xs && p(x) ==> x in r
  {
    if xs == [] then [] else (if p(xs[0]) then [xs[0]] else []) + Filter(xs[1..], p)
  }

  lemma FilterAll<T>(xs: seq<T>, p: T -> bool)
    requires forall x :: x in xs ==> p(x)
    ensures Filter(xs, p) == xs
  {
  }

  lemma FilterNone<T>(xs: seq<T>, p: T -> bool)
    requires forall x :: x in xs ==> !p(x)
    ensures Filter(xs, p) == []
  {
  }

  /** Filtering a list with a first element filters that element, then
      the rest. */
  lemma FilterCons<T>(x: T, rest: seq<T>, p: T -> bool)
    ensures Filter([x] + rest, p) == (if p(x) then [x] else []) + Filter(rest, p)
  {
    assert ([x] + rest)[1..] == rest;
  }

  lemma ConcatAssoc<T>(a: seq<T>, b: seq<T>, c: seq<T>)
    ensures a + (b + c) == (a + b) + c
  {
  }

  lemma {:induction false} FilterAppend<T>(xs: seq<T>, ys: seq<T>, p: T -> bool)
    ensures Filter(xs + ys, p) == Filter(xs, p) + Filter(ys, p)
  {
    if xs != [] {
      var x, rest := xs[0], xs[1..];
      var head := if p(x) then [x] else [];
      assert xs == [x] + rest;
      assert xs + ys == [x] + (rest + ys);
      FilterCons(x, rest, p);
      FilterCons(x, rest + ys, p);
      FilterAppend(rest, ys, p);
      ConcatAssoc(head, Filter(rest, p), Filter(ys, p));
    } else {
      assert xs + ys == ys;
    }
  }

  lemma FilterMultiset<T>(xs: seq<T>, p: T -> bool)
    ensures multiset(xs) == multiset(Filter(xs, p)) + multiset(Filter(xs, x => !p(x)))
  {
    if xs != [] {
      assert xs == [xs[0]] + xs[1..];
      FilterMultiset(xs[1..], p);
    }
  }

  /** A filter keeps every copy of an element that passes and none of one
      that fails. */
  lemma {:induction false} FilterMultiplicity<T>(xs: seq<T>, p: T -> bool, x: T)
    ensures multiset(Filter(xs, p))[x] == if p(x) then multiset(xs)[x] else 0
  {
    if xs != [] {
      FilterMultiplicity(xs[1..], p, x);
      assert xs == [xs[0]] + xs[1..];
      assert multiset(xs) == multiset{xs[0]} + multiset(xs[1..]);
    }
  }

  /** Number of elements of `xs` satisfying `p`. */
  function Count<T>(xs: seq<T>, p: T -> bool): (n: nat)
    ensures n <= |xs|
  {
    |Filter(xs, p)|
  }
}
