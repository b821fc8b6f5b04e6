/** JavaScript's `ToNumber`, as far as the handlers compare a coerced value
    with an integer: `writes < maxWrites` on a cursor member (read through
    `JSON.parse`), `queue.length > 0` on an object, and the sweep's
    `syncId < currentSyncId` on a stored field. Values are exact: a decimal
    text is read as the rational it denotes, not rounded to a double. */
module Coerce {
  import opened Wrappers
  import opened Text
  import Json

  /** A Number as an integer comparison sees it: NaN, an infinity, an integer,
      or a finite non-integer known by its floor. */
  datatype JsNumber = NaN | Infinite(negative: bool) | Whole(n: int) | Fraction(floor: int)

  /** `x < m` for an integer `m`: NaN compares false; a non-integer is below
      `m` exactly when its floor is. */
  predicate Below(x: JsNumber, m: int) {
    match x
    case NaN => false
    case Infinite(neg) => neg
    case Whole(n) => n < m
    case Fraction(fl) => fl < m
  }

  /** `x > m` for an integer `m`. */
  predicate Above(x: JsNumber, m: int) {
    match x
    case NaN => false
    case Infinite(neg) => !neg
    case Whole(n) => n > m
    case Fraction(fl) => fl >= m
  }

  function Pow10(k: nat): (r: nat)
    ensures r >= 1
  {
    if k == 0 then 1 else 10 * Pow10(k - 1)
  }

  /** The Number `m * 10^k`. */
  function Scaled(m: int, k: int): (r: JsNumber)
    ensures r.Whole? || r.Fraction?
    ensures k >= 0 ==> r == Whole(m * Pow10(k))
    ensures k < 0 && r.Whole? ==> r.n * Pow10(-k) == m
    ensures k < 0 && r.Fraction? ==> r.floor * Pow10(-k) < m < (r.floor + 1) * Pow10(-k)
  {
    if k >= 0 then Whole(m * Pow10(k))
    else
      var d := Pow10(-k);
      if m % d == 0 then Whole(m / d) else Fraction(m / d)
  }

  // ------------------------------------------------------------ strings

  /** The value of one digit of base 2, 8 or 16, or 16 when the character is
      no such digit. */
  function RadixDigit(c: char): (v: nat)
    ensures v <= 16
  {
    if '0' <= c <= '9' then c as int - '0' as int
    else if 'a' <= c <= 'f' then c as int - 'a' as int + 10
    else if 'A' <= c <= 'F' then c as int - 'A' as int + 10
    else 16
  }

  predicate AllRadix(s: string, base: nat) {
    forall i :: 0 <= i < |s| ==> RadixDigit(s[i]) < base
  }

  function RadixValue(s: string, base: nat): nat
    requires AllRadix(s, base)
    decreases |s|
  {
    if s == [] then 0 else RadixValue(s[..|s| - 1], base) * base + RadixDigit(s[|s| - 1])
  }

  /** The digits after `0x`, `0o` or `0b`: at least one, all of the base. */
  function RadixNumber(s: string, base: nat): (r: JsNumber)
    ensures r.NaN? || r.Whole?
    ensures r.Whole? <==> s != [] && AllRadix(s, base)
  {
    if s != [] && AllRadix(s, base) then Whole(RadixValue(s, base)) else NaN
  }

  /** `e` or `E`, an optional sign and at least one digit, to the end. */
  function Exponent(s: string): Option<int> {
    if s == [] then Some(0)
    else if s[0] != 'e' && s[0] != 'E' then None
    else
      var t := s[1..];
      var neg := t != [] && t[0] == '-';
      var d := if t != [] && (t[0] == '-' || t[0] == '+') then t[1..] else t;
      if d == [] || !AllDigits(d) then None
      else Some(if neg then -(DigitsValue(d) as int) else DigitsValue(d))
  }

  /** An unsigned decimal literal — digits, an optional point with optional
      digits, or a point with digits; then an optional exponent — as the
      pair (m, k) of the value `m * 10^k`. */
  function UnsignedDecimal(u: string): Option<(nat, int)> {
    var a := DigitPrefixLength(u);
    var rest := u[a..];
    var frac := if rest != [] && rest[0] == '.' then rest[1..][..DigitPrefixLength(rest[1..])] else [];
    var tail := if rest != [] && rest[0] == '.' then rest[1 + |frac|..] else rest;
    if a + |frac| == 0 then None
    else match Exponent(tail)
      case None => None
      case Some(e) => Some((DigitsValue(u[..a] + frac), e - |frac|))
  }

  /** A signed decimal literal or `Infinity`, with nothing around it. */
  function DecimalNumber(t: string): JsNumber {
    var neg := t != [] && t[0] == '-';
    var u := if t != [] && (t[0] == '-' || t[0] == '+') then t[1..] else t;
    if u == "Infinity" then Infinite(neg)
    else match UnsignedDecimal(u)
      case None => NaN
      case Some((m, k)) => Scaled(if neg then -(m as int) else m, k)
  }

  /** `Number(s)`: the surrounding white space goes; nothing left is 0; a
      `0x`, `0o` or `0b` prefix reads the rest in base 16, 8 or 2 (no sign
      allowed); otherwise the text must be one signed decimal literal or
      `Infinity`; anything else is NaN. */
  function StringToNumber(s: string): JsNumber {
    NumberText(Trim(s))
  }

  /** `Number` of a text without surrounding white space. */
  function NumberText(t: string): JsNumber {
    if t == [] then Whole(0)
    else if |t| >= 2 && t[0] == '0' && (t[1] == 'x' || t[1] == 'X') then RadixNumber(t[2..], 16)
    else if |t| >= 2 && t[0] == '0' && (t[1] == 'o' || t[1] == 'O') then RadixNumber(t[2..], 8)
    else if |t| >= 2 && t[0] == '0' && (t[1] == 'b' || t[1] == 'B') then RadixNumber(t[2..], 2)
    else DecimalNumber(t)
  }

  // ------------------------------------------------------------ values

  /** `ToNumber` of a parsed JSON value: `null` is 0, a boolean 0 or 1, a
      string is read by `StringToNumber`; an array is read through its
      `join(",")` text, so `[]` is 0, `[x]` is `x` read as text and two or
      more elements (the text holds a comma) are NaN; an object is NaN. */
  function ValueToNumber(v: Json.Value): JsNumber
    decreases v
  {
    match v
    case Null => Whole(0)
    case Bool(b) => Whole(if b then 1 else 0)
    case Num(n) => Whole(n)
    case Str(s) => StringToNumber(s)
    case Arr(e) => if e == [] then Whole(0) else if |e| == 1 then ElementToNumber(e[0]) else NaN
    case Obj(_) => NaN
  }

  /** `ToNumber(String(x))` for the only element of an array: `null` joins
      as the empty text, a boolean as `true` or `false`, an object as
      `[object Object]`. */
  function ElementToNumber(x: Json.Value): JsNumber
    decreases x, 0
  {
    match x
    case Null => Whole(0)
    case Bool(_) => NaN
    case Num(n) => Whole(n)
    case Str(s) => StringToNumber(s)
    case Arr(e) => if e == [] then Whole(0) else if |e| == 1 then ElementToNumber(e[0]) else NaN
    case Obj(_) => NaN
  }

  /** A missing member (`undefined`) is NaN. */
  function MemberToNumber(v: Option<Json.Value>): JsNumber {
    match v
    case None => NaN
    case Some(x) => ValueToNumber(x)
  }

  // ------------------------------------------------------------ facts

  /** A string of decimal digits reads as the integer it spells. */
  lemma DigitsRead(r: string)
    requires |r| >= 1 && AllDigits(r) && (r[0] == '0' ==> |r| == 1)
    ensures StringToNumber(r) == Whole(DigitsValue(r))
  {
    assert StringToNumber(r) == NumberText(r) by {
      TrimDigits(r);
    }
    TextOfDigits(r);
  }

  lemma TextOfDigits(r: string)
    requires |r| >= 1 && AllDigits(r) && (r[0] == '0' ==> |r| == 1)
    ensures NumberText(r) == Whole(DigitsValue(r))
  {
    assert NumberText(r) == DecimalNumber(r) by {
      if |r| >= 2 { assert r[0] != '0'; }
    }
    DecimalOfDigits(r);
  }

  lemma TrimDigits(r: string)
    requires |r| >= 1 && AllDigits(r)
    ensures Trim(r) == r
  {
    assert !IsJsSpace(r[0]) && !IsJsSpace(r[|r| - 1]);
  }

  lemma DecimalOfDigits(r: string)
    requires |r| >= 1 && AllDigits(r)
    ensures DecimalNumber(r) == Whole(DigitsValue(r))
  {
    assert r != "Infinity" by { assert r[0] != 'I'; }
    UnsignedOfDigits(r);
  }

  lemma UnsignedOfDigits(r: string)
    requires AllDigits(r)
    ensures r != [] ==> UnsignedDecimal(r) == Some((DigitsValue(r), 0))
  {
    DigitPrefixOfDigits(r);
    assert r[|r|..] == [];
    assert r[..|r|] + [] == r;
  }

  /** `Number(String(n)) == n` for a non-negative integer. */
  lemma StringToNumberOfString(n: nat)
    ensures StringToNumber(IntToString(n)) == Whole(n)
  {
    var r := IntToString(n);
    if r[0] == '0' {
      assert n == 0;
      assert r == [DigitChar(0)];
    }
    DigitsRead(r);
  }

  /** The floor that `Fraction` carries decides a comparison with any
      integer the way the exact value does. */
  lemma FractionBelow(m: int, k: int, bound: int)
    requires k < 0
    ensures var d := Pow10(-k);
            Below(Scaled(m, k), bound) <==> m < bound * d
  {
    var d := Pow10(-k);
    var r := Scaled(m, k);
    if r.Fraction? {
      assert r.floor * d < m < (r.floor + 1) * d;
      if r.floor < bound {
        assert (r.floor + 1) * d <= bound * d by { MulMono(r.floor + 1, bound, d); }
      } else {
        assert bound * d <= r.floor * d by { MulMono(bound, r.floor, d); }
      }
    } else {
      assert r.n * d == m;
      if r.n < bound {
        MulMono(r.n + 1, bound, d);
      } else {
        MulMono(bound, r.n, d);
      }
    }
  }

  lemma MulMono(a: int, b: int, d: nat)
    requires a <= b
    ensures a * d <= b * d
  {
  }
}
