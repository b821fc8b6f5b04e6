/** String helpers with the semantics of the JavaScript built-ins the handlers
    call (`toLowerCase`, `trim`, `includes`, `split`, `parseInt`, `String(n)`,
    `encodeURIComponent`, `new Set(...)` de-duplication). Case mapping is
    restricted to ASCII. */
module Text {
  import opened Wrappers
  import Seqs

  /** JavaScript truthiness of an optional string: absent and "" are falsy. */
  predicate Truthy(s: Option<string>) {
    s.Some? && s.value != ""
  }

  // ---------------------------------------------------------------- case

  predicate IsAsciiUpper(c: char) { 'A' <= c <= 'Z' }

  /** An ASCII capital becomes its small letter; every other character is
      kept. */
  function LowerChar(c: char): (r: char)
    ensures !IsAsciiUpper(r)
    ensures IsAsciiUpper(c) ==> 'a' <= r <= 'z' && r as int - 'a' as int == c as int - 'A' as int
    ensures !IsAsciiUpper(c) ==> r == c
  {
    if IsAsciiUpper(c) then (c as int + 32) as char else c
  }

  /** `s.toLowerCase()` on ASCII letters: each character lowered on its own. */
  function Lower(s: string): (r: string)
    ensures |r| == |s|
    ensures forall i :: 0 <= i < |r| ==> !IsAsciiUpper(r[i])
    ensures forall i :: 0 <= i < |s| ==> r[i] == LowerChar(s[i])
  {
    seq(|s|, i requires 0 <= i < |s| => LowerChar(s[i]))
  }

  // ---------------------------------------------------------------- trim

  /** The characters `String.prototype.trim` strips: WhiteSpace and LineTerminator. */
  predicate IsJsSpace(c: char) {
    || c == ' ' || c == '\t' || c == '\n' || c == '\r'
    || c == '\U{000B}' || c == '\U{000C}' || c == '\U{00A0}' || c == '\U{FEFF}'
    || c == '\U{1680}' || ('\U{2000}' <= c <= '\U{200A}')
    || c == '\U{2028}' || c == '\U{2029}' || c == '\U{202F}' || c == '\U{205F}'
    || c == '\U{3000}'
  }

  function LeadingSpaces(s: string): (k: nat)
    ensures k <= |s|
    ensures forall i :: 0 <= i < k ==> IsJsSpace(s[i])
    ensures k < |s| ==> !IsJsSpace(s[k])
  {
    if s == [] || !IsJsSpace(s[0]) then 0 else 1 + LeadingSpaces(s[1..])
  }

  function TrailingSpaces(s: string): (k: nat)
    ensures k <= |s|
    ensures forall i :: |s| - k <= i < |s| ==> IsJsSpace(s[i])
    ensures k < |s| ==> !IsJsSpace(s[|s| - k - 1])
  {
    if s == [] || !IsJsSpace(s[|s| - 1]) then 0 else 1 + TrailingSpaces(s[..|s| - 1])
  }

  function TrimStart(s: string): (r: string)
    ensures r == [] || !IsJsSpace(r[0])
    ensures |r| <= |s| && r == s[|s| - |r|..]
  {
    s[LeadingSpaces(s)..]
  }

  /** `s.trim()`: the input with exactly its leading and trailing spaces
      removed. The result is the stretch of `s` after its leading spaces;
      everything of `s` outside it is a space, and it starts and ends with a
      non-space; so a string without outer spaces is returned unchanged. */
  function Trim(s: string): (r: string)
    ensures var a := LeadingSpaces(s); a + |r| <= |s| && r == s[a..a + |r|]
    ensures forall i :: 0 <= i < |s| && !(LeadingSpaces(s) <= i < LeadingSpaces(s) + |r|) ==> IsJsSpace(s[i])
    ensures r == [] || (!IsJsSpace(r[0]) && !IsJsSpace(r[|r| - 1]))
    ensures (s == [] || (!IsJsSpace(s[0]) && !IsJsSpace(s[|s| - 1]))) ==> r == s
  {
    var a := LeadingSpaces(s);
    var t := TrimStart(s);
    assert t == s[a..];
    var r := t[..|t| - TrailingSpaces(t)];
    assert r == s[a..a + |r|];
    r
  }

  // ---------------------------------------------------------------- includes

  /** `hay.includes(needle)`. */
  predicate Contains(hay: string, needle: string)
    decreases |hay|
  {
    needle <= hay || (|hay| > 0 && Contains(hay[1..], needle))
  }

  /** `needle` occurs in `hay` starting at position `i`. */
  predicate OccursAt(hay: string, needle: string, i: int) {
    0 <= i && i + |needle| <= |hay| && hay[i..i + |needle|] == needle
  }

  /** `includes` holds exactly when the needle occurs at some position. */
  lemma {:induction false} ContainsIffOccurs(hay: string, needle: string)
    ensures Contains(hay, needle) <==> exists i :: OccursAt(hay, needle, i)
    decreases |hay|
  {
    if needle <= hay {
      assert OccursAt(hay, needle, 0);
    } else if |hay| == 0 {
    } else {
      ContainsIffOccurs(hay[1..], needle);
      if Contains(hay[1..], needle) {
        var i :| OccursAt(hay[1..], needle, i);
        assert hay[i + 1..i + 1 + |needle|] == hay[1..][i..i + |needle|];
        assert OccursAt(hay, needle, i + 1);
      }
      if exists i :: OccursAt(hay, needle, i) {
        var i :| OccursAt(hay, needle, i);
        if i > 0 {
          assert hay[1..][i - 1..i - 1 + |needle|] == hay[i..i + |needle|];
          assert OccursAt(hay[1..], needle, i - 1);
        }
      }
    }
  }

  // ---------------------------------------------------------------- split

  function IndexOf(s: string, c: char): (i: nat)
    requires c in s
    ensures i < |s| && s[i] == c && c !in s[..i]
  {
    if s[0] == c then 0 else 1 + IndexOf(s[1..], c)
  }

  /** Inverse of `Split`: `pieces.join(sep)`. */
  function Join(pieces: seq<string>, sep: char): string
    requires |pieces| >= 1
  {
    if |pieces| == 1 then pieces[0] else pieces[0] + [sep] + Join(pieces[1..], sep)
  }

  /** `s.split(sep)` for a one-character separator: never empty, no piece holds
      the separator, and joining the pieces gives back `s`. */
  function Split(s: string, sep: char): (r: seq<string>)
    ensures |r| >= 1
    ensures forall k :: 0 <= k < |r| ==> sep !in r[k]
    ensures Join(r, sep) == s
    decreases |s|
  {
    if sep !in s then [s]
    else
      var i := IndexOf(s, sep);
      var rest := Split(s[i + 1..], sep);
      assert s == s[..i] + [sep] + s[i + 1..];
      [s[..i]] + rest
  }

  // ---------------------------------------------------------------- numbers

  predicate IsDigit(c: char) { '0' <= c <= '9' }

  predicate AllDigits(s: string) { forall i :: 0 <= i < |s| ==> IsDigit(s[i]) }

  function DigitValue(c: char): nat
    requires IsDigit(c)
  {
    c as int - '0' as int
  }

  function DigitChar(d: nat): (c: char)
    requires d < 10
    ensures IsDigit(c) && DigitValue(c) == d
  {
    ('0' as int + d) as char
  }

  /** The decimal value of a digit string (most significant digit first). */
  function DigitsValue(d: string): nat
    requires AllDigits(d)
    decreases |d|
  {
    if d == [] then 0 else DigitsValue(d[..|d| - 1]) * 10 + DigitValue(d[|d| - 1])
  }

  function DigitPrefixLength(s: string): (k: nat)
    ensures k <= |s| && AllDigits(s[..k])
    ensures k < |s| ==> !IsDigit(s[k])
  {
    if s == [] || !IsDigit(s[0]) then 0
    else
      var k := 1 + DigitPrefixLength(s[1..]);
      assert s[..k] == [s[0]] + s[1..][..k - 1];
      k
  }

  /** `parseInt(s, 10)`: leading spaces are skipped, one optional sign is read,
      then the longest run of digits; no digits gives NaN (`None`); anything
      after the digits is ignored. */
  function ParseInt(s: string): (r: Option<int>)
    ensures r.Some? <==>
      var t := TrimStart(s);
      var u := if |t| > 0 && (t[0] == '-' || t[0] == '+') then t[1..] else t;
      |u| > 0 && IsDigit(u[0])
  {
    SignedDigits(TrimStart(s))
  }

  /** The sign and digit run at the head of `t`, as `parseInt` reads them once
      the leading spaces are gone. */
  function SignedDigits(t: string): Option<int> {
    if t != [] && t[0] == '-' then
      match UnsignedDigits(t[1..])
      case None => None
      case Some(v) => Some(-v)
    else if t != [] && t[0] == '+' then UnsignedDigits(t[1..])
    else UnsignedDigits(t)
  }

  /** The value of the digit run at the head of `u`, if there is one. */
  function UnsignedDigits(u: string): Option<int> {
    var k := DigitPrefixLength(u);
    if k == 0 then None else Some(DigitsValue(u[..k]))
  }

  /** The leading spaces of a string that continues with a non-space are
      exactly the spaces written before it. */
  lemma {:induction false} LeadingSpacesOf(pre: string, t: string)
    requires forall i :: 0 <= i < |pre| ==> IsJsSpace(pre[i])
    requires t != [] && !IsJsSpace(t[0])
    ensures LeadingSpaces(pre + t) == |pre|
    decreases |pre|
  {
    if pre == [] {
      assert pre + t == t;
    } else {
      assert (pre + t)[1..] == pre[1..] + t;
      LeadingSpacesOf(pre[1..], t);
    }
  }

  /** The digit run of digits followed by a non-digit is those digits. */
  lemma {:induction false} DigitPrefixOfRun(d: string, rest: string)
    requires AllDigits(d)
    requires rest == [] || !IsDigit(rest[0])
    ensures DigitPrefixLength(d + rest) == |d|
    decreases |d|
  {
    if d == [] {
      assert d + rest == rest;
    } else {
      assert (d + rest)[1..] == d[1..] + rest;
      DigitPrefixOfRun(d[1..], rest);
    }
  }

  /** `parseInt` reads the value of the digits that follow the leading
      spaces, and ignores whatever comes after them: an independent statement
      of what `ParseInt` computes, here without a sign ... */
  lemma ParseIntReads(pre: string, d: string, rest: string)
    requires forall i :: 0 <= i < |pre| ==> IsJsSpace(pre[i])
    requires d != [] && AllDigits(d)
    requires rest == [] || !IsDigit(rest[0])
    ensures ParseInt(pre + d + rest) == Some(DigitsValue(d) as int)
  {
    var u := d + rest;
    Seqs.AppendAssoc(pre, d, rest);
    UnsignedRun(d, rest);
    ParseIntSkipsSpaces(pre, u);
  }

  /** ... and with a sign, which negates the value or keeps it. */
  lemma ParseIntReadsSigned(pre: string, sign: char, d: string, rest: string)
    requires forall i :: 0 <= i < |pre| ==> IsJsSpace(pre[i])
    requires sign == '-' || sign == '+'
    requires d != [] && AllDigits(d)
    requires rest == [] || !IsDigit(rest[0])
    ensures ParseInt(pre + [sign] + d + rest) == Some(if sign == '-' then -(DigitsValue(d) as int) else DigitsValue(d))
  {
    var t := [sign] + (d + rest);
    Seqs.AppendAssoc(pre + [sign], d, rest);
    Seqs.AppendAssoc(pre, [sign], d + rest);
    SignedRun(sign, d, rest);
    ParseIntSkipsSpaces(pre, t);
  }

  lemma SignedRun(sign: char, d: string, rest: string)
    requires sign == '-' || sign == '+'
    requires d != [] && AllDigits(d)
    requires rest == [] || !IsDigit(rest[0])
    ensures SignedDigits([sign] + (d + rest)) == Some(if sign == '-' then -(DigitsValue(d) as int) else DigitsValue(d))
  {
    UnsignedRun(d, rest);
    Seqs.ConsTail(sign, d + rest);
  }

  lemma ParseIntSkipsSpaces(pre: string, t: string)
    requires forall i :: 0 <= i < |pre| ==> IsJsSpace(pre[i])
    requires t != [] && !IsJsSpace(t[0])
    ensures ParseInt(pre + t) == SignedDigits(t)
  {
    LeadingSpacesOf(pre, t);
    assert TrimStart(pre + t) == t;
  }

  lemma UnsignedRun(d: string, rest: string)
    requires d != [] && AllDigits(d)
    requires rest == [] || !IsDigit(rest[0])
    ensures IsDigit((d + rest)[0])
    ensures UnsignedDigits(d + rest) == Some(DigitsValue(d) as int)
  {
    var u := d + rest;
    DigitPrefixOfRun(d, rest);
    assert u[..|d|] == d;
  }

  lemma {:induction false} DigitPrefixOfDigits(s: string)
    requires AllDigits(s)
    ensures DigitPrefixLength(s) == |s|
    decreases |s|
  {
    if s != [] {
      DigitPrefixOfDigits(s[1..]);
    }
  }

  /** JavaScript's `x || d` on a number that may be NaN: NaN and 0 give `d`. */
  function OrElse(x: Option<int>, d: int): (r: int)
    ensures r == d || (x.Some? && r == x.value && x.value != 0)
    ensures x.Some? && x.value != 0 ==> r == x.value
  {
    if x.None? || x.value == 0 then d else x.value
  }

  /** `Math.min(Math.max(x, lo), hi)`. */
  function Clamp(x: int, lo: int, hi: int): (r: int)
    requires lo <= hi
    ensures lo <= r <= hi
    ensures lo <= x <= hi ==> r == x
    ensures x < lo ==> r == lo
    ensures x > hi ==> r == hi
  {
    if x < lo then lo else if x > hi then hi else x
  }

  /** `String(n)` for a non-negative integer: canonical decimal digits. */
  function IntToString(n: nat): (r: string)
    ensures |r| >= 1 && AllDigits(r)
    ensures DigitsValue(r) == n
    ensures r[0] == '0' ==> n == 0
    decreases n
  {
    if n < 10 then [DigitChar(n)]
    else
      var p := IntToString(n / 10);
      var r := p + [DigitChar(n % 10)];
      assert r[..|r| - 1] == p;
      r
  }

  /** `parseInt(String(n), 10) == n`. */
  lemma ParseIntOfString(n: nat)
    ensures ParseInt(IntToString(n)) == Some(n)
  {
    var r := IntToString(n);
    assert [] + r + [] == r;
    ParseIntReads([], r, []);
  }

  /** `parseInt("-" + String(n), 10) == -n`. */
  lemma ParseIntOfNegative(n: nat)
    ensures ParseInt("-" + IntToString(n)) == Some(-(n as int))
  {
    var r := IntToString(n);
    assert [] + ['-'] + r + [] == "-" + r;
    ParseIntReadsSigned([], '-', r, []);
  }

  // ---------------------------------------------------------------- URIs

  /** The characters `encodeURIComponent` leaves unescaped. */
  predicate IsUriUnreserved(c: char) {
    || ('A' <= c <= 'Z') || ('a' <= c <= 'z') || ('0' <= c <= '9')
    || c == '-' || c == '_' || c == '.' || c == '!' || c == '~' || c == '*'
    || c == '\'' || c == '(' || c == ')'
  }

  predicate IsUpperHex(c: char) { ('0' <= c <= '9') || ('A' <= c <= 'F') }

  function HexChar(d: nat): (c: char)
    requires d < 16
    ensures IsUpperHex(c)
  {
    if d < 10 then ('0' as int + d) as char else ('A' as int + d - 10) as char
  }

  type Octet = x: int | 0 <= x < 256

  /** The UTF-8 bytes of one Unicode scalar value. */
  function Utf8(c: char): (bs: seq<Octet>)
    ensures 1 <= |bs| <= 4
    ensures (|bs| == 1) == (c as int < 0x80)
  {
    var cp := c as int;
    if cp < 0x80 then [cp]
    else if cp < 0x800 then [0xC0 + cp / 64, 0x80 + cp % 64]
    else if cp < 0x10000 then [0xE0 + cp / 4096, 0x80 + (cp / 64) % 64, 0x80 + cp % 64]
    else [0xF0 + cp / 262144, 0x80 + (cp / 4096) % 64, 0x80 + (cp / 64) % 64, 0x80 + cp % 64]
  }

  /** `%XX` for each byte, upper-case hexadecimal. */
  function PercentBytes(bs: seq<Octet>): (r: string)
    ensures |r| == 3 * |bs|
    decreases |bs|
  {
    if bs == [] then [] else ['%', HexChar(bs[0] / 16), HexChar(bs[0] % 16)] + PercentBytes(bs[1..])
  }

  /** Only `%` and upper-case hexadecimal digits. */
  predicate PercentOnly(r: string) {
    forall i :: 0 <= i < |r| ==> r[i] == '%' || IsUpperHex(r[i])
  }

  lemma {:induction false} PercentBytesShape(bs: seq<Octet>)
    ensures PercentOnly(PercentBytes(bs))
    decreases |bs|
  {
    if bs != [] {
      PercentBytesShape(bs[1..]);
      var h := ['%', HexChar(bs[0] / 16), HexChar(bs[0] % 16)];
      var r := PercentBytes(bs);
      var t := PercentBytes(bs[1..]);
      assert r == h + t;
      forall i | 0 <= i < |r| ensures r[i] == '%' || IsUpperHex(r[i]) {
        if i >= 3 {
          assert r[i] == t[i - 3];
          assert t[i - 3] == '%' || IsUpperHex(t[i - 3]);
        } else if i == 0 {
          assert r[i] == '%';
        } else if i == 1 {
          assert r[i] == HexChar(bs[0] / 16);
          assert IsUpperHex(HexChar(bs[0] / 16));
        } else {
          assert r[i] == HexChar(bs[0] % 16);
          assert IsUpperHex(HexChar(bs[0] % 16));
        }
      }
    }
  }

  /** `encodeURIComponent(s)`: each character in turn, unreserved ones as
      they are, every other one as the `%XX` escapes of its UTF-8 bytes. */
  function EncodeUriComponent(s: string): string
    decreases |s|
  {
    if s == [] then []
    else
      var head := if IsUriUnreserved(s[0]) then [s[0]] else PercentBytes(Utf8(s[0]));
      head + EncodeUriComponent(s[1..])
  }

  /** The encoding only holds unreserved characters and `%XX` escapes, and
      a string of unreserved characters is left as it is. */
  lemma {:induction false} EncodeUriComponentShape(s: string)
    ensures var r := EncodeUriComponent(s);
            forall i :: 0 <= i < |r| ==> IsUriUnreserved(r[i]) || r[i] == '%' || IsUpperHex(r[i])
    ensures (forall i :: 0 <= i < |s| ==> IsUriUnreserved(s[i])) ==> EncodeUriComponent(s) == s
    decreases |s|
  {
    if s != [] {
      EncodeUriComponentShape(s[1..]);
      PercentBytesShape(Utf8(s[0]));
      var head := if IsUriUnreserved(s[0]) then [s[0]] else PercentBytes(Utf8(s[0]));
      var r := EncodeUriComponent(s);
      var t := EncodeUriComponent(s[1..]);
      assert r == head + t;
      forall i | 0 <= i < |r| ensures IsUriUnreserved(r[i]) || r[i] == '%' || IsUpperHex(r[i]) {
        if i >= |head| {
          assert r[i] == t[i - |head|];
        } else if IsUriUnreserved(s[0]) {
          assert r[i] == s[0];
        } else {
          var p := PercentBytes(Utf8(s[0]));
          assert r[i] == p[i];
          assert PercentOnly(p);
        }
      }
      if forall i :: 0 <= i < |s| ==> IsUriUnreserved(s[i]) {
        assert IsUriUnreserved(s[0]);
        assert forall i :: 0 <= i < |s[1..]| ==> IsUriUnreserved(s[1..][i]) by {
          forall i | 0 <= i < |s[1..]| ensures IsUriUnreserved(s[1..][i]) { assert s[1..][i] == s[i + 1]; }
        }
        assert s == [s[0]] + s[1..];
      }
    }
  }

  // ---------------------------------------------------------------- sets

  predicate Distinct<T(==)>(s: seq<T>) {
    forall i, j :: 0 <= i < j < |s| ==> s[i] != s[j]
  }

  /** A sequence without repeats, split at its head. */
  lemma DistinctTail<T>(s: seq<T>)
    requires Distinct(s) && s != []
    ensures Distinct(s[1..]) && s[0] !in s[1..]
    ensures forall x :: x in s <==> x == s[0] || x in s[1..]
  {
    var t := s[1..];
    forall i, j | 0 <= i < j < |t| ensures t[i] != t[j] {
      assert t[i] == s[i + 1] && t[j] == s[j + 1];
    }
    forall x | x in t ensures x != s[0] {
      var k :| 0 <= k < |t| && t[k] == x;
      assert s[k + 1] == x;
    }
    assert s == [s[0]] + t;
  }

  /** Insertion-ordered de-duplication, as `Array.from(new Set(s))`: each value
      kept once, at its first occurrence, skipping values already in `seen`. */
  function DedupeFrom<T(==,!new)>(s: seq<T>, seen: set<T>): (r: seq<T>)
    ensures Distinct(r)
    ensures forall x :: x in r <==> x in s && x !in seen
    decreases |s|
  {
    if s == [] then []
    else if s[0] in seen then DedupeFrom(s[1..], seen)
    else [s[0]] + DedupeFrom(s[1..], seen + {s[0]})
  }

  function Dedupe<T(==,!new)>(s: seq<T>): (r: seq<T>)
    ensures Distinct(r)
    ensures forall x :: x in r <==> x in s
  {
    DedupeFrom(s, {})
  }

  /** Appending a value keeps the earlier de-duplication and adds the value at
      the end exactly when it is new: this pins down first-occurrence order. */
  lemma {:induction false} DedupeFromSnoc<T(!new)>(s: seq<T>, seen: set<T>, x: T)
    ensures DedupeFrom(s + [x], seen) ==
            if x in s || x in seen then DedupeFrom(s, seen) else DedupeFrom(s, seen) + [x]
    decreases |s|
  {
    if s == [] {
      assert [] + [x] == [x];
    } else {
      assert (s + [x])[1..] == s[1..] + [x];
      if s[0] in seen {
        DedupeFromSnoc(s[1..], seen, x);
      } else {
        DedupeFromSnoc(s[1..], seen + {s[0]}, x);
      }
    }
  }

  lemma DedupeSnoc<T(!new)>(s: seq<T>, x: T)
    ensures Dedupe(s + [x]) == if x in s then Dedupe(s) else Dedupe(s) + [x]
  {
    DedupeFromSnoc(s, {}, x);
  }

  /** De-duplicating a sequence that is already distinct changes nothing. */
  lemma {:induction false} DedupeFromDistinct<T(!new)>(s: seq<T>, seen: set<T>)
    requires Distinct(s)
    requires forall i :: 0 <= i < |s| ==> s[i] !in seen
    ensures DedupeFrom(s, seen) == s
    decreases |s|
  {
    if s != [] {
      DedupeFromDistinct(s[1..], seen + {s[0]});
    }
  }
}
