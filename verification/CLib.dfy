/** The parts of the C library that the drivers lean on, in the "C" locale. */
module CLib {
  import opened Bytes

  predicate IsDigit(c: char) { '0' <= c <= '9' }
  predicate IsLower(c: char) { 'a' <= c <= 'z' }
  predicate IsUpper(c: char) { 'A' <= c <= 'Z' }
  predicate IsAlpha(c: char) { IsLower(c) || IsUpper(c) }
  predicate IsAlnum(c: char) { IsDigit(c) || IsAlpha(c) }
  predicate IsXDigit(c: char) { IsDigit(c) || 'a' <= c <= 'f' || 'A' <= c <= 'F' }
  predicate IsSpace(c: char) { c == ' ' || '\t' <= c <= '\r' }
  predicate IsPrint(c: char) { ' ' <= c <= '~' }

  function ToLower(c: char): (r: char)
    ensures !IsUpper(r)
  {
    if IsUpper(c) then (c as int + 32) as char else c
  }

  /** The value of `c` as a digit of any base up to 36, or 36. */
  function DigitValue(c: char): nat {
    if IsDigit(c) then c as int - '0' as int
    else if IsLower(c) then 10 + (c as int - 'a' as int)
    else if IsUpper(c) then 10 + (c as int - 'A' as int)
    else 36
  }

  /** A C string is a `string` without the NUL that ends it. */
  ghost predicate NulFree(s: string) {
    forall i :: 0 <= i < |s| ==> s[i] != '\0'
  }

  /** The character at `p`, where the string ends with a NUL. */
  function CharAt(s: string, p: nat): char
    requires p <= |s|
  {
    if p < |s| then s[p] else '\0'
  }

  /** `strncmp(a, s + p, n) == 0` for C strings: they agree in `n` characters or, where
      that is more than there are, to the end of both. */
  predicate StrNEq(a: string, s: string, p: nat, n: nat)
    requires p <= |s|
  {
    if n <= |a| then p + n <= |s| && forall i :: 0 <= i < n ==> s[p + i] == a[i]
    else p + |a| == |s| && forall i :: 0 <= i < |a| ==> s[p + i] == a[i]
  }

  /** Compared up to a length within the text, a string must hold that much of it. */
  lemma {:induction false} StrNEqWithin(a: string, s: string, p: nat, field: string)
    requires Holds(s, p, field)
    ensures StrNEq(a, s, p, |field|) <==> field <= a
  {
    if StrNEq(a, s, p, |field|) {
      forall i | 0 <= i < |field|
        ensures field[i] == a[i]
      {
        assert s[p + i] == field[i];
      }
    }
  }

  /** Compared beyond its length, a string must be all that is left. */
  lemma {:induction false} StrNEqBeyond(a: string, s: string, p: nat, n: nat)
    requires p <= |s| && n > |a|
    ensures StrNEq(a, s, p, n) <==> p + |a| == |s| && Holds(s, p, a)
  {}

  /** `strchr(s + p, c)`, as a position in `s`. */
  function StrChrFrom(s: string, p: nat, c: char): (k: Option<nat>)
    requires p <= |s|
    ensures k.Some? ==> p <= k.value < |s| && s[k.value] == c
    decreases |s| - p
  {
    if p == |s| then None else if s[p] == c then Some(p) else StrChrFrom(s, p + 1, c)
  }

  lemma {:induction false} StrChrFromIff(s: string, p: nat, c: char, k: nat)
    requires p <= k <= |s| && forall i :: p <= i < k ==> s[i] != c
    ensures StrChrFrom(s, p, c) == if k == |s| then None else StrChrFrom(s, k, c)
    decreases k - p
  {
    if p < k {
      StrChrFromIff(s, p + 1, c, k);
    }
  }

  /** Reads the digits of `base` from `p` on, on top of `acc`. */
  function DigitsFrom(s: string, p: nat, base: nat, acc: nat): nat
    requires p <= |s|
    decreases |s| - p
  {
    if p == |s| || DigitValue(s[p]) >= base then acc else DigitsFrom(s, p + 1, base, acc * base + DigitValue(s[p]))
  }

  /** Where the white space from `p` on ends. */
  function SpaceEnd(s: string, p: nat): (e: nat)
    requires p <= |s|
    ensures p <= e <= |s|
    decreases |s| - p
  {
    if p < |s| && IsSpace(s[p]) then SpaceEnd(s, p + 1) else p
  }

  predicate IsSign(c: char) { c == '-' || c == '+' }

  /** Where the digits start, a sign apart. */
  function SignEnd(s: string, p: nat): (e: nat)
    requires p <= |s|
    ensures p <= e <= |s|
  {
    if p < |s| && IsSign(s[p]) then p + 1 else p
  }

  predicate HasHexPrefix(s: string, p: nat) {
    p + 3 <= |s| && s[p] == '0' && (s[p + 1] == 'x' || s[p + 1] == 'X') && IsXDigit(s[p + 2])
  }

  /** The base that the prefix of a numeral calls for; `base` is 0 or 2 to 36. */
  function BaseOf(s: string, p: nat, base: nat): nat
    requires p <= |s|
  {
    if base != 0 then base else if HasHexPrefix(s, p) then 16 else if CharAt(s, p) == '0' then 8 else 10
  }

  /** The magnitude of the numeral after any sign. */
  function Magnitude(s: string, p: nat, base: nat): nat
    requires p <= |s|
  {
    var b := BaseOf(s, p, base);
    DigitsFrom(s, if b == 16 && HasHexPrefix(s, p) then p + 2 else p, b, 0)
  }

  /** `strtoul(s + p, .., base)`, with 64-bit `unsigned long`. */
  function StrToUL(s: string, p: nat, base: nat): (r: nat)
    requires p <= |s|
    ensures r < U64
  {
    var t := SpaceEnd(s, p);
    var m := Magnitude(s, SignEnd(s, t), base);
    if m >= U64 then U64 - 1 else if CharAt(s, t) == '-' then (U64 - m) % U64 else m
  }

  /** `strtol(s + p, .., base)`, with 64-bit `long`. */
  function StrToL(s: string, p: nat, base: nat): int
    requires p <= |s|
  {
    var t := SpaceEnd(s, p);
    var m: int := Magnitude(s, SignEnd(s, t), base);
    if CharAt(s, t) == '-' then (if m > U64 / 2 then -(U64 / 2) else -m)
    else (if m >= U64 / 2 then U64 / 2 - 1 else m)
  }

  // ---- A numeral ends where its digits do ------------------------------------

  /** `field` stands at `p`, and what is behind it is neither space, sign nor digit. */
  ghost predicate FieldAt(s: string, p: nat, field: string) {
    && Holds(s, p, field) && p + |field| < |s|
    && var c := s[p + |field|]; DigitValue(c) == 36 && !IsSpace(c) && !IsSign(c)
  }

  lemma {:induction false} CharWithin(s: string, p: nat, field: string, k: nat)
    requires FieldAt(s, p, field) && k < |field|
    ensures s[p + k] == field[k]
  {}

  lemma {:induction false} SpaceWithin(s: string, p: nat, field: string, k: nat)
    requires FieldAt(s, p, field) && k <= |field|
    ensures SpaceEnd(s, p + k) == p + SpaceEnd(field, k)
    decreases |field| - k
  {
    if k < |field| {
      CharWithin(s, p, field, k);
      SpaceWithin(s, p, field, k + 1);
    }
  }

  lemma {:induction false} DigitsWithin(s: string, p: nat, field: string, k: nat, base: nat, acc: nat)
    requires FieldAt(s, p, field) && k <= |field| && base <= 36
    ensures DigitsFrom(s, p + k, base, acc) == DigitsFrom(field, k, base, acc)
    decreases |field| - k
  {
    if k < |field| {
      CharWithin(s, p, field, k);
      DigitsWithin(s, p, field, k + 1, base, acc * base + DigitValue(field[k]));
    }
  }

  lemma {:induction false} PrefixWithin(s: string, p: nat, field: string, k: nat)
    requires FieldAt(s, p, field) && k <= |field|
    ensures HasHexPrefix(s, p + k) <==> HasHexPrefix(field, k)
  {
    forall j | k <= j < |field|
      ensures s[p + j] == field[j]
    {
      CharWithin(s, p, field, j);
    }
  }

  lemma {:induction false} MagnitudeWithin(s: string, p: nat, field: string, k: nat, base: nat)
    requires FieldAt(s, p, field) && k <= |field| && base <= 36
    ensures Magnitude(s, p + k, base) == Magnitude(field, k, base)
  {
    PrefixWithin(s, p, field, k);
    if k < |field| {
      CharWithin(s, p, field, k);
    }
    var b := BaseOf(field, k, base);
    assert BaseOf(s, p + k, base) == b;
    var q := if b == 16 && HasHexPrefix(field, k) then k + 2 else k;
    DigitsWithin(s, p, field, q, b, 0);
  }

  /** What `strtoul` makes of a field does not depend on what is around it. */
  lemma {:induction false} StrToULWithin(s: string, p: nat, field: string, base: nat)
    requires FieldAt(s, p, field) && base <= 36
    ensures StrToUL(s, p, base) == StrToUL(field, 0, base)
  {
    SpaceWithin(s, p, field, 0);
    var t := SpaceEnd(field, 0);
    if t < |field| {
      CharWithin(s, p, field, t);
    }
    MagnitudeWithin(s, p, field, SignEnd(field, t), base);
  }

  // ---- Hexadecimal formatting ----------------------------------------------

  function HexDigit(d: nat): (c: char)
    requires d < 16
    ensures DigitValue(c) == d && IsXDigit(c) && !IsUpper(c)
  {
    if d < 10 then ('0' as int + d) as char else ('a' as int + (d - 10)) as char
  }

  /** `%0<width>x` of a value that fits in `width` digits. */
  function Hex(n: nat, width: nat): (s: string)
    ensures |s| == width
    ensures forall i :: 0 <= i < width ==> IsXDigit(s[i])
  {
    if width == 0 then "" else Hex(n / 16, width - 1) + [HexDigit(n % 16)]
  }

  function Pow16(w: nat): (p: nat)
    ensures p >= 1
  {
    if w == 0 then 1 else 16 * Pow16(w - 1)
  }

  lemma {:induction false} DigitsSnoc(s: string, p: nat, c: char, acc: nat)
    requires p <= |s| && DigitValue(c) < 16 && forall i :: 0 <= i < |s| ==> DigitValue(s[i]) < 16
    ensures DigitsFrom(s + [c], p, 16, acc) == 16 * DigitsFrom(s, p, 16, acc) + DigitValue(c)
    decreases |s| - p
  {
    if p == |s| {
      assert DigitsFrom(s + [c], p + 1, 16, acc * 16 + DigitValue(c)) == acc * 16 + DigitValue(c);
    } else {
      DigitsSnoc(s, p + 1, c, acc * 16 + DigitValue(s[p]));
    }
  }

  lemma {:induction false} HexDigitsValue(n: nat, width: nat)
    requires n < Pow16(width)
    ensures DigitsFrom(Hex(n, width), 0, 16, 0) == n
  {
    if width > 0 {
      HexDigitsValue(n / 16, width - 1);
      DigitsSnoc(Hex(n / 16, width - 1), 0, HexDigit(n % 16), 0);
    }
  }

  lemma {:induction false} DigitsBehind(a: string, s: string, p: nat, base: nat, acc: nat)
    requires p <= |s|
    ensures DigitsFrom(a + s, |a| + p, base, acc) == DigitsFrom(s, p, base, acc)
    decreases |s| - p
  {
    if p < |s| {
      assert (a + s)[|a| + p] == s[p];
      DigitsBehind(a, s, p + 1, base, acc * base + DigitValue(s[p]));
    }
  }

  /** `strtol(.., 16)` of plain digits behind some text is their value. */
  lemma {:induction false} PlainHex(t: string, p: nat, n: nat)
    requires p + 2 <= |t| && IsXDigit(t[p]) && IsXDigit(t[p + 1])
    requires DigitsFrom(t, p, 16, 0) == n < U32
    ensures StrToL(t, p, 16) == n
  {
    assert SpaceEnd(t, p) == p && SignEnd(t, p) == p;
    assert Magnitude(t, p, 16) == n;
  }

  /** What `%08x` prints behind any text is what `strtol(.., 16)` reads back there. */
  lemma {:induction false} HexRoundTrip(before: string, n: nat)
    requires n < U32
    ensures StrToL(before + Hex(n, 8), |before|, 16) == n
  {
    var s := Hex(n, 8);
    assert Pow16(8) == U32 by {
      assert Pow16(2) == 256 && Pow16(4) == 256 * Pow16(2) && Pow16(6) == 256 * Pow16(4);
    }
    HexDigitsValue(n, 8);
    DigitsBehind(before, s, 0, 16, 0);
    assert (before + s)[|before|] == s[0] && (before + s)[|before| + 1] == s[1];
    PlainHex(before + s, |before|, n);
  }

  // ---- In numbers ----------------------------------------------------------

  /** The classes of the "C" locale, by the codes of ASCII. */
  lemma {:induction false} ClassCodes(c: char)
    ensures var n := c as int;
            && (IsDigit(c) <==> 48 <= n <= 57)
            && (IsAlpha(c) <==> 65 <= n <= 90 || 97 <= n <= 122)
            && (IsAlnum(c) <==> IsDigit(c) || IsAlpha(c))
            && (IsXDigit(c) <==> 48 <= n <= 57 || 65 <= n <= 70 || 97 <= n <= 102)
            && (IsSpace(c) <==> n == 32 || 9 <= n <= 13)
            && (IsPrint(c) <==> 32 <= n <= 126)
            && (ToLower(c) as int == if 65 <= n <= 90 then n + 32 else n)
  {}

  /** The prefix of a numeral of base 0 says which base it is in. */
  lemma {:induction false} BaseByPrefix(c: char)
    requires IsDigit(c)
    ensures BaseOf(['0', c], 0, 0) == 8 && BaseOf(['0', 'x', c], 0, 0) == 16
    ensures BaseOf([c], 0, 0) == if c == '0' then 8 else 10
  {}

  /** A digit more counts for itself, and the digits before it for the base. */
  lemma {:induction false} TwoDigits(s: string, p: nat, base: nat)
    requires p + 2 == |s| && DigitValue(s[p]) < base && DigitValue(s[p + 1]) < base
    ensures DigitsFrom(s, p, base, 0) == DigitValue(s[p]) * base + DigitValue(s[p + 1])
  {
    assert DigitsFrom(s, p + 2, base, DigitValue(s[p]) * base + DigitValue(s[p + 1])) ==
           DigitValue(s[p]) * base + DigitValue(s[p + 1]);
    assert DigitsFrom(s, p + 1, base, DigitValue(s[p])) == DigitValue(s[p]) * base + DigitValue(s[p + 1]);
  }

  /** Behind a minus `strtoul` wraps and `strtol` negates. */
  lemma {:induction false} MinusOne()
    ensures StrToUL("-1", 0, 10) == 0xFFFF_FFFF_FFFF_FFFF && StrToL("-1", 0, 10) == -1
  {
    var s := "-1";
    assert SpaceEnd(s, 0) == 0 && SignEnd(s, 0) == 1;
    assert DigitsFrom(s, 2, 10, 0 * 10 + 1) == 1;
    assert Magnitude(s, 1, 10) == 1;
  }
}
