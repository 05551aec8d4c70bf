/** Machine-level vocabulary shared by every module: bytes, fixed-width
    arithmetic, and the usual wrapper datatype. */
module Bytes {

  /** `uint8_t`, and the bytes of a `char` buffer. */
  type byte = x: int | 0 <= x < 0x100

  const U16: int := 0x1_0000
  const U32: int := 0x1_0000_0000
  const U64: int := 0x1_0000_0000_0000_0000

  datatype Option<+T> = None | Some(value: T)

  function Min(a: nat, b: nat): nat {
    if a < b then a else b
  }

  /** Conversion of an unsigned 32-bit value to `int` (two's complement). */
  function ToInt32(x: int): int {
    var w := x % U32;
    if w < 0x8000_0000 then w else w - U32
  }

  /** True when no value occurs twice. */
  ghost predicate Distinct<T>(s: seq<T>) {
    forall i, j :: 0 <= i < j < |s| ==> s[i] != s[j]
  }

  /** `s` has `part` at `p`. */
  ghost predicate Holds<T>(s: seq<T>, p: nat, part: seq<T>) {
    p + |part| <= |s| && forall i :: 0 <= i < |part| ==> s[p + i] == part[i]
  }

  lemma {:induction false} ConcatAssoc<T>(a: seq<T>, b: seq<T>, c: seq<T>)
    ensures (a + b) + c == a + (b + c)
  {}
}
