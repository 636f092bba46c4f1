/** Fixed-width integers as bounded ints, big-endian bytes, and bitwise operations on naturals. */
module Bits {
  type byte = x: int | 0 <= x < 0x100
  type uint16 = x: int | 0 <= x < 0x1_0000
  type uint24 = x: int | 0 <= x < 0x100_0000
  type uint32 = x: int | 0 <= x < 0x1_0000_0000
  type uint64 = x: int | 0 <= x < 0x1_0000_0000_0000_0000

  datatype Option<+T> = None | Some(value: T)

  /** uint16 subtraction. */
  function Minus(a: uint16, b: uint16): (d: uint16) {
    if a >= b then a - b else a - b + 0x1_0000
  }

  function Put16(x: uint16): seq<byte> {
    [x / 0x100, x % 0x100]
  }

  function Put24(x: uint24): seq<byte> {
    [x / 0x1_0000] + Put16(x % 0x1_0000)
  }

  function Put32(x: uint32): seq<byte> {
    Put16(x / 0x1_0000) + Put16(x % 0x1_0000)
  }

  function Get16(s: seq<byte>, i: nat): (x: uint16)
    requires i + 2 <= |s|
  {
    0x100 * (s[i] as int) + s[i + 1]
  }

  function Get24(s: seq<byte>, i: nat): (x: uint24)
    requires i + 3 <= |s|
  {
    0x1_0000 * (s[i] as int) + Get16(s, i + 1)
  }

  function Get32(s: seq<byte>, i: nat): (x: uint32)
    requires i + 4 <= |s|
  {
    0x1_0000 * (Get16(s, i) as int) + Get16(s, i + 2)
  }

  // Reading back what was written, wherever it stands in a longer buffer.

  lemma Get16Put16(s: seq<byte>, i: nat, x: uint16)
    requires i + 2 <= |s| && s[i..i + 2] == Put16(x)
    ensures Get16(s, i) == x
  {
    assert s[i] == s[i..i + 2][0] && s[i + 1] == s[i..i + 2][1];
  }

  lemma Get24Put24(s: seq<byte>, i: nat, x: uint24)
    requires i + 3 <= |s| && s[i..i + 3] == Put24(x)
    ensures Get24(s, i) == x
  {
    assert s[i] == s[i..i + 3][0];
    assert s[i + 1..i + 3] == s[i..i + 3][1..];
    Get16Put16(s, i + 1, x % 0x1_0000);
  }

  lemma Get32Put32(s: seq<byte>, i: nat, x: uint32)
    requires i + 4 <= |s| && s[i..i + 4] == Put32(x)
    ensures Get32(s, i) == x
  {
    assert s[i..i + 2] == s[i..i + 4][..2] && s[i + 2..i + 4] == s[i..i + 4][2..];
    Get16Put16(s, i, x / 0x1_0000);
    Get16Put16(s, i + 2, x % 0x1_0000);
  }

  function Pow2(n: nat): (p: nat)
    ensures p > 0
  {
    if n == 0 then 1 else 2 * Pow2(n - 1)
  }

  /** Bit `i` of `x`. */
  predicate Bit(x: nat, i: nat) {
    if i == 0 then x % 2 == 1 else Bit(x / 2, i - 1)
  }

  function Or(x: nat, y: nat): nat {
    if x == 0 then y
    else if y == 0 then x
    else (if x % 2 == 1 || y % 2 == 1 then 1 else 0) + 2 * Or(x / 2, y / 2)
  }

  function And(x: nat, y: nat): nat {
    if x == 0 || y == 0 then 0
    else (if x % 2 == 1 && y % 2 == 1 then 1 else 0) + 2 * And(x / 2, y / 2)
  }
}
