/** Go's fixed-width integers as they are used by machine/defender.go, and the two
    conversions in it that can lose information: int32(x) of a uint32 and uint16(i) of
    a non-negative index. */
module GoInts {

  type uint16 = x: int | 0 <= x < 0x1_0000
  type uint32 = x: int | 0 <= x < 0x1_0000_0000
  type int32 = x: int | -0x8000_0000 <= x < 0x8000_0000

  /** Go's int32(x) for x of type uint32: the same 32 bits read as two's complement. */
  function Int32(x: uint32): (r: int32)
    ensures (x - r) % 0x1_0000_0000 == 0
    ensures x < 0x8000_0000 ==> r == x
    ensures x >= 0x8000_0000 ==> r < 0
  {
    if x < 0x8000_0000 then x else x - 0x1_0000_0000
  }

  /** Go's uint16(i) for a non-negative int: only the low 16 bits survive. */
  function Uint16(i: nat): (r: uint16)
    ensures (i - r) % 0x1_0000 == 0
    ensures i < 0x1_0000 ==> r == i
  {
    i % 0x1_0000
  }

  /** The contract of Int32 pins its result down: no other int32 is congruent to x. */
  lemma Int32Unique(x: uint32, r: int32)
    requires (x - r) % 0x1_0000_0000 == 0
    ensures r == Int32(x)
  {
    var d := x - r;
    var q := d / 0x1_0000_0000;
    assert d == 0x1_0000_0000 * q;
  }

  /** Likewise for Uint16: the only uint16 congruent to i modulo 2^16. */
  lemma Uint16Unique(i: nat, r: uint16)
    requires (i - r) % 0x1_0000 == 0
    ensures r == Uint16(i)
  {
    var d := i - r;
    var q := d / 0x1_0000;
    assert d == 0x1_0000 * q;
    assert i == 0x1_0000 * q + r;
  }
}
