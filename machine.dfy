/**
 * Machine-level types of a 32-bit Windows process: on that platform
 * `unsigned long` and pointers are 32 bits wide, `int` is a 32-bit two's
 * complement integer and every unsigned addition wraps modulo 2^32.
 */
module Machine {

  const WORD_MODULUS: int := 0x1_0000_0000

  /** An `unsigned long` (and an address in the target process). */
  newtype u32 = x: int | 0 <= x < 0x1_0000_0000

  /** A `char` of a pattern or of a copied memory region, as raw byte. */
  newtype u8 = x: int | 0 <= x < 0x100

  /** A C++ `int`. */
  newtype i32 = x: int | -0x8000_0000 <= x < 0x8000_0000

  /** `a + d` computed in `unsigned long`: the sum reduced modulo 2^32. */
  function Add(a: u32, d: int): (r: u32)
    ensures (r as int - a as int - d) % WORD_MODULUS == 0
    ensures 0 <= a as int + d < WORD_MODULUS ==> r as int == a as int + d
  {
    ((a as int + d) % WORD_MODULUS) as u32
  }

  /** `a - b` computed in `unsigned long`. */
  function Sub(a: u32, b: u32): (r: u32)
    ensures Add(r, b as int) == a
    ensures b <= a ==> r == a - b
  {
    var r := ((a as int - b as int) % WORD_MODULUS) as u32;
    assert (r as int + b as int) % WORD_MODULUS == a as int;
    r
  }

  /** The 32-bit word stored little-endian at `a`, as `read<unsigned long>(a)` sees it. */
  function LoadWord(mem: u32 -> u8, a: u32): (w: u32)
    ensures w as int % 0x100 == mem(a) as int
    ensures (w as int / 0x100) % 0x100 == mem(Add(a, 1)) as int
    ensures (w as int / 0x1_0000) % 0x100 == mem(Add(a, 2)) as int
    ensures w as int / 0x100_0000 == mem(Add(a, 3)) as int
  {
    var b0, b1, b2, b3 := mem(a) as int, mem(Add(a, 1)) as int, mem(Add(a, 2)) as int, mem(Add(a, 3)) as int;
    var w := b0 + 0x100 * b1 + 0x1_0000 * b2 + 0x100_0000 * b3;
    Split(b0, b1 + 0x100 * b2 + 0x1_0000 * b3, 0x100);
    Split(b0 + 0x100 * b1, b2 + 0x100 * b3, 0x1_0000);
    Split(b0 + 0x100 * b1 + 0x1_0000 * b2, b3, 0x100_0000);
    Split(b1, b2 + 0x100 * b3, 0x100);
    Split(b2, b3, 0x100);
    w as u32
  }

  /** Division by a byte, half-word or three-byte weight `d` undoes `lo + d * hi` for a remainder `lo` below `d`. */
  lemma Split(lo: int, hi: int, d: int)
    requires d == 0x100 || d == 0x1_0000 || d == 0x100_0000
    requires 0 <= lo < d
    ensures (lo + d * hi) / d == hi && (lo + d * hi) % d == lo
  {
    if d == 0x100 {
      assert (lo + 0x100 * hi) / 0x100 == hi;
    } else if d == 0x1_0000 {
      assert (lo + 0x1_0000 * hi) / 0x1_0000 == hi;
    } else {
      assert (lo + 0x100_0000 * hi) / 0x100_0000 == hi;
    }
  }
}
