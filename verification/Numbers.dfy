/** Machine integers of the C code: bytes, 16- and 32-bit unsigned words, and the wrapped time/sequence
    difference that every comparison of the protocol goes through. */
module Numbers {

  const TWO32: int := 0x1_0000_0000

  type u8 = x: int | 0 <= x < 0x100
  type u16 = x: int | 0 <= x < 0x1_0000
  type u32 = x: int | 0 <= x < 0x1_0000_0000

  /** Conversion to a 32-bit unsigned word. */
  function Wrap(x: int): u32 {
    x % 0x1_0000_0000
  }

  /** Conversion to a 32-bit signed word. */
  function Signed(x: int): int {
    var w := Wrap(x);
    if w < 0x8000_0000 then w else w - 0x1_0000_0000
  }

  /** The signed reading of the 32-bit difference, for a `long` of 32 bits. */
  function Diff(later: u32, earlier: u32): int {
    Signed(later - earlier)
  }

  /** Below half the sequence space the wrapped difference is the true one, wherever the counters stand. */
  lemma DiffExact(later: int, earlier: int)
    requires -0x8000_0000 <= later - earlier < 0x8000_0000
    ensures Diff(Wrap(later), Wrap(earlier)) == later - earlier
  {
    WrapSub(later, earlier);
  }

  lemma WrapSub(x: int, y: int)
    ensures Wrap(Wrap(x) - Wrap(y)) == Wrap(x - y)
  {
    var k := x / 0x1_0000_0000 - y / 0x1_0000_0000;
    assert x - y == Wrap(x) - Wrap(y) + 0x1_0000_0000 * k;
  }

  lemma WrapAdd(x: int, y: int)
    ensures Wrap(Wrap(x) + y) == Wrap(x + y)
  {
    assert x + y == Wrap(x) + y + 0x1_0000_0000 * (x / 0x1_0000_0000);
  }

  function Min(a: int, b: int): int {
    if a <= b then a else b
  }

  function Max(a: int, b: int): int {
    if a >= b then a else b
  }

  lemma MulMono(a: nat, b: nat, d: nat)
    requires a <= b
    ensures a * d <= b * d
  {
  }

  lemma WrapSmall(x: int)
    requires 0 <= x < 0x1_0000_0000
    ensures Wrap(x) == x
  {
  }

  // ---------- distances around the 32-bit circle ----------

  /** How far x lies after `from`, modulo 2^32. */
  function Dist(from: u32, x: u32): (d: int)
    ensures 0 <= d < 0x1_0000_0000
  {
    Wrap(x - from)
  }

  /** Signed comparison agrees with the order of distances while these differ by less than half the circle. */
  lemma DiffIsDist(from: u32, x: u32, y: u32)
    requires -0x8000_0000 <= Dist(from, x) - Dist(from, y) < 0x8000_0000
    ensures Diff(x, y) == Dist(from, x) - Dist(from, y)
  {
    WrapSub(x - from, y - from);
  }

  lemma Rebase(from: u32, to: u32, x: u32)
    requires Dist(from, to) <= Dist(from, x)
    ensures Dist(to, x) == Dist(from, x) - Dist(from, to)
  {
    WrapSub(x - from, to - from);
  }

  lemma DistInjective(from: u32, x: u32, y: u32)
    ensures Dist(from, x) == Dist(from, y) <==> x == y
  {
    if Dist(from, x) == Dist(from, y) {
      WrapAdd(x - from, from);
      WrapAdd(y - from, from);
    }
  }

  lemma DistSelf(x: u32)
    ensures Dist(x, x) == 0
  {
  }

  lemma DistNext(from: u32, x: u32)
    requires Dist(from, x) < 0xFFFF_FFFF
    ensures Dist(from, Wrap(x + 1)) == Dist(from, x) + 1
  {
    WrapAdd(x - from, 1);
    WrapAdd(x + 1, -(from as int));
  }

  lemma DistFromNext(from: u32, x: u32)
    requires x != from
    ensures Dist(Wrap(from + 1), x) == Dist(from, x) - 1
  {
    DistSelf(from);
    DistNext(from, from);
    DistInjective(from, x, from);
    Rebase(from, Wrap(from + 1), x);
  }
}
