/** Numbers as byte strings, least significant byte first. */
module LittleEndian {
  import opened Numbers

  type Bytes = seq<u8>

  function Enc(x: nat, n: nat): (b: Bytes)
    ensures |b| == n
  {
    if n == 0 then [] else [x % 256] + Enc(x / 256, n - 1)
  }

  function Dec(b: Bytes): nat {
    if b == [] then 0 else b[0] as int + 256 * Dec(b[1..])
  }

  /** Number of values that fit in n bytes. */
  function Values(n: nat): nat {
    if n == 0 then 1 else 256 * Values(n - 1)
  }

  lemma {:induction false} DecEnc(x: nat, n: nat)
    requires x < Values(n)
    ensures Dec(Enc(x, n)) == x
  {
    if n > 0 {
      DecEnc(x / 256, n - 1);
      assert Enc(x, n)[1..] == Enc(x / 256, n - 1);
    }
  }

  lemma DecEnc16(x: u16)
    ensures Dec(Enc(x, 2)) == x
  {
    assert Values(1) == 256 && Values(2) == 0x1_0000;
    DecEnc(x, 2);
  }

  lemma DecEnc32(x: u32)
    ensures Dec(Enc(x, 4)) == x
  {
    assert Values(1) == 256 && Values(2) == 0x1_0000 && Values(3) == 0x100_0000 && Values(4) == 0x1_0000_0000;
    DecEnc(x, 4);
  }

  /** The number at four bytes, and at two. */
  function Four(b: Bytes, i: nat): nat
    requires i + 4 <= |b|
  {
    b[i] as int + 0x100 * b[i + 1] as int + 0x1_0000 * b[i + 2] as int + 0x100_0000 * b[i + 3] as int
  }

  function Two(b: Bytes, i: nat): nat
    requires i + 2 <= |b|
  {
    b[i] as int + 0x100 * b[i + 1] as int
  }

  lemma DecFour(b: Bytes, i: nat)
    requires i + 4 <= |b|
    ensures Dec(b[i..i + 4]) == Four(b, i) < 0x1_0000_0000
  {
    var c := b[i..i + 4];
    assert c[1..][1..] == c[2..] && c[2..][1..] == c[3..] && c[3..][1..] == [];
    assert Dec(c[3..]) == c[3] as int + 256 * Dec([]);
    assert Dec(c[2..]) == c[2] as int + 256 * Dec(c[3..]);
    assert Dec(c[1..]) == c[1] as int + 256 * Dec(c[2..]);
  }

  lemma DecTwo(b: Bytes, i: nat)
    requires i + 2 <= |b|
    ensures Dec(b[i..i + 2]) == Two(b, i) < 0x1_0000
  {
    var c := b[i..i + 2];
    assert c[1..][1..] == [];
    assert Dec(c[1..]) == c[1] as int + 256 * Dec([]);
  }
}
