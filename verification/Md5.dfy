/** The streaming digest of G3D: an incremental block buffer with a split 64-bit bit count and final padding, proved to
    compute what sections 3.1 to 3.5 of RFC 1321 define in one go. The processing of one block is a parameter. */
module Md5 {
  import opened Numbers
  import opened LittleEndian

  const TWO64: int := 0x1_0000_0000_0000_0000

  type Block = b: Bytes | |b| == 64 witness seq(64, _ => 0)

  /** The four-word digest buffer. */
  datatype Abcd = Abcd(a: u32, b: u32, c: u32, d: u32) {
    function Word(i: nat): u32
      requires i < 4
    {
      match i case 0 => a case 1 => b case 2 => c case _ => d
    }
  }

  type Process = (Abcd, Block) -> Abcd

  // ---------- the definition ----------

  /** Section 3.3. */
  const INIT: Abcd := Abcd(0x67452301, 0xefcdab89, 0x98badcfe, 0x10325476)

  /** Section 3.4: the complete blocks of a byte string, in order; an incomplete last block is not looked at. */
  function Fold(process: Process, v: Abcd, m: Bytes): Abcd
    decreases |m|
  {
    if |m| < 64 then v else Fold(process, process(v, m[..64]), m[64..])
  }

  function Zeros(n: nat): Bytes {
    seq(n, _ => 0)
  }

  /** Section 3.1: a one bit, then zero bits up to 56 bytes modulo 64. */
  function Padding(n: nat): Bytes {
    [0x80] + Zeros((55 - n) % 64)
  }

  /** The length in bits as far as 64 bits hold it. */
  function BitCount(n: nat): int {
    8 * n % TWO64
  }

  /** Section 3.2: the length in bits before the padding, modulo 2^64, as 8 bytes. */
  function Padded(m: Bytes): Bytes {
    m + Padding(|m|) + Enc(BitCount(|m|), 8)
  }

  /** Section 3.5: the words of the buffer, least significant byte first. */
  function Output(v: Abcd): Bytes {
    Enc(v.a, 4) + Enc(v.b, 4) + Enc(v.c, 4) + Enc(v.d, 4)
  }

  function Digest(process: Process, m: Bytes): Bytes {
    Output(Fold(process, INIT, Padded(m)))
  }

  // ---------- the definition in the terms of the standard ----------

  /** Section 3.3 gives the four words by their bytes, low-order bytes first. */
  lemma InitBytes()
    ensures Output(INIT) == [0x01, 0x23, 0x45, 0x67, 0x89, 0xab, 0xcd, 0xef, 0xfe, 0xdc, 0xba, 0x98, 0x76, 0x54, 0x32, 0x10]
  {
    FourBytes(0x01, 0x23, 0x45, 0x67);
    FourBytes(0x89, 0xab, 0xcd, 0xef);
    FourBytes(0xfe, 0xdc, 0xba, 0x98);
    FourBytes(0x76, 0x54, 0x32, 0x10);
    hide Enc;
    assert INIT.a == 0x67452301 && INIT.b == 0xefcdab89 && INIT.c == 0x98badcfe && INIT.d == 0x10325476;
  }

  lemma FourBytes(a: u8, b: u8, c: u8, d: u8)
    ensures Enc(a as int + 0x100 * b as int + 0x1_0000 * c as int + 0x100_0000 * d as int, 4) == [a, b, c, d]
  {
    var x := a as int + 0x100 * b as int + 0x1_0000 * c as int + 0x100_0000 * d as int;
    assert x % 256 == a && x / 256 == b as int + 0x100 * c as int + 0x1_0000 * d as int;
    assert Enc(x, 4) == [a] + Enc(x / 256, 3);
    assert Enc(x / 256, 3) == [b] + Enc(c as int + 0x100 * d as int, 2);
    assert Enc(c as int + 0x100 * d as int, 2) == [c] + Enc(d, 1);
    assert Enc(d, 1) == [d] + Enc(0, 0);
  }

  /** A byte as bits, the most significant first. */
  function ByteBits(x: u8): seq<bool> {
    [x / 128 % 2 == 1, x / 64 % 2 == 1, x / 32 % 2 == 1, x / 16 % 2 == 1,
     x / 8 % 2 == 1, x / 4 % 2 == 1, x / 2 % 2 == 1, x % 2 == 1]
  }

  function Bits(b: Bytes): (s: seq<bool>)
    ensures |s| == 8 * |b|
  {
    if b == [] then [] else ByteBits(b[0]) + Bits(b[1..])
  }

  function Off(n: nat): seq<bool> {
    seq(n, _ => false)
  }

  lemma {:induction false} ZeroBits(n: nat)
    ensures Bits(Zeros(n)) == Off(8 * n)
  {
    if n > 0 {
      ZeroBits(n - 1);
      assert Zeros(n)[1..] == Zeros(n - 1);
      assert ByteBits(0) == Off(8);
      assert Off(8) + Off(8 * (n - 1)) == Off(8 * n);
    }
  }

  /** Section 3.1 speaks of bits: a single one, and then as many zeros, fewer than 512, as make the length 448 modulo 512. */
  lemma PaddingBits(n: nat)
    ensures var zeros := |Bits(Padding(n))| - 1;
      && 0 <= zeros < 512 && (8 * n + 1 + zeros) % 512 == 448
      && Bits(Padding(n)) == [true] + Off(zeros)
  {
    var k := (55 - n) % 64;
    ZeroBits(k);
    assert Padding(n)[0] == 0x80 && Padding(n)[1..] == Zeros(k);
    assert ByteBits(0x80) == [true] + Off(7);
    assert Off(7) + Off(8 * k) == Off(7 + 8 * k);
    assert ([true] + Off(7)) + Off(8 * k) == [true] + (Off(7) + Off(8 * k));
    LengthIs(n, k);
  }

  lemma LengthIs(n: nat, k: nat)
    requires k == (55 - n) % 64
    ensures (8 * n + 8 + 8 * k) % 512 == 448
  {
    var q := (55 - n) / 64;
    assert n + k == 55 - 64 * q;
    assert 8 * n + 8 + 8 * k == 448 + 512 * -q;
  }

  lemma SameMod(n: int, m: int, k: int)
    requires n == m + 64 * k
    ensures n % 64 == m % 64
  {
  }

  /** The padded message is whole blocks: at least one bit and at most 64 bytes of padding, then the length. */
  lemma PaddedIsWhole(m: Bytes)
    ensures 1 <= |Padding(|m|)| <= 64 && (|m| + |Padding(|m|)|) % 64 == 56
    ensures |Padded(m)| % 64 == 0
  {
    var k := (55 - |m|) / 64;
    var n := |m| + |Padding(|m|)|;
    assert n == 56 + 64 * -k;
    SameMod(n, 56, -k);
    assert |Padded(m)| == 64 + 64 * -k;
    hide Padded;
    SameMod(|Padded(m)|, 0, 1 - k);
  }

  lemma PaddedEnds(m: Bytes)
    ensures |Padded(m)| >= |m| + 8 && Padded(m)[..|m|] == m
    ensures Padded(m)[|Padded(m)| - 8..] == Enc(BitCount(|m|), 8)
  {
    hide Padding, Enc;
  }

  /** No two messages short enough for the bit count are padded to the same blocks. */
  lemma PaddedInjective(m: Bytes, n: Bytes)
    requires |m| < 0x2000_0000_0000_0000 && |n| < 0x2000_0000_0000_0000
    requires Padded(m) == Padded(n)
    ensures m == n
  {
    hide Padded, Enc, Dec, Values;
    assert BitCount(|m|) == 8 * |m| && BitCount(|n|) == 8 * |n|;
    PaddedEnds(m);
    PaddedEnds(n);
    Values8();
    DecEnc(8 * |m|, 8);
    DecEnc(8 * |n|, 8);
    assert |m| == |n|;
  }

  lemma Values8()
    ensures Values(8) == TWO64
  {
    assert Values(2) == 0x1_0000;
    assert Values(4) == 0x1_0000_0000;
    assert Values(6) == 0x1_0000_0000_0000;
  }

  /** The last eight bytes give the number of bits of the message, modulo 2^64. */
  lemma LengthField(m: Bytes)
    ensures |Padded(m)| >= 8 && Dec(Padded(m)[|Padded(m)| - 8..]) == |Bits(m)| % TWO64
  {
    PaddedEnds(m);
    Values8();
    DecEnc(BitCount(|m|), 8);
    hide Padded, Enc, Dec, Values, Bits;
  }

  // ---------- folding in pieces ----------

  lemma {:induction false} FoldSplit(process: Process, v: Abcd, a: Bytes, b: Bytes)
    requires |a| % 64 == 0
    ensures Fold(process, v, a + b) == Fold(process, Fold(process, v, a), b)
    decreases |a|
  {
    if a == [] {
      assert a + b == b;
    } else {
      assert (a + b)[..64] == a[..64] && (a + b)[64..] == a[64..] + b;
      FoldSplit(process, process(v, a[..64]), a[64..], b);
    }
  }

  /** The part of a message that fills blocks, and what is left over. */
  function Whole(m: Bytes): (w: Bytes)
    ensures |w| % 64 == 0
  {
    SameMod(|m| - |m| % 64, 0, |m| / 64);
    m[..|m| - |m| % 64]
  }

  function Rest(m: Bytes): (r: Bytes)
    ensures |r| == |m| % 64 && Whole(m) + r == m
  {
    m[|m| - |m| % 64..]
  }

  /** Only the blocks that are full count. */
  lemma FoldWhole(process: Process, v: Abcd, m: Bytes)
    ensures Fold(process, v, m) == Fold(process, v, Whole(m))
  {
    FoldSplit(process, v, Whole(m), Rest(m));
  }

  lemma FoldBlock(process: Process, v: Abcd, m: Bytes, b: Block)
    requires |m| % 64 == 0
    ensures Fold(process, v, m + b) == process(Fold(process, v, m), b)
  {
    FoldSplit(process, v, m, b);
    assert b[..64] == b;
  }

  lemma ModAdds(x: nat, y: nat, z: nat)
    requires x % 64 + y == z
    ensures z < 64 ==> (x + y) % 64 == z
    ensures z % 64 == 0 ==> (x + y) % 64 == 0
  {
  }

  /** A message cut at a block boundary and less than a block after it. */
  lemma CutIs(m: Bytes, a: Bytes, b: Bytes)
    requires m == a + b && |a| % 64 == 0 && |b| < 64
    ensures Whole(m) == a && Rest(m) == b
  {
    ModAdds(|a|, |b|, |b|);
  }

  lemma ShortCut(m: Bytes, d: Bytes)
    requires |m| % 64 + |d| < 64
    ensures Whole(m + d) == Whole(m) && Rest(m + d) == Rest(m) + d
  {
    var w, r := Whole(m), Rest(m);
    hide Whole, Rest;
    assert m + d == w + (r + d);
    CutIs(m + d, w, r + d);
  }

  /** Bytes that do not fill the last block. */
  lemma AppendShort(process: Process, m: Bytes, d: Bytes)
    requires |m| % 64 + |d| < 64
    ensures Fold(process, INIT, m + d) == Fold(process, INIT, m) && Rest(m + d) == Rest(m) + d
  {
    hide Fold, Whole, Rest;
    ShortCut(m, d);
    FoldWhole(process, INIT, m);
    FoldWhole(process, INIT, m + d);
  }

  /** Bytes that fill it exactly. */
  lemma AppendFill(process: Process, m: Bytes, d: Bytes)
    requires |m| % 64 + |d| == 64
    ensures |m + d| % 64 == 0 && Fold(process, INIT, m + d) == process(Fold(process, INIT, m), Rest(m) + d)
  {
    hide Fold, Whole, Rest;
    var w, r := Whole(m), Rest(m);
    SameMod(|m + d|, 0, |m| / 64 + 1);
    FoldWhole(process, INIT, m);
    FoldBlock(process, INIT, w, r + d);
    assert m + d == w + (r + d);
  }

  /** Whole blocks from p to q after complete ones, and a rest. */
  lemma AppendBlocks(process: Process, m: Bytes, d: Bytes, p: nat, q: nat)
    requires p <= q <= |d| && |d| - q < 64 && (q - p) % 64 == 0 && |m + d[..p]| % 64 == 0
    ensures Fold(process, INIT, m + d) == Fold(process, Fold(process, INIT, m + d[..p]), d[p..q])
    ensures Rest(m + d) == d[q..]
  {
    hide Fold, Whole, Rest;
    var a, b := m + d[..p], d[p..q];
    assert |a + b| % 64 == 0;
    assert m + d == a + b + d[q..];
    CutIs(m + d, a + b, d[q..]);
    FoldWhole(process, INIT, m + d);
    FoldSplit(process, INIT, a, b);
  }

  // ---------- the bit count ----------

  /** An addition of words wrapped exactly when the sum is below an operand. */
  lemma CarryIs(c: u32, n: u32)
    ensures c + n == Wrap(c + n) + TWO32 * if Wrap(c + n) < n then 1 else 0
  {
  }

  /** Two words, least significant first, with a carry by comparison: addition modulo 2^64. */
  lemma CountAdds(c0: u32, c1: u32, n: nat)
    requires n < 0x8000_0000
    ensures var nbits := Wrap(8 * n);
      var lo := Wrap(c0 + nbits);
      var hi := if lo < nbits then Wrap(Wrap(c1 + n / 0x2000_0000) + 1) else Wrap(c1 + n / 0x2000_0000);
      lo + TWO32 * hi == (c0 + TWO32 * c1 + 8 * n) % TWO64
  {
    var nbits := Wrap(8 * n);
    var q := n / 0x2000_0000;
    assert 8 * n == nbits + TWO32 * q;
    var lo := Wrap(c0 + nbits);
    var carry := if lo < nbits then 1 else 0;
    CarryIs(c0, nbits);
    WrapAdd(c1 + q, carry);
    var hi := Wrap(c1 + q + carry);
    var k := (c1 + q + carry) / TWO32;
    assert c1 + q + carry == hi + TWO32 * k;
    hide Wrap;
    Modulo(c0 + TWO32 * c1 + 8 * n, k, lo + TWO32 * hi);
  }

  lemma Modulo(x: int, k: int, r: int)
    requires x == TWO64 * k + r && 0 <= r < TWO64
    ensures x % TWO64 == r
  {
  }

  function Plus64(x: int, y: int): int {
    (x + y) % TWO64
  }

  /** The bit count tells how much of the last block is filled. */
  lemma OffsetIs(c0: u32, c1: u32, n: nat)
    requires c0 + TWO32 * c1 == BitCount(n)
    ensures c0 / 8 % 64 == n % 64
  {
    var k := 8 * n / TWO64;
    assert 8 * n == TWO64 * k + c0 + TWO32 * c1;
    hide BitCount;
    var half := n - 0x2000_0000_0000_0000 * k - 0x2000_0000 * c1;
    assert 8 * half == c0;
    SameMod(n, half, 0x80_0000_0000_0000 * k + 0x80_0000 * c1);
  }

  lemma CountIs(n: nat, k: nat)
    ensures Plus64(BitCount(n), 8 * k) == BitCount(n + k)
  {
    var q := 8 * n / TWO64;
    assert 8 * (n + k) == 8 * n % TWO64 + 8 * k + TWO64 * q;
  }

  // ---------- words as bytes ----------

  /** (md5_byte_t)(w >> 8k) */
  function ByteOf(w: u32, k: nat): u8
    requires k < 4
  {
    match k case 0 => w % 256 case 1 => w / 0x100 % 256 case 2 => w / 0x1_0000 % 256 case _ => w / 0x100_0000
  }

  lemma WordBytes(w: u32)
    ensures Enc(w, 4) == [ByteOf(w, 0), ByteOf(w, 1), ByteOf(w, 2), ByteOf(w, 3)]
  {
    assert Enc(w, 4) == [w % 256] + Enc(w / 256, 3);
    assert Enc(w / 256, 3) == [w / 256 % 256] + Enc(w / 256 / 256, 2);
    assert Enc(w / 0x1_0000, 2) == [w / 0x1_0000 % 256] + Enc(w / 0x1_0000 / 256, 1);
    assert Enc(w / 0x100_0000, 1) == [w / 0x100_0000 % 256] + Enc(w / 0x100_0000 / 256, 0);
  }

  lemma {:induction false} EncJoin(a: nat, b: nat, n: nat, k: nat)
    requires a < Values(n)
    ensures Enc(a + Values(n) * b, n + k) == Enc(a, n) + Enc(b, k)
  {
    if n > 0 {
      var v := Values(n - 1);
      EncJoin(a / 256, b, n - 1, k);
      assert Values(n) * b == 256 * (v * b);
      assert (a + 256 * (v * b)) / 256 == a / 256 + v * b && (a + 256 * (v * b)) % 256 == a % 256;
      assert Enc(a, n) == [a % 256] + Enc(a / 256, n - 1);
    } else {
      assert Enc(a, 0) + Enc(b, k) == Enc(b, k);
    }
  }

  lemma CountBytes(c0: u32, c1: u32)
    ensures Enc(c0 + TWO32 * c1, 8) == Enc(c0, 4) + Enc(c1, 4)
  {
    assert Values(2) == 0x1_0000 && Values(4) == TWO32;
    EncJoin(c0, c1, 4, 4);
  }

  /** The number of padding bytes as the code computes it, in unsigned words. */
  lemma PadIs(c: u32, n: nat)
    requires c / 8 % 64 == n % 64
    ensures Wrap(55 - c / 8) % 64 == (55 - n) % 64
  {
    var k := (55 - c / 8) / 0x1_0000_0000;
    assert Wrap(55 - c / 8) == 55 - c / 8 - 64 * (0x400_0000 * k);
  }

  // ---------- the state ----------

  class State {
    const process: Process
    const buf: array<u8>
    var count0: u32
    var count1: u32
    var abcd: Abcd
    ghost var message: Bytes  // everything appended

    function Bits(): int
      reads this
    {
      count0 + TWO32 * count1
    }

    ghost predicate Valid()
      reads this, buf
    {
      && buf.Length == 64
      && Bits() == BitCount(|message|)
      && abcd == Fold(process, INIT, message)
      && buf[..|message| % 64] == Rest(message)
    }

    constructor (process: Process)
      ensures Valid() && fresh(buf) && this.process == process && message == []
    {
      this.process := process;
      buf := new u8[64];
      count0, count1 := 0, 0;
      abcd := INIT;
      message := [];
    }

    method AddBits(nbytes: nat)
      requires nbytes < 0x8000_0000
      modifies this`count0, this`count1
      ensures Bits() == Plus64(old(Bits()), 8 * nbytes)
    {
      hide Wrap;
      CountAdds(count0, count1, nbytes);
      var nbits := Wrap(8 * nbytes);
      count1 := Wrap(count1 + nbytes / 0x2000_0000);
      count0 := Wrap(count0 + nbits);
      if count0 < nbits {
        count1 := Wrap(count1 + 1);
      }
    }

    /** memcpy into the block buffer. */
    method Copy(offset: nat, data: array<u8>, p: nat, copy: nat)
      requires buf.Length == 64 && data != buf && offset + copy <= 64 && p + copy <= data.Length
      modifies buf
      ensures buf[..] == old(buf[..offset]) + data[p..p + copy] + old(buf[offset + copy..])
    {
      forall i | 0 <= i < copy {
        buf[offset + i] := data[p + i];
      }
    }

    /** Processes the full blocks from p on. */
    method Blocks(data: array<u8>, p: nat, end: nat) returns (q: nat)
      requires data != buf && p <= end <= data.Length
      modifies this`abcd
      ensures p <= q <= end < q + 64 && (q - p) % 64 == 0
      ensures abcd == Fold(process, old(abcd), data[p..q])
    {
      q := p;
      assert data[p..q] == [];
      while end - q >= 64
        invariant p <= q <= end && (q - p) % 64 == 0
        invariant abcd == Fold(process, old(abcd), data[p..q])
      {
        FoldBlock(process, old(abcd), data[p..q], data[q..q + 64]);
        assert data[p..q + 64] == data[p..q] + data[q..q + 64];
        abcd := process(abcd, data[q..q + 64]);
        q := q + 64;
      }
    }

    /** The initial partial block: it is completed and processed, or all the bytes go into it. */
    method Fill(offset: nat, data: array<u8>, nbytes: nat, ghost d: Bytes) returns (p: nat)
      requires buf.Length == 64 && data != buf && 0 < offset < 64 && 0 < nbytes <= data.Length && d == data[..nbytes]
      modifies this`abcd, buf
      ensures p == if offset + nbytes > 64 then 64 - offset else nbytes
      ensures if offset + p < 64
              then abcd == old(abcd) && buf[..offset + p] == old(buf[..offset]) + d[..p]
              else abcd == process(old(abcd), old(buf[..offset]) + d[..p])
    {
      p := if offset + nbytes > 64 then 64 - offset else nbytes;
      Copy(offset, data, 0, p);
      assert buf[..offset + p] == old(buf[..offset]) + d[..p];
      if offset + p < 64 {
        return;
      }
      assert buf[..] == buf[..offset + p];
      abcd := process(abcd, buf[..]);
    }

    /** The full blocks from p on, and what is left over. */
    method Remainder(data: array<u8>, p: nat, nbytes: nat, ghost d: Bytes) returns (q: nat)
      requires buf.Length == 64 && data != buf && p <= nbytes <= data.Length && d == data[..nbytes]
      modifies this`abcd, buf
      ensures p <= q <= nbytes < q + 64 && (q - p) % 64 == 0
      ensures abcd == Fold(process, old(abcd), d[p..q]) && buf[..nbytes - q] == d[q..]
    {
      q := Blocks(data, p, nbytes);
      if q < nbytes {
        Copy(0, data, q, nbytes - q);
      }
      assert data[p..q] == d[p..q];
      assert buf[..nbytes - q] == data[q..nbytes] == d[q..];
    }

    /** Appending in any pieces is appending the whole: only the message absorbed so far matters. */
    method Append(data: array<u8>, nbytes: int)
      requires Valid() && data != buf && -0x8000_0000 <= nbytes <= data.Length
      requires |message| % 64 + nbytes < 0x8000_0000
      modifies this, buf
      ensures Valid()
      ensures message == old(message) + if nbytes <= 0 then [] else data[..nbytes]
    {
      hide Fold, Rest, BitCount, Plus64, Wrap;
      OffsetIs(count0, count1, |message|);
      var offset := count0 / 8 % 64;
      if nbytes <= 0 {
        return;
      }
      ghost var m, d := message, data[..nbytes];
      CountIs(|m|, nbytes);
      AddBits(nbytes);
      var p := 0;
      message := m + d;
      if offset != 0 {
        p := Fill(offset, data, nbytes, d);
        if offset + p < 64 {
          assert d[..p] == d;
          AppendShort(process, m, d);
          return;
        }
        AppendFill(process, m, d[..p]);
      } else {
        assert m + d[..p] == m;
      }
      assert abcd == Fold(process, INIT, m + d[..p]) && |m + d[..p]| % 64 == 0;
      var q := Remainder(data, p, nbytes, d);
      AppendBlocks(process, m, d, p, q);
    }

    /** The length in bits, as it stands, least significant byte first. */
    method SaveLength() returns (data: array<u8>)
      ensures fresh(data) && data[..] == Enc(Bits(), 8)
    {
      hide Enc, ByteOf;
      data := new u8[8];
      var i := 0;
      while i < 8
        invariant 0 <= i <= 8 && forall k | 0 <= k < i :: data[k] == ByteOf(if k < 4 then count0 else count1, k % 4)
      {
        data[i] := ByteOf(if i < 4 then count0 else count1, i % 4);
        i := i + 1;
      }
      CountBytes(count0, count1);
      WordBytes(count0);
      WordBytes(count1);
      assert data[..] == Enc(count0, 4) + Enc(count1, 4);
    }

    method StoreDigest(digest: array<u8>)
      requires digest.Length == 16 && digest != buf
      modifies digest
      ensures digest[..] == Output(abcd)
    {
      hide Enc, ByteOf;
      var i := 0;
      while i < 16
        invariant 0 <= i <= 16 && forall k | 0 <= k < i :: digest[k] == ByteOf(abcd.Word(k / 4), k % 4)
      {
        digest[i] := ByteOf(abcd.Word(i / 4), i % 4);
        i := i + 1;
      }
      WordBytes(abcd.a);
      WordBytes(abcd.b);
      WordBytes(abcd.c);
      WordBytes(abcd.d);
    }

    /** The digest of everything appended is the one the standard defines for it. */
    method Finish(digest: array<u8>)
      requires Valid() && digest.Length == 16 && digest != buf
      modifies this, buf, digest
      ensures digest[..] == Digest(process, old(message))
    {
      hide Fold, Rest, Enc, Wrap, BitCount;
      ghost var m := message;
      var data := SaveLength();
      OffsetIs(count0, count1, |m|);
      PadIs(count0, |m|);
      var pad := new u8[64](i => if i == 0 then 0x80 else 0);
      var n := Wrap(55 - count0 / 8) % 64 + 1;
      Append(pad, n);
      assert pad[..n] == Padding(|m|);
      Append(data, 8);
      assert data[..8] == data[..];
      assert message == Padded(m);
      StoreDigest(digest);
    }
  }

  // ---------- the whole ----------

  /** What the cast of the length to int leaves of the data. */
  function Taken(m: Bytes): Bytes {
    if Signed(|m|) <= 0 then [] else m[..Signed(|m|)]
  }

  method Md5(process: Process, data: array<u8>) returns (digest: array<u8>)
    ensures fresh(digest) && digest[..] == Digest(process, Taken(data[..]))
  {
    hide Fold, Padded, Enc, Rest, BitCount, Signed, Digest;
    SignedAtMost(data.Length);
    var state := new State(process);
    var n := Signed(data.Length);
    assert |state.message| % 64 == 0;
    state.Append(data, n);
    digest := new u8[16];
    ghost var all := data[..];
    if n > 0 {
      assert all[..n] == data[..n];
    }
    assert state.message == Taken(all) by { assert [] + data[..Max(n, 0)] == data[..Max(n, 0)]; }
    state.Finish(digest);
  }

  lemma SignedAtMost(n: nat)
    ensures -0x8000_0000 <= Signed(n) < 0x8000_0000 && Signed(n) <= n
  {
  }

  /** The digest is that of the data exactly when these are less than 2^31 bytes; a longer string is cut short, to
      nothing if the cast is negative. */
  lemma TakenIsAll(m: Bytes)
    ensures Taken(m) == m <==> |m| < 0x8000_0000
  {
    if |m| >= 0x8000_0000 {
      assert Signed(|m|) < 0x8000_0000;
      assert |Taken(m)| < |m|;
    } else {
      assert Signed(|m|) == |m|;
    }
  }
}
