/** The bit packer and unpacker of G3D's binary files: numbers of any width up to 32 bits, lowest bit first, over the
    bytes of the file. */
module BitPacking {
  import opened Numbers
  import opened LittleEndian

  type Bit = x: int | 0 <= x < 2

  // ---------- bits ----------

  /** The n lowest bits of a number, lowest first. */
  function Bits(v: nat, n: nat): (b: seq<Bit>)
    ensures |b| == n
  {
    if n == 0 then [] else [v % 2] + Bits(v / 2, n - 1)
  }

  function Num(b: seq<Bit>): nat {
    if b == [] then 0 else b[0] + 2 * Num(b[1..])
  }

  function Pow2(n: nat): (p: nat)
    ensures p >= 1
  {
    if n == 0 then 1 else 2 * Pow2(n - 1)
  }

  lemma {:induction false} NumBits(v: nat, n: nat)
    ensures Num(Bits(v, n)) == v % Pow2(n)
  {
    if n > 0 {
      var p := Pow2(n - 1);
      NumBits(v / 2, n - 1);
      assert Bits(v, n)[1..] == Bits(v / 2, n - 1);
      DivMod(v, p);
    }
  }

  lemma DivMod(v: nat, p: nat)
    requires p >= 1
    ensures v % (2 * p) == v % 2 + 2 * (v / 2 % p)
  {
    var q, r := v / 2 / p, v % 2 + 2 * (v / 2 % p);
    assert v / 2 == p * q + v / 2 % p;
    assert v == 2 * p * q + r by {
      assert v == 2 * (v / 2) + v % 2;
      assert 2 * (p * q) == 2 * p * q;
    }
    assert 0 <= r < 2 * p;
    Remainder(v, 2 * p, q, r);
  }

  lemma AtLeast(m: nat, d: int)
    requires d >= 1
    ensures m * d >= m
  {
  }

  lemma Remainder(v: nat, m: nat, q: nat, r: nat)
    requires v == m * q + r && r < m
    ensures v % m == r
  {
    var k, t := v / m, v % m;
    assert v == m * k + t && 0 <= t < m;
    assert m * (q - k) == m * q - m * k;
    assert m * (k - q) == m * k - m * q;
    if q > k {
      AtLeast(m, q - k);
    } else if q < k {
      AtLeast(m, k - q);
    }
  }

  /** A bit above the others. */
  lemma {:induction false} BitsAbove(v: nat, n: nat, bit: Bit)
    requires v < Pow2(n)
    ensures Bits(v + bit * Pow2(n), n + 1) == Bits(v, n) + [bit] && v + bit * Pow2(n) < Pow2(n + 1)
  {
    if n == 0 {
      assert Bits(bit, 1) == [bit] + Bits(0, 0);
    } else {
      var p := Pow2(n - 1);
      BitsAbove(v / 2, n - 1, bit);
      assert bit * Pow2(n) == 2 * (bit * p);
      assert (v + 2 * (bit * p)) / 2 == v / 2 + bit * p && (v + 2 * (bit * p)) % 2 == v % 2;
      assert Bits(v + bit * Pow2(n), n + 1) == [v % 2] + Bits(v / 2 + bit * p, n);
      assert [v % 2] + (Bits(v / 2, n - 1) + [bit]) == Bits(v, n) + [bit];
    }
  }

  lemma {:induction false} NumAbove(b: seq<Bit>, bit: Bit)
    ensures Num(b + [bit]) == Num(b) + bit * Pow2(|b|)
  {
    if b == [] {
      assert [bit][1..] == [];
    } else {
      NumAbove(b[1..], bit);
      assert (b + [bit])[1..] == b[1..] + [bit];
      assert 2 * (bit * Pow2(|b| - 1)) == bit * Pow2(|b|);
    }
  }

  function Unpack(bytes: Bytes): (b: seq<Bit>)
    ensures |b| == 8 * |bytes|
  {
    if bytes == [] then [] else Bits(bytes[0], 8) + Unpack(bytes[1..])
  }

  lemma {:induction false} UnpackAppend(a: Bytes, b: Bytes)
    ensures Unpack(a + b) == Unpack(a) + Unpack(b)
  {
    hide Bits;
    if a == [] {
      assert a + b == b;
    } else {
      UnpackAppend(a[1..], b);
      assert (a + b)[1..] == a[1..] + b;
    }
  }

  lemma UnpackOne(a: Bytes, x: u8)
    ensures Unpack(a + [x]) == Unpack(a) + Bits(x, 8)
  {
    UnpackAppend(a, [x]);
    assert Unpack([x]) == Bits(x, 8) + Unpack([x][1..]);
  }

  // ---------- writing ----------

  class BinaryOutput {
    var buffer: Bytes
    var pos: nat
    var bitString: u8
    var bitPos: nat
    var inBits: bool
    ghost var start: nat          // where beginBits was called
    ghost var written: seq<Bit>   // since then

    /** Between beginBits and endBits the finished bytes and the one being built hold exactly what was written. */
    ghost predicate Valid()
      reads this
    {
      && pos <= |buffer|
      && (inBits ==>
            && start <= pos && bitPos < 8 && bitString < Pow2(bitPos)
            && Unpack(buffer[start..pos]) + Bits(bitString, bitPos) == written)
    }

    constructor ()
      ensures Valid() && !inBits && buffer == [] && pos == 0
    {
      buffer, pos, bitString, bitPos, inBits := [], 0, 0, 0, false;
    }

    method WriteUInt8(x: u8)
      requires pos <= |buffer|
      modifies this`buffer, this`pos
      ensures pos == old(pos) + 1 <= |buffer| && buffer[..pos] == old(buffer)[..old(pos)] + [x]
      ensures |buffer| == Max(|old(buffer)|, pos) && buffer[pos..] == old(buffer)[Min(pos, |old(buffer)|)..]
    {
      buffer := if pos < |buffer| then buffer[pos := x] else buffer + [x];
      pos := pos + 1;
    }

    method BeginBits()
      requires Valid() && !inBits
      modifies this
      ensures Valid() && inBits && buffer == old(buffer) && pos == old(pos) && start == pos && written == []
    {
      bitString, bitPos, inBits := 0, 0, true;
      start, written := pos, [];
    }

    /** One turn of the loop: the lowest bit of `value` goes to the next place of the byte being built, which holds
        zero there, so that the or is an addition. */
    method WriteBit(bit: Bit)
      requires Valid() && inBits
      modifies this
      ensures Valid() && inBits && start == old(start) && written == old(written) + [bit]
      ensures buffer[..start] == old(buffer)[..start]
    {
      BitsAbove(bitString, bitPos, bit);
      Pow2Is(bitPos + 1);
      hide Bits, Pow2, Unpack;
      ghost var b := buffer[start..pos];
      bitString := bitString + bit * Shift(bitPos);
      bitPos := bitPos + 1;
      written := written + [bit];
      assert Unpack(b) + Bits(bitString, bitPos) == written;
      if bitPos > 7 {
        FinishByte();
      }
    }

    /** The byte is full. */
    method FinishByte()
      requires pos <= |buffer| && inBits && start <= pos && bitPos == 8
      requires Unpack(buffer[start..pos]) + Bits(bitString, 8) == written
      modifies this`buffer, this`pos, this`bitString, this`bitPos
      ensures Valid() && buffer[..start] == old(buffer)[..start]
    {
      hide Bits, Unpack, Pow2;
      NoBits();
      ghost var b := buffer[start..pos];
      WriteUInt8(bitString);
      UnpackOne(b, bitString);
      assert buffer[start..pos] == b + [bitString];
      bitString, bitPos := 0, 0;
    }

    method WriteBits(value: u32, numBits: int)
      requires Valid() && inBits
      modifies this
      ensures Valid() && inBits && start == old(start)
      ensures written == old(written) + Bits(value, Max(numBits, 0))
      ensures buffer[..start] == old(buffer)[..start]
    {
      var v, n := value, numBits;
      while n > 0
        invariant Valid() && inBits && start == old(start)
        invariant n <= numBits && (numBits >= 0 ==> n >= 0)
        invariant written + Bits(v, Max(n, 0)) == old(written) + Bits(value, Max(numBits, 0))
        invariant buffer[..start] == old(buffer)[..start]
      {
        hide Unpack, Pow2;
        WriteBit(v % 2);
        v := v / 2;
        n := n - 1;
      }
    }

    /** The last byte is filled up with zeros. */
    method EndBits()
      requires Valid() && inBits
      modifies this
      ensures Valid() && !inBits && start == old(start) <= pos && written == old(written)
      ensures pos - start == (|written| + 7) / 8
      ensures written <= Unpack(buffer[start..pos])
      ensures buffer[..start] == old(buffer)[..start]
    {
      hide Bits, Pow2, Unpack;
      ghost var b := buffer[start..pos];
      if bitPos > 0 {
        Widen(bitString, bitPos, 8);
        WriteUInt8(bitString);
        UnpackOne(b, bitString);
        assert buffer[start..pos] == b + [bitString];
      }
      bitString, bitPos, inBits := 0, 0, false;
    }
  }

  lemma NoBits()
    ensures Bits(0, 0) == [] && Pow2(0) == 1
  {
  }

  /** 1 << n */
  function Shift(n: nat): (p: nat)
    requires n < 8
    ensures p == Pow2(n)
  {
    Pow2Is(n);
    match n case 0 => 1 case 1 => 2 case 2 => 4 case 3 => 8 case 4 => 16 case 5 => 32 case 6 => 64 case _ => 128
  }

  lemma Pow2Is(n: nat)
    requires n <= 8
    ensures Pow2(n) == [1, 2, 4, 8, 16, 32, 64, 128, 256][n]
  {
    assert Pow2(2) == 4 && Pow2(4) == 16 && Pow2(6) == 64 && Pow2(8) == 256;
  }

  /** Fewer bits of a number are a prefix of more of them. */
  lemma {:induction false} Widen(v: nat, n: nat, k: nat)
    requires n <= k
    ensures Bits(v, n) <= Bits(v, k)
  {
    if n > 0 {
      Widen(v / 2, n - 1, k - 1);
    }
  }

  lemma {:induction false} NumFits(b: seq<Bit>)
    ensures Num(b) < Pow2(|b|)
  {
    if b != [] {
      NumFits(b[1..]);
    }
  }

  lemma {:induction false} Pow2Grows(n: nat, k: nat)
    requires n <= k
    ensures Pow2(n) <= Pow2(k)
    decreases k
  {
    if n < k {
      Pow2Grows(n, k - 1);
    }
  }

  lemma Num32(b: seq<Bit>)
    requires |b| <= 32
    ensures Num(b) < TWO32
  {
    NumFits(b);
    Pow2Grows(|b|, 32);
    Pow2Is32();
  }

  lemma Pow2Is32()
    ensures Pow2(32) == TWO32
  {
    Pow2Is(8);
    assert Pow2(16) == 0x1_0000 by { assert Pow2(12) == 0x1000; }
    assert Pow2(24) == 0x100_0000 by { assert Pow2(20) == 0x10_0000; }
    assert Pow2(28) == 0x1000_0000;
  }

  lemma NextBit(all: seq<Bit>, k: nat, bit: Bit, rest: seq<Bit>)
    requires k < |all| && [bit] + rest == all[k..]
    ensures all[..k + 1] == all[..k] + [bit] && rest == all[k + 1..]
  {
    assert all[k..][0] == bit && all[k..][1..] == rest;
  }

  lemma LowBit(v: nat, n: nat, rest: seq<Bit>)
    requires n > 0
    ensures Bits(v, n) + rest == [v % 2] + (Bits(v / 2, n - 1) + rest)
    ensures (Bits(v, n) + rest)[1..] == Bits(v / 2, n - 1) + rest
  {
    var tail := Bits(v / 2, n - 1) + rest;
    assert Bits(v, n) == [v % 2] + Bits(v / 2, n - 1);
    hide Bits;
    assert Bits(v, n) + rest == [v % 2] + tail;
    assert ([v % 2] + tail)[1..] == tail;
  }

  // ---------- reading ----------

  class BinaryInput {
    const buffer: Bytes
    var pos: nat
    var bitString: nat
    var bitPos: nat
    var inBits: bool
    ghost var start: nat     // where beginBits was called
    ghost var consumed: nat  // bits read since then

    /** Between beginBits and endBits: the bits of the current byte not yet read, and those of the bytes to come. */
    ghost function Rest(): seq<Bit>
      requires bitPos <= 8 && pos <= |buffer|
      reads this
    {
      Bits(bitString, 8 - bitPos) + Unpack(buffer[pos..])
    }

    ghost predicate Valid()
      reads this
    {
      && pos <= |buffer|
      && (inBits ==>
            && bitPos <= 8 && start < pos && consumed == 8 * (pos - start - 1) + bitPos
            && Rest() == Unpack(buffer[start..])[consumed..])
    }

    constructor (buffer: Bytes)
      ensures Valid() && !inBits && this.buffer == buffer && pos == 0
    {
      this.buffer := buffer;
      pos, bitString, bitPos, inBits := 0, 0, 0, false;
    }

    method SetPosition(n: nat)
      requires Valid() && !inBits && n <= |buffer|
      modifies this`pos
      ensures Valid() && pos == n
    {
      pos := n;
    }

    /** The caller is asked for a byte to be there. */
    method BeginBits()
      requires Valid() && !inBits && pos < |buffer|
      modifies this
      ensures Valid() && inBits && start == old(pos) && consumed == 0 && Rest() == Unpack(buffer[start..])
    {
      hide Bits;
      start, consumed := pos, 0;
      assert buffer[pos..][1..] == buffer[pos + 1..];
      bitString := buffer[pos];
      pos, bitPos, inBits := pos + 1, 0, true;
    }

    /** The next byte, when the current one is used up. */
    method NextByte()
      requires Valid() && inBits && bitPos == 8 && Rest() != []
      modifies this`pos, this`bitString, this`bitPos
      ensures Valid() && bitPos == 0 && Rest() == old(Rest())
    {
      NoBits();
      assert Rest() == Unpack(buffer[pos..]) by { assert Bits(bitString, 0) == []; }
      hide Bits;
      assert buffer[pos..][1..] == buffer[pos + 1..];
      bitString := buffer[pos];
      pos, bitPos := pos + 1, 0;
    }

    method ReadBit() returns (bit: Bit)
      requires Valid() && inBits && Rest() != []
      modifies this
      ensures Valid() && inBits && start == old(start) && consumed == old(consumed) + 1
      ensures [bit] + Rest() == old(Rest())
    {
      if bitPos > 7 {
        NextByte();
      }
      hide Bits, Unpack;
      ghost var rest := Rest();
      ghost var all := Unpack(buffer[start..]);
      LowBit(bitString, 8 - bitPos, Unpack(buffer[pos..]));
      assert rest[1..] == all[consumed + 1..];
      bit := bitString % 2;
      bitString := bitString / 2;
      bitPos, consumed := bitPos + 1, consumed + 1;
      assert Rest() == rest[1..];
    }

    method ReadBits(numBits: int) returns (out: u32)
      requires Valid() && inBits && numBits <= 32 && numBits <= |Rest()|
      modifies this
      ensures Valid() && inBits && start == old(start) && consumed == old(consumed) + Max(numBits, 0)
      ensures out == Num(old(Rest())[..Max(numBits, 0)]) && Rest() == old(Rest())[Max(numBits, 0)..]
    {
      out := 0;
      var n := numBits;
      ghost var all, k := Rest(), 0;
      while n > 0
        invariant Valid() && inBits && start == old(start)
        invariant 0 <= k <= Max(numBits, 0) && n == numBits - k
        invariant consumed == old(consumed) + k && Rest() == all[k..] && out == Num(all[..k])
      {
        hide Num, Bits, Unpack, Pow2;
        var bit := ReadBit();
        NextBit(all, k, bit, Rest());
        NumAbove(all[..k], bit);
        Num32(all[..k + 1]);
        out := out + bit * Pow2(numBits - n);
        n := n - 1;
        k := k + 1;
      }
    }

    method EndBits()
      requires Valid() && inBits
      modifies this
      ensures Valid() && !inBits && start == old(start) <= pos && consumed == old(consumed)
      ensures pos - start == (consumed + 7) / 8
    {
      if bitPos == 0 {
        pos := pos - 1;
      }
      inBits, bitPos := false, 0;
    }
  }


  // ---------- there and back ----------

  datatype Field = Field(value: u32, width: nat)

  function AllBits(fs: seq<Field>): seq<Bit> {
    if fs == [] then [] else AllBits(fs[..|fs| - 1]) + Bits(fs[|fs| - 1].value, fs[|fs| - 1].width)
  }

  lemma AllBitsNext(fs: seq<Field>, i: nat)
    requires i < |fs|
    ensures AllBits(fs[..i + 1]) == AllBits(fs[..i]) + Bits(fs[i].value, fs[i].width)
  {
    assert fs[..i + 1][..i] == fs[..i];
  }

  lemma {:induction false} AllBitsPrefix(fs: seq<Field>, i: nat)
    requires i <= |fs|
    ensures AllBits(fs[..i]) <= AllBits(fs)
    decreases |fs| - i
  {
    if i == |fs| {
      assert fs[..i] == fs;
    } else {
      AllBitsNext(fs, i);
      AllBitsPrefix(fs, i + 1);
    }
  }

  method WriteAll(fs: seq<Field>, before: Bytes) returns (file: Bytes)
    requires forall i | 0 <= i < |fs| :: fs[i].width <= 32
    ensures |file| == |before| + (|AllBits(fs)| + 7) / 8
    ensures file[..|before|] == before && AllBits(fs) <= Unpack(file[|before|..])
  {
    hide Bits, Unpack;
    var output := new BinaryOutput();
    var i := 0;
    while i < |before|
      invariant output.Valid() && !output.inBits && i <= |before|
      invariant output.buffer == before[..i] && output.pos == i
    {
      output.WriteUInt8(before[i]);
      i := i + 1;
    }
    output.BeginBits();
    i := 0;
    while i < |fs|
      invariant output.Valid() && output.inBits && i <= |fs|
      invariant output.start == |before| && output.buffer[..|before|] == before
      invariant output.written == AllBits(fs[..i])
    {
      AllBitsNext(fs, i);
      hide AllBits;
      output.WriteBits(fs[i].value, fs[i].width);
      i := i + 1;
    }
    assert fs[..i] == fs;
    output.EndBits();
    file := output.buffer[..output.pos];
    assert file[|before|..] == output.buffer[|before|..output.pos];
  }

  method ReadAll(input: BinaryInput, fs: seq<Field>) returns (values: seq<u32>)
    requires input.Valid() && !input.inBits && input.pos < |input.buffer|
    requires forall i | 0 <= i < |fs| :: fs[i].width <= 32
    requires AllBits(fs) <= Unpack(input.buffer[input.pos..])
    modifies input
    ensures |values| == |fs| && forall i | 0 <= i < |fs| :: values[i] == fs[i].value % Pow2(fs[i].width)
    ensures input.pos - old(input.pos) == (|AllBits(fs)| + 7) / 8
  {
    hide Bits, Unpack, Pow2, Num;
    ghost var all := Unpack(input.buffer[input.pos..]);
    values := [];
    input.BeginBits();
    var i := 0;
    while i < |fs|
      invariant input.Valid() && input.inBits && input.start == old(input.pos) && i <= |fs|
      invariant input.consumed == |AllBits(fs[..i])| && input.Rest() == all[input.consumed..]
      invariant |values| == i && forall k | 0 <= k < i :: values[k] == fs[k].value % Pow2(fs[k].width)
    {
      AllBitsNext(fs, i);
      AllBitsPrefix(fs, i + 1);
      hide AllBits;
      Slice(all, AllBits(fs[..i]), Bits(fs[i].value, fs[i].width));
      NumBits(fs[i].value, fs[i].width);
      var v := input.ReadBits(fs[i].width);
      values := values + [v];
      i := i + 1;
    }
    assert fs[..i] == fs;
    input.EndBits();
  }

  lemma Slice(all: seq<Bit>, a: seq<Bit>, b: seq<Bit>)
    requires a + b <= all
    ensures |all[|a|..]| >= |b| && all[|a|..][..|b|] == b && all[|a|..][|b|..] == all[|a + b|..]
  {
    var rest := all[|a + b|..];
    assert all == a + b + rest;
    assert all[|a|..] == b + rest;
  }

  /** What was written between beginBits and endBits is read back with the same widths, each number modulo two to
      its width, and both sides move on by the same number of bytes, the bits rounded up. The bytes that follow, of
      which there is at least one if no bit is written, do not matter. */
  method WriteAndRead(fs: seq<Field>, before: Bytes, after: Bytes) returns (values: seq<u32>, wrote: int, took: int)
    requires forall i | 0 <= i < |fs| :: fs[i].width <= 32
    requires AllBits(fs) == [] ==> after != []
    ensures |values| == |fs| && forall i | 0 <= i < |fs| :: values[i] == fs[i].value % Pow2(fs[i].width)
    ensures wrote == took == (|AllBits(fs)| + 7) / 8
  {
    hide Bits, Unpack, Pow2;
    var file := WriteAll(fs, before);
    wrote := |file| - |before|;
    var input := new BinaryInput(file + after);
    input.SetPosition(|before|);
    UnpackAppend(file[|before|..], after);
    assert (file + after)[|before|..] == file[|before|..] + after;
    assert AllBits(fs) != [] ==> |file| > |before|;
    values := ReadAll(input, fs);
    took := input.pos - |before|;
  }
}
