/** The streaming hashes of benchmark/single-source/Hash.swift. */
module StreamingHash {
  import opened HashStandards

  // ---- the word expressions of the program, and what they compute

  /** Swift's `UInt32(truncatingBitPattern:)` of a 64-bit value. */
  function Truncated(v: bv64): Word {
    (v & 0xFFFF_FFFF) as Word
  }

  function Rol(x: Word, c: Shift): Word {
    Truncated((x as bv64) << (c as bv64)) | Truncated((x as bv64) >> (32 - c as bv64))
  }

  function Ror(x: Word, c: Shift): Word {
    Truncated((x as bv64) >> (c as bv64)) | Truncated((x as bv64) << (32 - c as bv64))
  }

  lemma RotationsAreStandard(x: Word, c: Shift)
    ensures Rol(x, c) == Rotl(x, c) && Ror(x, c) == Rotr(x, c)
  {
  }

  function Md5LoopF(i: nat, b: Word, c: Word, d: Word): Word {
    if i < 16 then (b & c) | (!b & d)
    else if i < 32 then (d & b) | (!d & c)
    else if i < 48 then b ^ c ^ d
    else c ^ (b | !d)
  }

  lemma Md5LoopFIsStandard(i: nat, b: Word, c: Word, d: Word)
    ensures Md5LoopF(i, b, c, d) == Md5F(i, b, c, d)
  {
    assert (d & b) | (!d & c) == (b & d) | (c & !d);
  }

  function Sha1LoopF(t: nat, b: Word, c: Word, d: Word): Word {
    if t < 20 then (b & c) | ((b ^ 0xFFFF_FFFF) & d)
    else if t < 40 then b ^ c ^ d
    else if t < 60 then (b & c) | (b & d) | (c & d)
    else b ^ c ^ d
  }

  lemma Sha1LoopFIsStandard(t: nat, b: Word, c: Word, d: Word)
    ensures Sha1LoopF(t, b, c, d) == Sha1F(t, b, c, d)
  {
    assert (b & c) | ((b ^ 0xFFFF_FFFF) & d) == (b & c) ^ (!b & d);
    assert (b & c) | (b & d) | (c & d) == (b & c) ^ (b & d) ^ (c & d);
  }

  lemma XorOrder(a: Word, b: Word, c: Word, d: Word)
    ensures Xor(Xor(a, b), Xor(c, d)) == Xor4(a, b, c, d)
  {
  }

  function Xor(a: Word, b: Word): Word {
    a ^ b
  }

  lemma PlusCommutes(a: Word, b: Word)
    ensures Plus(a, b) == Plus(b, a)
  {
  }

  lemma Sum4Swaps(a: Word, b: Word, c: Word, d: Word)
    ensures Sum4(a, b, c, d) == Sum4(a, b, d, c)
  {
  }

  lemma Sum4Reverses(a: Word, b: Word, c: Word, d: Word)
    ensures Sum4(a, b, c, d) == Sum4(d, c, b, a)
  {
  }

  lemma Sum5Swaps(a: Word, b: Word, c: Word, d: Word, e: Word)
    ensures Sum5(a, b, c, d, e) == Sum5(a, b, c, e, d)
  {
  }

  function ToUInt32(block: seq<Byte>, offset: nat): Word
    requires offset + 3 < |block|
  {
    block[offset] as Word | (block[offset + 1] as Word << 8) | (block[offset + 2] as Word << 16) | (block[offset + 3] as Word << 24)
  }

  lemma LittleEndianIsStandard(b0: Byte, b1: Byte, b2: Byte, b3: Byte)
    ensures b0 as Word | (b1 as Word << 8) | (b2 as Word << 16) | (b3 as Word << 24) == LittleEndianWord(b0, b1, b2, b3)
  {
  }

  function ShiftIn(word: Word, b: Byte): Word {
    (word << 8) + b as Word
  }

  lemma BigEndianIsStandard(b0: Byte, b1: Byte, b2: Byte, b3: Byte)
    ensures ShiftIn(ShiftIn(ShiftIn(ShiftIn(0, b0), b1), b2), b3) == BigEndianWord(b0, b1, b2, b3)
  {
  }

  // ---- the block functions

  method Md5Block(h: seq<Word>, block: seq<Byte>) returns (h': seq<Word>)
    requires |h| == 4 && |block| == 64
    ensures h' == Md5Compress(h, block)
  {
    hide LittleEndianWord, ToUInt32, Md5T, Md5Shift, Md5LoopF, Md5F, Plus, Sum4, Rol, Rotl, Ror, Rotr;
    var w := new Word[16];
    for i := 0 to 16
      invariant forall j :: 0 <= j < i ==> w[j] == LittleEndianWords(block)[j]
    {
      ToUInt32IsStandard(block, 4 * i);
      w[i] := ToUInt32(block, i * 4);
    }
    ghost var x := LittleEndianWords(block);
    assert w[..] == x;
    ghost var r0 := Md5Registers(h[0], h[1], h[2], h[3]);
    var a, b, c, d := h[0], h[1], h[2], h[3];
    for i := 0 to 64
      invariant w[..] == x
      invariant Md5Registers(a, b, c, d) == Md5Steps(r0, x, i)
    {
      var f := Md5LoopF(i, b, c, d);
      var g := Md5Index(i);
      Md5LoopFIsStandard(i, b, c, d);
      Sum4Swaps(a, f, Md5T(i), w[g]);
      var sum := Sum4(a, f, Md5T(i), w[g]);
      RotationsAreStandard(sum, Md5Shift(i));
      a, b, c, d := d, Plus(b, Rol(sum, Md5Shift(i))), b, c;
    }
    PlusCommutes(a, h[0]);
    PlusCommutes(b, h[1]);
    PlusCommutes(c, h[2]);
    PlusCommutes(d, h[3]);
    h' := [Plus(a, h[0]), Plus(b, h[1]), Plus(c, h[2]), Plus(d, h[3])];
  }

  lemma ToUInt32IsStandard(block: seq<Byte>, offset: nat)
    requires offset + 3 < |block|
    ensures ToUInt32(block, offset) ==
            LittleEndianWord(block[offset], block[offset + 1], block[offset + 2], block[offset + 3])
  {
    LittleEndianIsStandard(block[offset], block[offset + 1], block[offset + 2], block[offset + 3]);
  }

  method Sha1Block(h: seq<Word>, block: seq<Byte>) returns (h': seq<Word>)
    requires |h| == 5 && |block| == 64
    ensures h' == Sha1Compress(h, block)
  {
    hide BlockWord, Sha1LoopF, Sha1F, Sha1K, Plus, Sum5, Xor, Xor4, Rol, Rotl, Ror, Rotr;
    var w := new Word[80];
    LoadWords(w, block);
    for t := 16 to 80
      invariant forall j :: 0 <= j < t ==> w[j] == Sha1Schedule(block, j)
    {
      var lhs := Xor(w[t - 3], w[t - 8]);
      var rhs := Xor(w[t - 14], w[t - 16]);
      XorOrder(w[t - 3], w[t - 8], w[t - 14], w[t - 16]);
      RotationsAreStandard(Xor(lhs, rhs), 1);
      w[t] := Rol(Xor(lhs, rhs), 1);
    }
    ghost var r0 := Sha1Registers(h[0], h[1], h[2], h[3], h[4]);
    var a, b, c, d, e := h[0], h[1], h[2], h[3], h[4];
    for t := 0 to 80
      invariant forall j :: 0 <= j < 80 ==> w[j] == Sha1Schedule(block, j)
      invariant Sha1Registers(a, b, c, d, e) == Sha1Steps(r0, block, t)
    {
      var k := Sha1K(t);
      var f := Sha1LoopF(t, b, c, d);
      Sha1LoopFIsStandard(t, b, c, d);
      RotationsAreStandard(a, 5);
      RotationsAreStandard(b, 30);
      Sum5Swaps(Rol(a, 5), f, e, w[t], k);
      var temp := Sum5(Rol(a, 5), f, e, w[t], k);
      a, b, c, d, e := temp, a, Rol(b, 30), c, d;
    }
    PlusCommutes(a, h[0]);
    PlusCommutes(b, h[1]);
    PlusCommutes(c, h[2]);
    PlusCommutes(d, h[3]);
    PlusCommutes(e, h[4]);
    h' := [Plus(h[0], a), Plus(h[1], b), Plus(h[2], c), Plus(h[3], d), Plus(h[4], e)];
  }

  /** The loop of both SHA classes that turns the bytes of a block into words. */
  method LoadWords(w: array<Word>, block: seq<Byte>)
    requires w.Length >= 16 && |block| == 64
    modifies w
    ensures forall j :: 0 <= j < 16 ==> w[j] == BlockWord(block, j)
  {
    hide ShiftIn, BigEndianWord;
    var word: Word := 0;
    for i := 0 to 64
      invariant forall j :: 0 <= j < i / 4 ==> w[j] == BlockWord(block, j)
      invariant word == PartialWord(block, i - i % 4, i % 4)
    {
      word := ShiftIn(word, block[i]);
      if i % 4 == 3 {
        FourBytes(block, i / 4);
        w[i / 4] := word;
        word := 0;
      }
    }
  }

  /** The first `n` bytes from `start` on, shifted in one after the other. */
  ghost function PartialWord(block: seq<Byte>, start: nat, n: nat): Word
    requires start + n <= |block|
  {
    if n == 0 then 0 else ShiftIn(PartialWord(block, start, n - 1), block[start + n - 1])
  }

  lemma FourBytes(block: seq<Byte>, j: nat)
    requires |block| == 64 && j < 16
    ensures ShiftIn(PartialWord(block, 4 * j, 3), block[4 * j + 3]) == BlockWord(block, j)
  {
    hide ShiftIn, BigEndianWord;
    BigEndianIsStandard(block[4 * j], block[4 * j + 1], block[4 * j + 2], block[4 * j + 3]);
    assert PartialWord(block, 4 * j, 1) == ShiftIn(0, block[4 * j]);
    assert PartialWord(block, 4 * j, 2) == ShiftIn(PartialWord(block, 4 * j, 1), block[4 * j + 1]);
  }

  function LoopS0(x: Word): Word {
    Xor3(Ror(x, 7), Ror(x, 18), x >> 3)
  }

  function LoopS1(x: Word): Word {
    Xor3(Ror(x, 17), Ror(x, 19), x >> 10)
  }

  lemma SmallSigmas(x: Word)
    ensures LoopS0(x) == SmallSigma0(x) && LoopS1(x) == SmallSigma1(x)
  {
    hide Xor3, Ror, Rotr;
    RotationsAreStandard(x, 7);
    RotationsAreStandard(x, 18);
    RotationsAreStandard(x, 17);
    RotationsAreStandard(x, 19);
  }

  lemma BigSigmas(x: Word)
    ensures Xor3(Ror(x, 2), Ror(x, 13), Ror(x, 22)) == BigSigma0(x)
    ensures Xor3(Ror(x, 6), Ror(x, 11), Ror(x, 25)) == BigSigma1(x)
  {
    hide Xor3, Ror, Rotr;
    RotationsAreStandard(x, 2);
    RotationsAreStandard(x, 13);
    RotationsAreStandard(x, 22);
    RotationsAreStandard(x, 6);
    RotationsAreStandard(x, 11);
    RotationsAreStandard(x, 25);
  }

  method Sha256Block(h: seq<Word>, block: seq<Byte>) returns (h': seq<Word>)
    requires |h| == 8 && |block| == 64
    ensures h' == Sha256Compress(h, block)
  {
    hide BlockWord, Plus, Sum4, Sum5, Xor3, Ror, Rotr, LoopS0, LoopS1, SmallSigma0, SmallSigma1, BigSigma0, BigSigma1, Ch, Maj, Sha256K;
    var w := new Word[64];
    LoadWords(w, block);
    for i := 16 to 64
      invariant forall j :: 0 <= j < i ==> w[j] == Sha256Schedule(block, j)
    {
      var s0 := LoopS0(w[i - 15]);
      var s1 := LoopS1(w[i - 2]);
      SmallSigmas(w[i - 15]);
      SmallSigmas(w[i - 2]);
      Sum4Reverses(w[i - 16], s0, w[i - 7], s1);
      w[i] := Sum4(w[i - 16], s0, w[i - 7], s1);
    }
    ghost var r0 := Sha256Registers(h[0], h[1], h[2], h[3], h[4], h[5], h[6], h[7]);
    var a, b, c, d, e, f, g, hh := h[0], h[1], h[2], h[3], h[4], h[5], h[6], h[7];
    for i := 0 to 64
      invariant forall j :: 0 <= j < 64 ==> w[j] == Sha256Schedule(block, j)
      invariant Sha256Registers(a, b, c, d, e, f, g, hh) == Sha256Steps(r0, block, i)
    {
      var s1 := Xor3(Ror(e, 6), Ror(e, 11), Ror(e, 25));
      var ch := Ch(e, f, g);
      var temp1 := Sum5(hh, s1, ch, Sha256K(i), w[i]);
      var s0 := Xor3(Ror(a, 2), Ror(a, 13), Ror(a, 22));
      var maj := Maj(a, b, c);
      var temp2 := Plus(s0, maj);
      BigSigmas(a);
      BigSigmas(e);
      a, b, c, d, e, f, g, hh := Plus(temp1, temp2), a, b, c, Plus(d, temp1), e, f, g;
    }
    PlusCommutes(a, h[0]);
    PlusCommutes(b, h[1]);
    PlusCommutes(c, h[2]);
    PlusCommutes(d, h[3]);
    PlusCommutes(e, h[4]);
    PlusCommutes(f, h[5]);
    PlusCommutes(g, h[6]);
    PlusCommutes(hh, h[7]);
    h' := [Plus(h[0], a), Plus(h[1], b), Plus(h[2], c), Plus(h[3], d), Plus(h[4], e), Plus(h[5], f), Plus(h[6], g), Plus(h[7], hh)];
  }

  // ---- padding, as the program does it

  /** The eight bytes the program appends for the length. `>>` binds tighter than `*` in Swift,
      so MD5's upper half is made from `(length >> 29) * 8`. */
  function ProgramLengthBytes(alg: Algorithm, length: nat): (bytes: seq<Byte>)
    ensures |bytes| == 8
  {
    if alg == Md5 then
      seq(4, k requires k >= 0 => ByteAt(length * 8, k)) + seq(4, k requires k >= 0 => ByteAt(length / 0x2000_0000 * 8, k))
    else
      LengthBytes(alg, length)
  }

  function Padded(alg: Algorithm, message: seq<Byte>): (bytes: seq<Byte>)
    ensures |bytes| % 64 == 0
  {
    message + [0x80] + seq(ZeroCount(|message|), _ => 0) + ProgramLengthBytes(alg, |message|)
  }

  lemma Powers()
    ensures Pow256(0) == 1 && Pow256(1) == 0x100 && Pow256(2) == 0x1_0000 && Pow256(3) == 0x100_0000
    ensures Pow256(4) == 0x1_0000_0000 && Pow256(5) == 0x100_0000_0000
    ensures Pow256(6) == 0x1_0000_0000_0000 && Pow256(7) == 0x100_0000_0000_0000
  {
    assert Pow256(2) == 256 * Pow256(1);
    assert Pow256(4) == 256 * Pow256(3);
    assert Pow256(6) == 256 * Pow256(5);
  }

  lemma ByteBack(v: nat)
    requires v < 256
    ensures (v as Byte) as int == v
  {
    if v > 0 {
      ByteBack(v - 1);
      var p := (v - 1) as Byte;
      NextByte(p);
      ByteOfInt(p + 1);
    }
  }

  lemma NextByte(p: Byte)
    requires p < 255
    ensures (p + 1) as int == p as int + 1
  {
  }

  lemma ByteOfInt(b: Byte)
    ensures (b as int) as Byte == b
  {
  }

  lemma ByteInjective(x: nat, y: nat)
    requires x < 256 && y < 256 && ToByte(x) == ToByte(y)
    ensures x == y
  {
    ByteBack(x);
    ByteBack(y);
  }

  /** The upper four bytes of `8 * length` are the bytes of `length >> 29`. */
  lemma UpperBytes(length: nat)
    ensures forall k :: 0 <= k < 4 ==> ByteAt(8 * length, 4 + k) == ByteAt(length / 0x2000_0000, k)
  {
    hide ToByte;
    Powers();
    assert 8 * length / 0x100_0000_0000 == length / 0x2000_0000 / 0x100;
    assert 8 * length / 0x1_0000_0000_0000 == length / 0x2000_0000 / 0x1_0000;
    assert 8 * length / 0x100_0000_0000_0000 == length / 0x2000_0000 / 0x100_0000;
  }

  /** Four bytes determine a number below 2^32. */
  lemma FourBytesAgree(x: nat, y: nat)
    requires forall k :: 0 <= k < 4 ==> ByteAt(x, k) == ByteAt(y, k)
    ensures x % 0x1_0000_0000 == y % 0x1_0000_0000
  {
    hide ToByte;
    Powers();
    forall k | 0 <= k < 4
      ensures x / Pow256(k) % 256 == y / Pow256(k) % 256
    {
      assert ByteAt(x, k) == ByteAt(y, k);
      ByteInjective(x / Pow256(k) % 256, y / Pow256(k) % 256);
    }
    assert x / Pow256(0) % 256 == y / Pow256(0) % 256;
    assert x / Pow256(1) % 256 == y / Pow256(1) % 256;
    assert x / Pow256(2) % 256 == y / Pow256(2) % 256;
    assert x / Pow256(3) % 256 == y / Pow256(3) % 256;
    FourDigits(x);
    FourDigits(y);
  }

  lemma FourDigits(x: nat)
    ensures x % 0x1_0000_0000 == x % 0x100 + 0x100 * (x / 0x100 % 0x100) + 0x1_0000 * (x / 0x1_0000 % 0x100)
                                 + 0x100_0000 * (x / 0x100_0000 % 0x100)
  {
    var a := x / 0x100;
    var b := a / 0x100;
    var c := b / 0x100;
    var d := c / 0x100;
    assert b == x / 0x1_0000 && c == x / 0x100_0000 && d == x / 0x1_0000_0000;
  }

  /** The program pads as the standards say, for the messages whose bit length it can compute, if and
      only if MD5's are shorter than 2^29 bytes. */
  lemma PaddingIsStandard(alg: Algorithm, message: seq<Byte>)
    requires |message| < 0x1000_0000_0000_0000
    ensures Padded(alg, message) == StandardPadded(alg, message) <==> alg != Md5 || |message| < 0x2000_0000
  {
    hide ByteAt, ZeroCount;
    var n := |message|;
    var prefix := message + [0x80] + seq(ZeroCount(n), _ => 0);
    var p, q := ProgramLengthBytes(alg, n), LengthBytes(alg, n);
    assert Padded(alg, message)[|prefix|..] == p && StandardPadded(alg, message)[|prefix|..] == q;
    if alg == Md5 {
      Md5LengthIsStandard(n);
    }
  }

  /** The shortest messages that MD5 pads otherwise than the standard. */
  lemma Md5PaddingDiffers()
    ensures Padded(Md5, seq(0x2000_0000, _ => 0)) != StandardPadded(Md5, seq(0x2000_0000, _ => 0))
  {
    PaddingIsStandard(Md5, seq(0x2000_0000, _ => 0));
  }

  lemma EightTimesAgrees(u: nat)
    requires u < 0x8000_0000 && u * 8 % 0x1_0000_0000 == u % 0x1_0000_0000
    ensures u == 0
  {
    var j := u * 8 / 0x1_0000_0000;
    assert 7 * u == j * 0x1_0000_0000;
  }

  lemma Md5LengthIsStandard(n: nat)
    requires n < 0x1000_0000_0000_0000
    ensures ProgramLengthBytes(Md5, n) == LengthBytes(Md5, n) <==> n < 0x2000_0000
  {
    hide ByteAt;
    var p, q := ProgramLengthBytes(Md5, n), LengthBytes(Md5, n);
    var u := n / 0x2000_0000;
    UpperBytes(n);
    LengthBytesAt(n);
    hide ProgramLengthBytes, LengthBytes;
    if p == q {
      forall k | 0 <= k < 4
        ensures ByteAt(u * 8, k) == ByteAt(u, k)
      {
        assert p[4 + k] == q[4 + k];
      }
      FourBytesAgree(u * 8, u);
      EightTimesAgrees(u);
    } else {
      var k :| 0 <= k < 8 && p[k] != q[k];
      assert ByteAt(u * 8, k - 4) != ByteAt(u, k - 4);
    }
  }

  /** MD5's length bytes, the program's and the standard's. */
  lemma LengthBytesAt(n: nat)
    ensures var p, q := ProgramLengthBytes(Md5, n), LengthBytes(Md5, n);
            && (forall k :: 0 <= k < 4 ==> p[k] == q[k])
            && forall k :: 0 <= k < 4 ==> p[4 + k] == ByteAt(n / 0x2000_0000 * 8, k) && q[4 + k] == ByteAt(8 * n, 4 + k)
  {
    hide ByteAt;
  }

  // ---- the digest as text

  /** `In` after `i` rounds of `In = In >> 4`. */
  function ShiftedOut(x: Word, i: nat): Word {
    if i == 0 then x else DropNibble(ShiftedOut(x, i - 1))
  }

  function Nibble(x: Word): (v: Word)
    ensures v < 16
  {
    x & 0xF
  }

  function DropNibble(x: Word): Word {
    x >> 4
  }

  /** The digits of the last `n` nibbles. */
  function Digits(x: Word, n: nat): string {
    if n == 0 then "" else [HexDigit(Nibble(ShiftedOut(x, n - 1)))] + Digits(x, n - 1)
  }

  method ToHex(x: Word) returns (res: string)
    ensures res == WordText(Sha1, x)
  {
    hide HexDigit, Nibble, DropNibble, WordText;
    res := "";
    var rest := x;
    for i := 0 to 8
      invariant rest == ShiftedOut(x, i) && res == Digits(x, i)
    {
      res := [HexDigit(Nibble(rest))] + res;
      rest := DropNibble(rest);
    }
    EightDigits(x);
  }

  lemma EightDigits(x: Word)
    ensures Digits(x, 8) == WordText(Sha1, x)
  {
    hide HexDigit, Nibble, WordByte, ByteHex, ShiftedOut;
    TwoDigits(x, 3);
    TwoDigits(x, 2);
    TwoDigits(x, 1);
    TwoDigits(x, 0);
    assert Digits(x, 0) == "";
    assert WordText(Sha1, x) == ByteHex(WordByte(x, 3)) + ByteHex(WordByte(x, 2)) + ByteHex(WordByte(x, 1)) + ByteHex(WordByte(x, 0));
  }

  lemma TwoDigits(x: Word, k: nat)
    requires k < 4
    ensures Digits(x, 2 * k + 2) == ByteHex(WordByte(x, k)) + Digits(x, 2 * k)
  {
    hide HexDigit, Nibble, DropNibble, WordByte, ByteHex, ShiftedOut, HighNibble, LowNibble;
    NibblesOfByte(x, k);
    TextOfByte(WordByte(x, k));
    assert Digits(x, 2 * k + 2) == [HexDigit(Nibble(ShiftedOut(x, 2 * k + 1)))] + Digits(x, 2 * k + 1);
  }

  lemma TextOfByte(b: Byte)
    ensures HighNibble(b) < 16 && LowNibble(b) < 16
    ensures ByteHex(b) == [HexDigit(HighNibble(b)), HexDigit(LowNibble(b))]
  {
    hide HexDigit;
  }

  lemma NibblesOfByte(x: Word, k: nat)
    requires k < 4
    ensures Nibble(ShiftedOut(x, 2 * k + 1)) == HighNibble(WordByte(x, k))
    ensures Nibble(ShiftedOut(x, 2 * k)) == LowNibble(WordByte(x, k))
  {
    hide Nibble, HighNibble, LowNibble, DropNibble, WordByte;
    var s1 := DropNibble(x);
    var s2 := DropNibble(s1);
    var s3 := DropNibble(s2);
    var s4 := DropNibble(s3);
    var s5 := DropNibble(s4);
    var s6 := DropNibble(s5);
    assert ShiftedOut(x, 1) == s1;
    assert ShiftedOut(x, 2) == s2;
    assert ShiftedOut(x, 3) == s3;
    assert ShiftedOut(x, 4) == s4;
    assert ShiftedOut(x, 5) == s5;
    assert ShiftedOut(x, 6) == s6;
    LowByteNibbles(x);
    LowByteNibbles(s2);
    LowByteNibbles(s4);
    LowByteNibbles(s6);
    BytesMove(x);
    BytesMove(s2);
    BytesMove(s4);
  }

  function HighNibble(b: Byte): Word {
    (b >> 4) as Word
  }

  function LowNibble(b: Byte): Word {
    (b & 0xF) as Word
  }

  lemma LowByteNibbles(x: Word)
    ensures Nibble(x) == LowNibble(WordByte(x, 0)) && Nibble(DropNibble(x)) == HighNibble(WordByte(x, 0))
  {
  }

  /** Dropping two nibbles moves every byte of a word one place down. */
  lemma BytesMove(x: Word)
    ensures forall k :: 0 <= k < 3 ==> WordByte(DropNibble(DropNibble(x)), k) == WordByte(x, k + 1)
  {
  }

  function ReverseBytes(x: Word): Word {
    (((x >> 0) & 0xFF) << 24) | (((x >> 8) & 0xFF) << 16) | (((x >> 16) & 0xFF) << 8) | ((x >> 24) & 0xFF)
  }

  lemma ReversedBytes(x: Word, k: nat)
    requires k < 4
    ensures WordByte(ReverseBytes(x), k) == WordByte(x, 3 - k)
  {
  }

  lemma ReversedText(x: Word)
    ensures WordText(Sha1, ReverseBytes(x)) == WordText(Md5, x)
  {
    hide ReverseBytes, WordByte, ByteHex;
    ReversedBytes(x, 0);
    ReversedBytes(x, 1);
    ReversedBytes(x, 2);
    ReversedBytes(x, 3);
  }

  /** The virtual `hashState`. */
  method HashState(alg: Algorithm, h: seq<Word>) returns (text: string)
    ensures text == DigestText(alg, h)
  {
    hide WordText, ReverseBytes;
    text := "";
    assert h[..0] == [];
    for i := 0 to |h|
      invariant text == DigestText(alg, h[..i])
    {
      var word: string;
      if alg == Md5 {
        word := ToHex(ReverseBytes(h[i]));
        ReversedText(h[i]);
      } else {
        word := ToHex(h[i]);
        ShaText(alg, h[i]);
      }
      text := text + word;
      assert h[..i + 1][..i] == h[..i];
    }
    assert h[..|h|] == h;
  }

  lemma ShaText(alg: Algorithm, x: Word)
    requires alg != Md5
    ensures WordText(alg, x) == WordText(Sha1, x)
  {
  }

  // ---- streaming

  /** The virtual `hash`, on a block and a state. */
  method CompressBlock(alg: Algorithm, h: seq<Word>, block: seq<Byte>) returns (h': seq<Word>)
    requires |h| == StateSize(alg) && |block| == 64
    ensures h' == Compress(alg, h, block)
  {
    hide Md5Compress, Sha1Compress, Sha256Compress;
    match alg
    case Md5 => h' := Md5Block(h, block);
    case Sha1 => h' := Sha1Block(h, block);
    case Sha256 => h' := Sha256Block(h, block);
  }

  lemma FoldStep(alg: Algorithm, bytes: seq<Byte>)
    requires |bytes| % 64 == 0 && bytes != []
    ensures Fold(alg, bytes) == Compress(alg, Fold(alg, bytes[..|bytes| - 64]), bytes[|bytes| - 64..])
  {
    hide Compress;
  }

  /** The base class `Hash` and its subclasses. A subclass is a value of `alg`, and the methods that
      subclasses override go by it. */
  class Hash {
    const alg: Algorithm
    var messageLength: nat
    var dataLength: nat
    const data: array<Byte>
    var h: seq<Word>
    /** All bytes taken in since the last reset: the message, then the padding. */
    ghost var stream: seq<Byte>

    /** `h` accounts for all whole blocks of the stream but perhaps the last, and `data` holds the rest. */
    ghost predicate Valid()
      reads this, data
    {
      && data.Length == 64 && dataLength <= 64 && dataLength <= |stream|
      && (|stream| - dataLength) % 64 == 0
      && h == Fold(alg, stream[..|stream| - dataLength])
      && data[..dataLength] == stream[|stream| - dataLength..]
    }

    /** Ready for `update` and `digest`. */
    ghost predicate Ready()
      reads this, data
    {
      Valid() && dataLength < 64 && messageLength == |stream|
    }

    constructor (alg: Algorithm)
      ensures Ready() && this.alg == alg && stream == [] && fresh(data)
    {
      this.alg := alg;
      data := new Byte[64](_ => 0);
      h := InitialState(alg);
      messageLength, dataLength, stream := 0, 0, [];
    }

    method Reset()
      requires data.Length == 64
      modifies this
      ensures Ready() && stream == []
    {
      h := InitialState(alg);
      messageLength, dataLength, stream := 0, 0, [];
    }

    /** Takes the full buffer into the state. */
    method HashBlock()
      requires Valid() && dataLength == 64
      modifies this`h, this`dataLength
      ensures Valid() && dataLength == 0
    {
      hide Fold, Compress;
      dataLength := 0;
      assert stream[..|stream|] == stream;
      assert data[..] == data[..64] == stream[|stream| - 64..];
      FoldStep(alg, stream);
      h := CompressBlock(alg, h, data[..]);
    }

    /** `data[dataLength] = b; dataLength += 1`. */
    method Append(b: Byte)
      requires Valid() && dataLength < 64
      modifies this`dataLength, this`stream, data
      ensures Valid() && dataLength == old(dataLength) + 1 && stream == old(stream) + [b]
    {
      hide Fold;
      ghost var cut := |stream| - dataLength;
      data[dataLength] := b;
      dataLength := dataLength + 1;
      stream := stream + [b];
      assert stream[..cut] == old(stream)[..cut];
      assert data[..dataLength] == old(data[..dataLength]) + [b];
    }

    method Update(msg: seq<Byte>)
      requires Ready()
      modifies this, data
      ensures Ready() && stream == old(stream) + msg
    {
      hide Fold;
      for i := 0 to |msg|
        invariant Ready() && stream == old(stream) + msg[..i]
      {
        Append(msg[i]);
        messageLength := messageLength + 1;
        if dataLength == 64 {
          HashBlock();
        }
      }
    }

    /** The virtual `fillBlock`: pads the stream up to the end of a block. */
    method FillBlock()
      requires Ready()
      modifies this, data
      ensures Valid() && dataLength == 64
      ensures stream == Padded(alg, old(stream))
    {
      hide Fold, ZeroCount, ProgramLengthBytes;
      ghost var message := stream;
      var newLen := PaddedLength();
      Append(0x80);
      for i := 0 to newLen - (messageLength + 1)
        invariant Valid() && messageLength == |message| && dataLength > 0
        invariant stream == message + [0x80] + seq(i, _ => 0)
      {
        if dataLength == 64 {
          HashBlock();
        }
        Append(0);
        assert seq(i + 1, _ => 0 as Byte) == seq(i, _ => 0) + [0];
      }
      AppendLength();
    }

    /** The loop of `fillBlock` that looks for a length of 56 modulo 64. */
    method PaddedLength() returns (newLen: nat)
      ensures newLen == messageLength + 1 + ZeroCount(messageLength)
    {
      newLen := messageLength + 1;
      while newLen % 64 != 56
        invariant messageLength + 1 <= newLen <= messageLength + 1 + ZeroCount(messageLength)
        decreases messageLength + 65 - newLen
      {
        newLen := newLen + 1;
      }
    }

    /** The last part of `fillBlock`. */
    method AppendLength()
      requires Valid() && 0 < dataLength && |stream| % 64 == 56
      modifies this`dataLength, this`stream, data
      ensures Valid() && dataLength == 64
      ensures stream == old(stream) + ProgramLengthBytes(alg, messageLength)
    {
      hide Fold, ByteAt;
      ghost var padded := stream;
      if alg == Md5 {
        AppendBytes(messageLength * 8);
        AppendBytes(messageLength / 0x2000_0000 * 8);
      } else {
        ghost var bytes := LengthBytes(alg, messageLength);
        for i := 0 to 8
          invariant Valid() && dataLength == 56 + i && stream == padded + bytes[..i]
        {
          Append(ByteAt(8 * messageLength, 7 - i));
        }
        assert bytes[..8] == bytes;
      }
    }

    /** MD5's `appendBytes`: four bytes, least significant first. */
    method AppendBytes(val: nat)
      requires Valid() && dataLength <= 60
      modifies this`dataLength, this`stream, data
      ensures Valid() && dataLength == old(dataLength) + 4
      ensures stream == old(stream) + seq(4, k requires k >= 0 => ByteAt(val, k))
    {
      hide Fold, ByteAt;
      Append(ByteAt(val, 0));
      Append(ByteAt(val, 1));
      Append(ByteAt(val, 2));
      Append(ByteAt(val, 3));
    }

    /** Pads and hashes what is left: the text is that of the hash of the whole stream, and for all
        messages whose padding is standard that is the hash the standard defines. */
    method Digest() returns (text: string)
      requires Ready()
      modifies this, data
      ensures h == Fold(alg, Padded(alg, old(stream))) && text == DigestText(alg, h)
      ensures old(|stream|) < (if alg == Md5 then 0x2000_0000 else 0x1000_0000_0000_0000) ==>
                text == DigestText(alg, Fold(alg, StandardPadded(alg, old(stream))))
    {
      hide Fold, DigestText, Padded, StandardPadded;
      FillBlock();
      HashBlock();
      assert stream[..|stream|] == stream;
      text := HashState(alg, h);
      if old(|stream|) < 0x1000_0000_0000_0000 {
        PaddingIsStandard(alg, old(stream));
      }
    }
  }
}
