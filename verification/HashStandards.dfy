/** The block functions and the padding of MD5 (RFC 1321) and of SHA-1 and SHA-256 (FIPS 180-4). */
module HashStandards {

  type Byte = bv8
  type Word = bv32
  type Shift = s: Word | 0 < s < 32 witness 1

  datatype Algorithm = Md5 | Sha1 | Sha256

  // ---- operations on words: FIPS 180-4 sections 2.2.2 and 4.1, RFC 1321 section 3.4

  /** Addition modulo 2^32. */
  function Plus(x: Word, y: Word): Word {
    x + y
  }

  function Sum4(x: Word, y: Word, z: Word, u: Word): Word {
    x + y + z + u
  }

  function Sum5(x: Word, y: Word, z: Word, u: Word, v: Word): Word {
    x + y + z + u + v
  }

  function Xor3(x: Word, y: Word, z: Word): Word {
    x ^ y ^ z
  }

  function Xor4(x: Word, y: Word, z: Word, u: Word): Word {
    x ^ y ^ z ^ u
  }

  function Rotl(x: Word, n: Word): Word
    requires n < 32
  {
    (x << n) | (x >> (32 - n))
  }

  function Rotr(x: Word, n: Word): Word
    requires n < 32
  {
    (x >> n) | (x << (32 - n))
  }

  function Ch(x: Word, y: Word, z: Word): Word {
    (x & y) ^ (!x & z)
  }

  function Parity(x: Word, y: Word, z: Word): Word {
    x ^ y ^ z
  }

  function Maj(x: Word, y: Word, z: Word): Word {
    (x & y) ^ (x & z) ^ (y & z)
  }

  // ---- MD5

  const MD5_T: seq<seq<Word>> := [
    [0xd76aa478, 0xe8c7b756, 0x242070db, 0xc1bdceee, 0xf57c0faf, 0x4787c62a, 0xa8304613, 0xfd469501],
    [0x698098d8, 0x8b44f7af, 0xffff5bb1, 0x895cd7be, 0x6b901122, 0xfd987193, 0xa679438e, 0x49b40821],
    [0xf61e2562, 0xc040b340, 0x265e5a51, 0xe9b6c7aa, 0xd62f105d, 0x02441453, 0xd8a1e681, 0xe7d3fbc8],
    [0x21e1cde6, 0xc33707d6, 0xf4d50d87, 0x455a14ed, 0xa9e3e905, 0xfcefa3f8, 0x676f02d9, 0x8d2a4c8a],
    [0xfffa3942, 0x8771f681, 0x6d9d6122, 0xfde5380c, 0xa4beea44, 0x4bdecfa9, 0xf6bb4b60, 0xbebfbc70],
    [0x289b7ec6, 0xeaa127fa, 0xd4ef3085, 0x04881d05, 0xd9d4d039, 0xe6db99e5, 0x1fa27cf8, 0xc4ac5665],
    [0xf4292244, 0x432aff97, 0xab9423a7, 0xfc93a039, 0x655b59c3, 0x8f0ccc92, 0xffeff47d, 0x85845dd1],
    [0x6fa87e4f, 0xfe2ce6e0, 0xa3014314, 0x4e0811a1, 0xf7537e82, 0xbd3af235, 0x2ad7d2bb, 0xeb86d391]
  ]

  /** The amounts of each round, which repeat four by four. */
  const MD5_SHIFTS: seq<seq<Shift>> := [
    [7, 12, 17, 22],
    [5, 9, 14, 20],
    [4, 11, 16, 23],
    [6, 10, 15, 21]
  ]

  datatype Md5Registers = Md5Registers(a: Word, b: Word, c: Word, d: Word)

  function Md5T(i: nat): Word
    requires i < 64
  {
    MD5_T[i / 8][i % 8]
  }

  function Md5Shift(i: nat): Shift
    requires i < 64
  {
    MD5_SHIFTS[i / 16][i % 4]
  }

  /** The auxiliary functions F, G, H and I, one for each round of 16 steps. */
  function Md5F(i: nat, x: Word, y: Word, z: Word): Word {
    if i < 16 then (x & y) | (!x & z)
    else if i < 32 then (x & z) | (y & !z)
    else if i < 48 then x ^ y ^ z
    else y ^ (x | !z)
  }

  /** Which word of the block step `i` takes. */
  function Md5Index(i: nat): (k: nat)
    ensures k < 16
  {
    if i < 16 then i
    else if i < 32 then (5 * i + 1) % 16
    else if i < 48 then (3 * i + 5) % 16
    else (7 * i) % 16
  }

  /** Step `i`: `a = b + ((a + f(b, c, d) + w + t) <<< s)`, and the registers change places. */
  function Md5Operation(i: nat, r: Md5Registers, w: Word, t: Word, s: Shift): Md5Registers {
    Md5Registers(r.d, Plus(r.b, Rotl(Sum4(r.a, Md5F(i, r.b, r.c, r.d), w, t), s)), r.b, r.c)
  }

  function Md5Step(r: Md5Registers, x: seq<Word>, i: nat): Md5Registers
    requires |x| == 16 && i < 64
  {
    Md5Operation(i, r, x[Md5Index(i)], Md5T(i), Md5Shift(i))
  }

  function Md5Steps(r: Md5Registers, x: seq<Word>, n: nat): Md5Registers
    requires |x| == 16 && n <= 64
  {
    if n == 0 then r else Md5Step(Md5Steps(r, x, n - 1), x, n - 1)
  }

  /** Words of an MD5 block: least significant byte first. */
  function LittleEndianWord(b0: Byte, b1: Byte, b2: Byte, b3: Byte): Word {
    (b3 as Word << 24) + (b2 as Word << 16) + (b1 as Word << 8) + b0 as Word
  }

  function LittleEndianWords(block: seq<Byte>): seq<Word>
    requires |block| == 64
  {
    seq(16, i requires 0 <= i < 16 =>
      LittleEndianWord(block[4 * i], block[4 * i + 1], block[4 * i + 2], block[4 * i + 3]))
  }

  function Md5Compress(h: seq<Word>, block: seq<Byte>): seq<Word>
    requires |h| == 4 && |block| == 64
  {
    var r := Md5Steps(Md5Registers(h[0], h[1], h[2], h[3]), LittleEndianWords(block), 64);
    [Plus(h[0], r.a), Plus(h[1], r.b), Plus(h[2], r.c), Plus(h[3], r.d)]
  }

  // ---- SHA-1: FIPS 180-4 section 6.1.2

  /** Words of a SHA block: most significant byte first. */
  function BigEndianWord(b0: Byte, b1: Byte, b2: Byte, b3: Byte): Word {
    (b0 as Word << 24) + (b1 as Word << 16) + (b2 as Word << 8) + b3 as Word
  }

  function BlockWord(block: seq<Byte>, t: nat): Word
    requires |block| == 64 && t < 16
  {
    BigEndianWord(block[4 * t], block[4 * t + 1], block[4 * t + 2], block[4 * t + 3])
  }

  function Sha1Schedule(block: seq<Byte>, t: nat): Word
    requires |block| == 64
  {
    if t < 16 then BlockWord(block, t)
    else Rotl(Xor4(Sha1Schedule(block, t - 3), Sha1Schedule(block, t - 8),
                   Sha1Schedule(block, t - 14), Sha1Schedule(block, t - 16)), 1)
  }

  function Sha1F(t: nat, x: Word, y: Word, z: Word): Word {
    if t < 20 then Ch(x, y, z) else if t < 40 then Parity(x, y, z) else if t < 60 then Maj(x, y, z) else Parity(x, y, z)
  }

  function Sha1K(t: nat): Word {
    if t < 20 then 0x5a827999 else if t < 40 then 0x6ed9eba1 else if t < 60 then 0x8f1bbcdc else 0xca62c1d6
  }

  datatype Sha1Registers = Sha1Registers(a: Word, b: Word, c: Word, d: Word, e: Word)

  function Sha1Step(r: Sha1Registers, t: nat, w: Word): Sha1Registers {
    var temp := Sum5(Rotl(r.a, 5), Sha1F(t, r.b, r.c, r.d), r.e, Sha1K(t), w);
    Sha1Registers(temp, r.a, Rotl(r.b, 30), r.c, r.d)
  }

  function Sha1Steps(r: Sha1Registers, block: seq<Byte>, n: nat): Sha1Registers
    requires |block| == 64
  {
    if n == 0 then r else Sha1Step(Sha1Steps(r, block, n - 1), n - 1, Sha1Schedule(block, n - 1))
  }

  function Sha1Compress(h: seq<Word>, block: seq<Byte>): seq<Word>
    requires |h| == 5 && |block| == 64
  {
    var r := Sha1Steps(Sha1Registers(h[0], h[1], h[2], h[3], h[4]), block, 80);
    [Plus(r.a, h[0]), Plus(r.b, h[1]), Plus(r.c, h[2]), Plus(r.d, h[3]), Plus(r.e, h[4])]
  }

  // ---- SHA-256: FIPS 180-4 section 6.2.2

  const SHA256_K: seq<seq<Word>> := [
    [0x428a2f98, 0x71374491, 0xb5c0fbcf, 0xe9b5dba5, 0x3956c25b, 0x59f111f1, 0x923f82a4, 0xab1c5ed5],
    [0xd807aa98, 0x12835b01, 0x243185be, 0x550c7dc3, 0x72be5d74, 0x80deb1fe, 0x9bdc06a7, 0xc19bf174],
    [0xe49b69c1, 0xefbe4786, 0x0fc19dc6, 0x240ca1cc, 0x2de92c6f, 0x4a7484aa, 0x5cb0a9dc, 0x76f988da],
    [0x983e5152, 0xa831c66d, 0xb00327c8, 0xbf597fc7, 0xc6e00bf3, 0xd5a79147, 0x06ca6351, 0x14292967],
    [0x27b70a85, 0x2e1b2138, 0x4d2c6dfc, 0x53380d13, 0x650a7354, 0x766a0abb, 0x81c2c92e, 0x92722c85],
    [0xa2bfe8a1, 0xa81a664b, 0xc24b8b70, 0xc76c51a3, 0xd192e819, 0xd6990624, 0xf40e3585, 0x106aa070],
    [0x19a4c116, 0x1e376c08, 0x2748774c, 0x34b0bcb5, 0x391c0cb3, 0x4ed8aa4a, 0x5b9cca4f, 0x682e6ff3],
    [0x748f82ee, 0x78a5636f, 0x84c87814, 0x8cc70208, 0x90befffa, 0xa4506ceb, 0xbef9a3f7, 0xc67178f2]
  ]

  function Sha256K(t: nat): Word
    requires t < 64
  {
    SHA256_K[t / 8][t % 8]
  }

  function BigSigma0(x: Word): Word {
    Xor3(Rotr(x, 2), Rotr(x, 13), Rotr(x, 22))
  }

  function BigSigma1(x: Word): Word {
    Xor3(Rotr(x, 6), Rotr(x, 11), Rotr(x, 25))
  }

  function SmallSigma0(x: Word): Word {
    Xor3(Rotr(x, 7), Rotr(x, 18), x >> 3)
  }

  function SmallSigma1(x: Word): Word {
    Xor3(Rotr(x, 17), Rotr(x, 19), x >> 10)
  }

  function Sha256Schedule(block: seq<Byte>, t: nat): Word
    requires |block| == 64
  {
    if t < 16 then BlockWord(block, t)
    else Sum4(SmallSigma1(Sha256Schedule(block, t - 2)), Sha256Schedule(block, t - 7),
              SmallSigma0(Sha256Schedule(block, t - 15)), Sha256Schedule(block, t - 16))
  }

  datatype Sha256Registers = Sha256Registers(a: Word, b: Word, c: Word, d: Word, e: Word, f: Word, g: Word, h: Word)

  function Sha256Step(r: Sha256Registers, k: Word, w: Word): Sha256Registers {
    var t1 := Sum5(r.h, BigSigma1(r.e), Ch(r.e, r.f, r.g), k, w);
    var t2 := Plus(BigSigma0(r.a), Maj(r.a, r.b, r.c));
    Sha256Registers(Plus(t1, t2), r.a, r.b, r.c, Plus(r.d, t1), r.e, r.f, r.g)
  }

  function Sha256Steps(r: Sha256Registers, block: seq<Byte>, n: nat): Sha256Registers
    requires |block| == 64 && n <= 64
  {
    if n == 0 then r else Sha256Step(Sha256Steps(r, block, n - 1), Sha256K(n - 1), Sha256Schedule(block, n - 1))
  }

  function Sha256Compress(h: seq<Word>, block: seq<Byte>): seq<Word>
    requires |h| == 8 && |block| == 64
  {
    var r := Sha256Steps(Sha256Registers(h[0], h[1], h[2], h[3], h[4], h[5], h[6], h[7]), block, 64);
    [Plus(r.a, h[0]), Plus(r.b, h[1]), Plus(r.c, h[2]), Plus(r.d, h[3]), Plus(r.e, h[4]), Plus(r.f, h[5]), Plus(r.g, h[6]), Plus(r.h, h[7])]
  }

  // ---- the hash of a message

  function StateSize(alg: Algorithm): nat {
    match alg case Md5 => 4 case Sha1 => 5 case Sha256 => 8
  }

  function InitialState(alg: Algorithm): (h: seq<Word>)
    ensures |h| == StateSize(alg)
  {
    match alg
    case Md5 => [0x67452301, 0xefcdab89, 0x98badcfe, 0x10325476]
    case Sha1 => [0x67452301, 0xefcdab89, 0x98badcfe, 0x10325476, 0xc3d2e1f0]
    case Sha256 => [0x6a09e667, 0xbb67ae85, 0x3c6ef372, 0xa54ff53a, 0x510e527f, 0x9b05688c, 0x1f83d9ab, 0x5be0cd19]
  }

  function Compress(alg: Algorithm, h: seq<Word>, block: seq<Byte>): (h': seq<Word>)
    requires |h| == StateSize(alg) && |block| == 64
    ensures |h'| == StateSize(alg)
  {
    match alg
    case Md5 => Md5Compress(h, block)
    case Sha1 => Sha1Compress(h, block)
    case Sha256 => Sha256Compress(h, block)
  }

  /** The state after all blocks of `bytes`. */
  function Fold(alg: Algorithm, bytes: seq<Byte>): (h: seq<Word>)
    requires |bytes| % 64 == 0
    ensures |h| == StateSize(alg)
  {
    if bytes == [] then InitialState(alg)
    else Compress(alg, Fold(alg, bytes[..|bytes| - 64]), bytes[|bytes| - 64..])
  }

  function Pow256(k: nat): (p: nat)
    ensures p > 0
  {
    if k == 0 then 1 else 256 * Pow256(k - 1)
  }

  function ToByte(v: nat): Byte
    requires v < 256
  {
    v as Byte
  }

  /** Byte `k` of a number, counting from the least significant. */
  function ByteAt(n: nat, k: nat): Byte {
    ToByte(n / Pow256(k) % 256)
  }

  /** How many zero bytes bring a message and its first padding byte to 56 modulo 64. */
  function ZeroCount(length: nat): (z: nat)
    ensures z < 64 && (length + 1 + z) % 64 == 56
  {
    (119 - length % 64) % 64
  }

  /** The length in bits as 64-bit number: most significant byte first in SHA, last in MD5. */
  function LengthBytes(alg: Algorithm, length: nat): (bytes: seq<Byte>)
    ensures |bytes| == 8
  {
    if alg == Md5 then seq(8, k requires k >= 0 => ByteAt(8 * length, k))
    else seq(8, k requires 0 <= k < 8 => ByteAt(8 * length, 7 - k))
  }

  /** FIPS 180-4 section 5.1.1, RFC 1321 sections 3.1 and 3.2. */
  function StandardPadded(alg: Algorithm, message: seq<Byte>): (bytes: seq<Byte>)
    ensures |bytes| % 64 == 0
  {
    message + [0x80] + seq(ZeroCount(|message|), _ => 0) + LengthBytes(alg, |message|)
  }

  // ---- the digest as text

  const HEX_DIGITS := "0123456789abcdef"

  function HexDigit(v: Word): char
    requires v < 16
  {
    HEX_DIGITS[v as int]
  }

  function ByteHex(b: Byte): string {
    [HexDigit((b >> 4) as Word), HexDigit((b & 0xF) as Word)]
  }

  /** Byte `k` of a word, counting from the least significant. */
  function WordByte(x: Word, k: nat): Byte
    requires k < 4
  {
    if k == 0 then (x & 0xFF) as Byte
    else if k == 1 then ((x >> 8) & 0xFF) as Byte
    else if k == 2 then ((x >> 16) & 0xFF) as Byte
    else ((x >> 24) & 0xFF) as Byte
  }

  /** The bytes of a word of the digest: least significant first in MD5 (RFC 1321 section 3.5), last in SHA. */
  function WordText(alg: Algorithm, x: Word): string {
    if alg == Md5 then ByteHex(WordByte(x, 0)) + ByteHex(WordByte(x, 1)) + ByteHex(WordByte(x, 2)) + ByteHex(WordByte(x, 3))
    else ByteHex(WordByte(x, 3)) + ByteHex(WordByte(x, 2)) + ByteHex(WordByte(x, 1)) + ByteHex(WordByte(x, 0))
  }

  function DigestText(alg: Algorithm, h: seq<Word>): string {
    if h == [] then "" else DigestText(alg, h[..|h| - 1]) + WordText(alg, h[|h| - 1])
  }
}
