/** The MD5 digest of RFC 1321, sections 3.1 to 3.5: padding, length, and four rounds of sixteen operations. */
module Md5Spec {
  type byte = bv8
  type word = bv32

  // ---------------------------------------------------------------- one block (section 3.4)

  datatype Registers = Registers(a: word, b: word, c: word, d: word)

  const INITIAL := Registers(0x67452301, 0xefcdab89, 0x98badcfe, 0x10325476)

  function F(x: word, y: word, z: word): word { (x & y) | (!x & z) }

  function G(x: word, y: word, z: word): word { (x & z) | (y & !z) }

  function H(x: word, y: word, z: word): word { x ^ y ^ z }

  function I(x: word, y: word, z: word): word { y ^ (x | !z) }

  /** Addition modulo 2^32. */
  function Add(x: word, y: word): word { x + y }

  function RotateLeft(x: word, n: nat): word
    requires n <= 32
  {
    (x << n) | (x >> (32 - n))
  }

  /** The sine table, T[i + 1] in the standard's numbering, by rounds. */
  function T(i: nat): word
    requires i < 64
  {
    match i / 16
    case 0 => T1(i)
    case 1 => T2(i - 16)
    case 2 => T3(i - 32)
    case _ => T4(i - 48)
  }

  function T1(i: nat): word {
    match i
    case 0 => 0xd76aa478
    case 1 => 0xe8c7b756
    case 2 => 0x242070db
    case 3 => 0xc1bdceee
    case 4 => 0xf57c0faf
    case 5 => 0x4787c62a
    case 6 => 0xa8304613
    case 7 => 0xfd469501
    case 8 => 0x698098d8
    case 9 => 0x8b44f7af
    case 10 => 0xffff5bb1
    case 11 => 0x895cd7be
    case 12 => 0x6b901122
    case 13 => 0xfd987193
    case 14 => 0xa679438e
    case _ => 0x49b40821
  }

  function T2(i: nat): word {
    match i
    case 0 => 0xf61e2562
    case 1 => 0xc040b340
    case 2 => 0x265e5a51
    case 3 => 0xe9b6c7aa
    case 4 => 0xd62f105d
    case 5 => 0x02441453
    case 6 => 0xd8a1e681
    case 7 => 0xe7d3fbc8
    case 8 => 0x21e1cde6
    case 9 => 0xc33707d6
    case 10 => 0xf4d50d87
    case 11 => 0x455a14ed
    case 12 => 0xa9e3e905
    case 13 => 0xfcefa3f8
    case 14 => 0x676f02d9
    case _ => 0x8d2a4c8a
  }

  function T3(i: nat): word {
    match i
    case 0 => 0xfffa3942
    case 1 => 0x8771f681
    case 2 => 0x6d9d6122
    case 3 => 0xfde5380c
    case 4 => 0xa4beea44
    case 5 => 0x4bdecfa9
    case 6 => 0xf6bb4b60
    case 7 => 0xbebfbc70
    case 8 => 0x289b7ec6
    case 9 => 0xeaa127fa
    case 10 => 0xd4ef3085
    case 11 => 0x04881d05
    case 12 => 0xd9d4d039
    case 13 => 0xe6db99e5
    case 14 => 0x1fa27cf8
    case _ => 0xc4ac5665
  }

  function T4(i: nat): word {
    match i
    case 0 => 0xf4292244
    case 1 => 0x432aff97
    case 2 => 0xab9423a7
    case 3 => 0xfc93a039
    case 4 => 0x655b59c3
    case 5 => 0x8f0ccc92
    case 6 => 0xffeff47d
    case 7 => 0x85845dd1
    case 8 => 0x6fa87e4f
    case 9 => 0xfe2ce6e0
    case 10 => 0xa3014314
    case 11 => 0x4e0811a1
    case 12 => 0xf7537e82
    case 13 => 0xbd3af235
    case 14 => 0x2ad7d2bb
    case _ => 0xeb86d391
  }

  /** Which word of the block operation `i` adds. */
  function Index(i: nat): (k: nat)
    ensures k < 16
  {
    match i / 16
    case 0 => i % 16
    case 1 => (5 * i + 1) % 16
    case 2 => (3 * i + 5) % 16
    case _ => 7 * i % 16
  }

  /** How far operation `i` rotates. */
  function Shift(i: nat): (s: nat)
    ensures s <= 32
  {
    match i / 16
    case 0 => [7, 12, 17, 22][i % 4]
    case 1 => [5, 9, 14, 20][i % 4]
    case 2 => [4, 11, 16, 23][i % 4]
    case _ => [6, 10, 15, 21][i % 4]
  }

  function Mixer(i: nat, x: word, y: word, z: word): word {
    match i / 16
    case 0 => F(x, y, z)
    case 1 => G(x, y, z)
    case 2 => H(x, y, z)
    case _ => I(x, y, z)
  }

  /** The operation [abcd k s i]: a = b + ((a + f(b,c,d) + X[k] + T[i]) <<< s). */
  function Operation(i: nat, a: word, b: word, c: word, d: word, x: seq<word>): word
    requires i < 64 && |x| == 16
  {
    Add(b, RotateLeft(Add(Add(Add(a, Mixer(i, b, c, d)), x[Index(i)]), T(i)), Shift(i)))
  }

  /** The operations go round the registers in the order a, d, c, b. */
  function Step(i: nat, r: Registers, x: seq<word>): Registers
    requires i < 64 && |x| == 16
  {
    match i % 4
    case 0 => r.(a := Operation(i, r.a, r.b, r.c, r.d, x))
    case 1 => r.(d := Operation(i, r.d, r.a, r.b, r.c, x))
    case 2 => r.(c := Operation(i, r.c, r.d, r.a, r.b, x))
    case _ => r.(b := Operation(i, r.b, r.c, r.d, r.a, x))
  }

  /** The registers after the first `n` operations. */
  function Steps(n: nat, r: Registers, x: seq<word>): Registers
    requires n <= 64 && |x| == 16
  {
    if n == 0 then r else Step(n - 1, Steps(n - 1, r, x), x)
  }

  /** The word made of 4 bytes, low-order byte first. */
  function WordAt(b: seq<byte>, k: nat): word
    requires 4 * k + 4 <= |b|
  {
    b[4 * k] as word + (b[4 * k + 1] as word << 8) + (b[4 * k + 2] as word << 16) + (b[4 * k + 3] as word << 24)
  }

  function Words(b: seq<byte>, n: nat): (x: seq<word>)
    requires 4 * n <= |b|
    ensures |x| == n
  {
    if n == 0 then [] else Words(b, n - 1) + [WordAt(b, n - 1)]
  }

  function Compress(r: Registers, block: seq<byte>): Registers
    requires |block| == 64
  {
    var s := Steps(64, r, Words(block, 16));
    Registers(Add(r.a, s.a), Add(r.b, s.b), Add(r.c, s.c), Add(r.d, s.d))
  }

  // ---------------------------------------------------------------- the message (sections 3.1 to 3.3 and 3.5)

  /** All whole blocks, one after the other. */
  function Blocks(r: Registers, m: seq<byte>): Registers
    decreases |m|
  {
    if |m| < 64 then r else Blocks(Compress(r, m[..64]), m[64..])
  }

  /** What is behind the last whole block. */
  function Tail(m: seq<byte>): (t: seq<byte>)
    ensures |t| == |m| % 64
    decreases |m|
  {
    if |m| < 64 then m else Tail(m[64..])
  }

  function ByteOf(n: nat): byte { (n % 256) as byte }

  function LowBytes(n: nat, count: nat): (b: seq<byte>)
    ensures |b| == count
  {
    if count == 0 then [] else [ByteOf(n)] + LowBytes(n / 256, count - 1)
  }

  function Zeros(n: nat): (z: seq<byte>)
    ensures |z| == n && forall i :: 0 <= i < n ==> z[i] == 0
  {
    seq(n, _ => 0)
  }

  /** A single 1 bit, then zeros up to 56 bytes modulo 64. */
  function Padding(length: nat): (p: seq<byte>)
    ensures 0 < |p| <= 64 && (length + |p|) % 64 == 56
  {
    [0x80] + Zeros((55 - length as int) % 64)
  }

  const WORD := 0x1_0000_0000

  const LENGTHS := 0x1_0000_0000_0000_0000

  /** The length in bits modulo 2^64, low-order byte first. */
  function LengthBytes(length: nat): (b: seq<byte>)
    ensures |b| == 8
  {
    LowBytes(8 * length % LENGTHS, 8)
  }

  function WordBytes(w: word): (b: seq<byte>)
    ensures |b| == 4
  {
    [(w & 0xff) as byte, ((w >> 8) & 0xff) as byte, ((w >> 16) & 0xff) as byte, ((w >> 24) & 0xff) as byte]
  }

  /** The digest. */
  function Digest(m: seq<byte>): (b: seq<byte>)
    ensures |b| == 16
  {
    var r := Blocks(INITIAL, m + Padding(|m|) + LengthBytes(|m|));
    WordBytes(r.a) + WordBytes(r.b) + WordBytes(r.c) + WordBytes(r.d)
  }

  // ---------------------------------------------------------------- lemmas

  /** `g` are the registers after `n` operations from `r`. */
  ghost predicate After(n: nat, g: Registers, r: Registers, x: seq<word>) {
    n <= 64 && |x| == 16 && g == Steps(n, r, x)
  }

  lemma Advance(i: nat, g: Registers, r: Registers, x: seq<word>)
    requires i < 64 && After(i, g, r, x)
    ensures After(i + 1, Step(i, g, x), r, x)
  {
    hide Step;
  }

  lemma StepsZero(r: Registers, x: seq<word>)
    requires |x| == 16
    ensures After(0, r, r, x)
  {
  }

  lemma AfterAll(g: Registers, r: Registers, x: seq<word>)
    requires After(64, g, r, x)
    ensures |x| == 16 && g == Steps(64, r, x)
  {
    hide Steps;
  }

  lemma AddCommutes(x: word, y: word)
    ensures Add(x, y) == Add(y, x)
  {
  }

  /** Blocks of a message are taken whatever the message's tail waits for. */
  lemma {:induction false} BlocksSplit(r: Registers, m: seq<byte>, more: seq<byte>)
    ensures Blocks(r, m + more) == Blocks(Blocks(r, m), Tail(m) + more)
    ensures Tail(m + more) == Tail(Tail(m) + more)
    decreases |m|
  {
    hide Compress;
    if |m| >= 64 {
      assert (m + more)[..64] == m[..64] && (m + more)[64..] == m[64..] + more;
      BlocksSplit(Compress(r, m[..64]), m[64..], more);
    }
  }

  lemma BlocksShort(r: Registers, m: seq<byte>)
    requires |m| < 64
    ensures Blocks(r, m) == r && Tail(m) == m
  {
  }

  lemma BlocksOne(r: Registers, m: seq<byte>)
    requires |m| >= 64
    ensures Blocks(r, m) == Blocks(Compress(r, m[..64]), m[64..]) && Tail(m) == Tail(m[64..])
  {
  }

  /** The whole padded message is made of whole blocks. */
  lemma PaddedWhole(m: seq<byte>)
    ensures |m + Padding(|m|) + LengthBytes(|m|)| % 64 == 0
  {
    var n := |m| + |Padding(|m|)|;
    hide Padding, LengthBytes;
    assert n % 64 == 56;
    assert (n + 8) % 64 == 0;
  }

  lemma OffsetIs(count0: nat, count1: nat, length: nat)
    requires count0 < WORD && count1 < WORD && count1 * WORD + count0 == 8 * length % LENGTHS
    ensures count0 / 8 % 64 == length % 64
  {
    var q := 8 * length / LENGTHS;
    assert 8 * length == q * LENGTHS + count1 * WORD + count0;
    assert count0 == 8 * (length - q * 0x2000_0000_0000_0000 - count1 * 0x2000_0000);
    assert length == 64 * (q * 0x80_0000_0000_0000 + count1 * 0x80_0000) + count0 / 8;
    ModMultiple(q * 0x80_0000_0000_0000 + count1 * 0x80_0000, count0 / 8);
  }

  lemma ModMultiple(k: nat, r: nat)
    ensures (64 * k + r) % 64 == r % 64
  {
  }

  lemma SmallPiece(nbytes: nat, count1: nat)
    requires nbytes < 0x1000_0000 && count1 < WORD
    ensures 8 * nbytes % WORD == 8 * nbytes && (count1 + nbytes / 0x2000_0000) % WORD == count1
  {
    assert nbytes / 0x2000_0000 == 0;
  }

  /** Two words with a carry from the one to the other count modulo 2^64. */
  lemma CounterSum(count0: nat, count1: nat, nbits: nat)
    requires count0 < WORD && count1 < WORD && nbits < WORD
    ensures var low := (count0 + nbits) % WORD;
      var high := if low < nbits then (count1 + 1) % WORD else count1;
      high * WORD + low == (count1 * WORD + count0 + nbits) % LENGTHS
  {
    if count0 + nbits < WORD {
      assert (count0 + nbits) % WORD == count0 + nbits;
    } else {
      assert (count0 + nbits) % WORD == count0 + nbits - WORD;
      if count1 + 1 == WORD {
        assert count1 * WORD + count0 + nbits == LENGTHS + (count0 + nbits - WORD);
      }
    }
  }

  lemma CountLength(length: nat, more: nat)
    ensures (8 * length % LENGTHS + 8 * more) % LENGTHS == 8 * (length + more) % LENGTHS
  {
  }

  lemma PaddingIs(length: nat, pad: seq<byte>, n: nat)
    requires pad == [0x80] + Zeros(63) && n == (55 - length % 64) % 64 + 1
    ensures n <= 64 && pad[..n] == Padding(length)
  {
    assert (55 - length as int) % 64 == (55 - length % 64) % 64;
    var p := Padding(length);
    assert |p| == n;
    forall i | 0 <= i < n ensures pad[..n][i] == p[i] {
    }
  }

  /** `n` shifted right by `j` bytes. */
  function ShiftRight(n: nat, j: nat): nat {
    if j == 0 then n else ShiftRight(n / 256, j - 1)
  }

  lemma {:induction false} LowByteAt(n: nat, count: nat, j: nat)
    requires j < count
    ensures LowBytes(n, count)[j] == ByteOf(ShiftRight(n, j))
  {
    hide ByteOf;
    if j > 0 { LowByteAt(n / 256, count - 1, j - 1); }
  }

  lemma Quarter(c: nat, k: nat, r: nat)
    requires k > 0
    ensures (c * (256 * k) + r) / 256 == c * k + r / 256
  {
    assert c * (256 * k) == 256 * (c * k);
  }

  /** The bytes of a counter made of two words are those of the low word, then those of the high word. */
  lemma HalvesAt(low: nat, high: nat, j: nat)
    requires low < WORD && high < WORD && j < 8
    ensures ByteOf(ShiftRight(high * WORD + low, j)) == ByteOf(ShiftRight(if j < 4 then low else high, j % 4))
  {
    hide ByteOf, ShiftRight;
    var n0 := high * WORD + low;
    Quarters(low, high);
    ShiftFour(n0, low, j);
    SameByte(high * 0x100_0000, low);
    SameByte(high * 0x1_0000, low / 256);
    SameByte(high * 0x100, low / 256 / 256);
    SameByte(high, low / 256 / 256 / 256);
  }

  lemma Quarters(low: nat, high: nat)
    requires low < WORD && high < WORD
    ensures var n0 := high * WORD + low;
      && n0 / 256 == high * 0x100_0000 + low / 256
      && n0 / 256 / 256 == high * 0x1_0000 + low / 256 / 256
      && n0 / 256 / 256 / 256 == high * 0x100 + low / 256 / 256 / 256
      && n0 / 256 / 256 / 256 / 256 == high
  {
    Quarter(high, 0x100_0000, low);
    Quarter(high, 0x1_0000, low / 256);
    Quarter(high, 0x100, low / 256 / 256);
    Quarter(high, 1, low / 256 / 256 / 256);
    assert low / 256 / 256 / 256 / 256 == 0;
  }

  lemma SameByte(k: nat, r: nat)
    ensures ByteOf(k * 256 + r) == ByteOf(r)
  {
    assert (k * 256 + r) % 256 == r % 256;
  }

  lemma ShiftThree(n: nat)
    ensures ShiftRight(n, 0) == n && ShiftRight(n, 1) == n / 256
    ensures ShiftRight(n, 2) == n / 256 / 256 && ShiftRight(n, 3) == n / 256 / 256 / 256
  {
    var n1, n2, n3 := n / 256, n / 256 / 256, n / 256 / 256 / 256;
    assert ShiftRight(n3, 0) == n3 && ShiftRight(n2, 1) == ShiftRight(n3, 0);
    assert ShiftRight(n1, 2) == ShiftRight(n2, 1) && ShiftRight(n1, 1) == ShiftRight(n2, 0);
  }

  lemma ShiftFour(n: nat, low: nat, j: nat)
    requires j < 8
    ensures j >= 4 ==> ShiftRight(n, j) == ShiftRight(n / 256 / 256 / 256 / 256, j - 4)
    ensures ShiftRight(n, 0) == n && ShiftRight(n, 1) == n / 256
    ensures ShiftRight(n, 2) == n / 256 / 256 && ShiftRight(n, 3) == n / 256 / 256 / 256
    ensures ShiftRight(low, 0) == low && ShiftRight(low, 1) == low / 256
    ensures ShiftRight(low, 2) == low / 256 / 256 && ShiftRight(low, 3) == low / 256 / 256 / 256
  {
    ShiftThree(n);
    ShiftThree(low);
    if j >= 4 {
      assert ShiftRight(n, j) == ShiftRight(n / 256, j - 1) == ShiftRight(n / 256 / 256, j - 2);
      assert ShiftRight(n / 256 / 256, j - 2) == ShiftRight(n / 256 / 256 / 256, j - 3);
    }
  }
}
