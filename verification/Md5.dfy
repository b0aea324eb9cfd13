/** The incremental implementation of MD5: a buffer, counters and registers changed in place (client/md5.c). */
module Md5 {
  import opened Md5Spec

  /** The SET of round 1. */
  method SetF(a: word, b: word, c: word, d: word, x: seq<word>, k: nat, s: nat, ti: word, ghost i: nat) returns (r: word)
    requires |x| == 16 && 0 <= i < 16 && k == Index(i) && s == Shift(i) && ti == T(i)
    ensures r == Operation(i, a, b, c, d, x)
  {
    hide F, RotateLeft, Add, T, T1, T2, T3, T4, Shift, Index;
    var t := Add(Add(Add(a, F(b, c, d)), x[k]), ti);
    AddCommutes(b, RotateLeft(t, s));
    r := Add(RotateLeft(t, s), b);
  }

  /** The SET of round 2. */
  method SetG(a: word, b: word, c: word, d: word, x: seq<word>, k: nat, s: nat, ti: word, ghost i: nat) returns (r: word)
    requires |x| == 16 && 16 <= i < 32 && k == Index(i) && s == Shift(i) && ti == T(i)
    ensures r == Operation(i, a, b, c, d, x)
  {
    hide G, RotateLeft, Add, T, T1, T2, T3, T4, Shift, Index;
    var t := Add(Add(Add(a, G(b, c, d)), x[k]), ti);
    AddCommutes(b, RotateLeft(t, s));
    r := Add(RotateLeft(t, s), b);
  }

  /** The SET of round 3. */
  method SetH(a: word, b: word, c: word, d: word, x: seq<word>, k: nat, s: nat, ti: word, ghost i: nat) returns (r: word)
    requires |x| == 16 && 32 <= i < 48 && k == Index(i) && s == Shift(i) && ti == T(i)
    ensures r == Operation(i, a, b, c, d, x)
  {
    hide H, RotateLeft, Add, T, T1, T2, T3, T4, Shift, Index;
    var t := Add(Add(Add(a, H(b, c, d)), x[k]), ti);
    AddCommutes(b, RotateLeft(t, s));
    r := Add(RotateLeft(t, s), b);
  }

  /** The SET of round 4. */
  method SetI(a: word, b: word, c: word, d: word, x: seq<word>, k: nat, s: nat, ti: word, ghost i: nat) returns (r: word)
    requires |x| == 16 && 48 <= i < 64 && k == Index(i) && s == Shift(i) && ti == T(i)
    ensures r == Operation(i, a, b, c, d, x)
  {
    hide I, RotateLeft, Add, T, T1, T2, T3, T4, Shift, Index;
    var t := Add(Add(Add(a, I(b, c, d)), x[k]), ti);
    AddCommutes(b, RotateLeft(t, s));
    r := Add(RotateLeft(t, s), b);
  }

  method Round1Part1(a0: word, b0: word, c0: word, d0: word, x: seq<word>, ghost r: Registers)
    returns (a: word, b: word, c: word, d: word)
    requires |x| == 16 && After(0, Registers(a0, b0, c0, d0), r, x)
    ensures After(4, Registers(a, b, c, d), r, x)
  {
    hide Operation, After;
    a, b, c, d := a0, b0, c0, d0;
    Advance(0, Registers(a, b, c, d), r, x);
    a := SetF(a, b, c, d, x, 0, 7, 0xd76aa478, 0);
    Advance(1, Registers(a, b, c, d), r, x);
    d := SetF(d, a, b, c, x, 1, 12, 0xe8c7b756, 1);
    Advance(2, Registers(a, b, c, d), r, x);
    c := SetF(c, d, a, b, x, 2, 17, 0x242070db, 2);
    Advance(3, Registers(a, b, c, d), r, x);
    b := SetF(b, c, d, a, x, 3, 22, 0xc1bdceee, 3);
  }

  method Round1Part2(a0: word, b0: word, c0: word, d0: word, x: seq<word>, ghost r: Registers)
    returns (a: word, b: word, c: word, d: word)
    requires |x| == 16 && After(4, Registers(a0, b0, c0, d0), r, x)
    ensures After(8, Registers(a, b, c, d), r, x)
  {
    hide Operation, After;
    a, b, c, d := a0, b0, c0, d0;
    Advance(4, Registers(a, b, c, d), r, x);
    a := SetF(a, b, c, d, x, 4, 7, 0xf57c0faf, 4);
    Advance(5, Registers(a, b, c, d), r, x);
    d := SetF(d, a, b, c, x, 5, 12, 0x4787c62a, 5);
    Advance(6, Registers(a, b, c, d), r, x);
    c := SetF(c, d, a, b, x, 6, 17, 0xa8304613, 6);
    Advance(7, Registers(a, b, c, d), r, x);
    b := SetF(b, c, d, a, x, 7, 22, 0xfd469501, 7);
  }

  method Round1Part3(a0: word, b0: word, c0: word, d0: word, x: seq<word>, ghost r: Registers)
    returns (a: word, b: word, c: word, d: word)
    requires |x| == 16 && After(8, Registers(a0, b0, c0, d0), r, x)
    ensures After(12, Registers(a, b, c, d), r, x)
  {
    hide Operation, After;
    a, b, c, d := a0, b0, c0, d0;
    Advance(8, Registers(a, b, c, d), r, x);
    a := SetF(a, b, c, d, x, 8, 7, 0x698098d8, 8);
    Advance(9, Registers(a, b, c, d), r, x);
    d := SetF(d, a, b, c, x, 9, 12, 0x8b44f7af, 9);
    Advance(10, Registers(a, b, c, d), r, x);
    c := SetF(c, d, a, b, x, 10, 17, 0xffff5bb1, 10);
    Advance(11, Registers(a, b, c, d), r, x);
    b := SetF(b, c, d, a, x, 11, 22, 0x895cd7be, 11);
  }

  method Round1Part4(a0: word, b0: word, c0: word, d0: word, x: seq<word>, ghost r: Registers)
    returns (a: word, b: word, c: word, d: word)
    requires |x| == 16 && After(12, Registers(a0, b0, c0, d0), r, x)
    ensures After(16, Registers(a, b, c, d), r, x)
  {
    hide Operation, After;
    a, b, c, d := a0, b0, c0, d0;
    Advance(12, Registers(a, b, c, d), r, x);
    a := SetF(a, b, c, d, x, 12, 7, 0x6b901122, 12);
    Advance(13, Registers(a, b, c, d), r, x);
    d := SetF(d, a, b, c, x, 13, 12, 0xfd987193, 13);
    Advance(14, Registers(a, b, c, d), r, x);
    c := SetF(c, d, a, b, x, 14, 17, 0xa679438e, 14);
    Advance(15, Registers(a, b, c, d), r, x);
    b := SetF(b, c, d, a, x, 15, 22, 0x49b40821, 15);
  }

  method Round2Part1(a0: word, b0: word, c0: word, d0: word, x: seq<word>, ghost r: Registers)
    returns (a: word, b: word, c: word, d: word)
    requires |x| == 16 && After(16, Registers(a0, b0, c0, d0), r, x)
    ensures After(20, Registers(a, b, c, d), r, x)
  {
    hide Operation, After;
    a, b, c, d := a0, b0, c0, d0;
    Advance(16, Registers(a, b, c, d), r, x);
    a := SetG(a, b, c, d, x, 1, 5, 0xf61e2562, 16);
    Advance(17, Registers(a, b, c, d), r, x);
    d := SetG(d, a, b, c, x, 6, 9, 0xc040b340, 17);
    Advance(18, Registers(a, b, c, d), r, x);
    c := SetG(c, d, a, b, x, 11, 14, 0x265e5a51, 18);
    Advance(19, Registers(a, b, c, d), r, x);
    b := SetG(b, c, d, a, x, 0, 20, 0xe9b6c7aa, 19);
  }

  method Round2Part2(a0: word, b0: word, c0: word, d0: word, x: seq<word>, ghost r: Registers)
    returns (a: word, b: word, c: word, d: word)
    requires |x| == 16 && After(20, Registers(a0, b0, c0, d0), r, x)
    ensures After(24, Registers(a, b, c, d), r, x)
  {
    hide Operation, After;
    a, b, c, d := a0, b0, c0, d0;
    Advance(20, Registers(a, b, c, d), r, x);
    a := SetG(a, b, c, d, x, 5, 5, 0xd62f105d, 20);
    Advance(21, Registers(a, b, c, d), r, x);
    d := SetG(d, a, b, c, x, 10, 9, 0x02441453, 21);
    Advance(22, Registers(a, b, c, d), r, x);
    c := SetG(c, d, a, b, x, 15, 14, 0xd8a1e681, 22);
    Advance(23, Registers(a, b, c, d), r, x);
    b := SetG(b, c, d, a, x, 4, 20, 0xe7d3fbc8, 23);
  }

  method Round2Part3(a0: word, b0: word, c0: word, d0: word, x: seq<word>, ghost r: Registers)
    returns (a: word, b: word, c: word, d: word)
    requires |x| == 16 && After(24, Registers(a0, b0, c0, d0), r, x)
    ensures After(28, Registers(a, b, c, d), r, x)
  {
    hide Operation, After;
    a, b, c, d := a0, b0, c0, d0;
    Advance(24, Registers(a, b, c, d), r, x);
    a := SetG(a, b, c, d, x, 9, 5, 0x21e1cde6, 24);
    Advance(25, Registers(a, b, c, d), r, x);
    d := SetG(d, a, b, c, x, 14, 9, 0xc33707d6, 25);
    Advance(26, Registers(a, b, c, d), r, x);
    c := SetG(c, d, a, b, x, 3, 14, 0xf4d50d87, 26);
    Advance(27, Registers(a, b, c, d), r, x);
    b := SetG(b, c, d, a, x, 8, 20, 0x455a14ed, 27);
  }

  method Round2Part4(a0: word, b0: word, c0: word, d0: word, x: seq<word>, ghost r: Registers)
    returns (a: word, b: word, c: word, d: word)
    requires |x| == 16 && After(28, Registers(a0, b0, c0, d0), r, x)
    ensures After(32, Registers(a, b, c, d), r, x)
  {
    hide Operation, After;
    a, b, c, d := a0, b0, c0, d0;
    Advance(28, Registers(a, b, c, d), r, x);
    a := SetG(a, b, c, d, x, 13, 5, 0xa9e3e905, 28);
    Advance(29, Registers(a, b, c, d), r, x);
    d := SetG(d, a, b, c, x, 2, 9, 0xfcefa3f8, 29);
    Advance(30, Registers(a, b, c, d), r, x);
    c := SetG(c, d, a, b, x, 7, 14, 0x676f02d9, 30);
    Advance(31, Registers(a, b, c, d), r, x);
    b := SetG(b, c, d, a, x, 12, 20, 0x8d2a4c8a, 31);
  }

  method Round3Part1(a0: word, b0: word, c0: word, d0: word, x: seq<word>, ghost r: Registers)
    returns (a: word, b: word, c: word, d: word)
    requires |x| == 16 && After(32, Registers(a0, b0, c0, d0), r, x)
    ensures After(36, Registers(a, b, c, d), r, x)
  {
    hide Operation, After;
    a, b, c, d := a0, b0, c0, d0;
    Advance(32, Registers(a, b, c, d), r, x);
    a := SetH(a, b, c, d, x, 5, 4, 0xfffa3942, 32);
    Advance(33, Registers(a, b, c, d), r, x);
    d := SetH(d, a, b, c, x, 8, 11, 0x8771f681, 33);
    Advance(34, Registers(a, b, c, d), r, x);
    c := SetH(c, d, a, b, x, 11, 16, 0x6d9d6122, 34);
    Advance(35, Registers(a, b, c, d), r, x);
    b := SetH(b, c, d, a, x, 14, 23, 0xfde5380c, 35);
  }

  method Round3Part2(a0: word, b0: word, c0: word, d0: word, x: seq<word>, ghost r: Registers)
    returns (a: word, b: word, c: word, d: word)
    requires |x| == 16 && After(36, Registers(a0, b0, c0, d0), r, x)
    ensures After(40, Registers(a, b, c, d), r, x)
  {
    hide Operation, After;
    a, b, c, d := a0, b0, c0, d0;
    Advance(36, Registers(a, b, c, d), r, x);
    a := SetH(a, b, c, d, x, 1, 4, 0xa4beea44, 36);
    Advance(37, Registers(a, b, c, d), r, x);
    d := SetH(d, a, b, c, x, 4, 11, 0x4bdecfa9, 37);
    Advance(38, Registers(a, b, c, d), r, x);
    c := SetH(c, d, a, b, x, 7, 16, 0xf6bb4b60, 38);
    Advance(39, Registers(a, b, c, d), r, x);
    b := SetH(b, c, d, a, x, 10, 23, 0xbebfbc70, 39);
  }

  method Round3Part3(a0: word, b0: word, c0: word, d0: word, x: seq<word>, ghost r: Registers)
    returns (a: word, b: word, c: word, d: word)
    requires |x| == 16 && After(40, Registers(a0, b0, c0, d0), r, x)
    ensures After(44, Registers(a, b, c, d), r, x)
  {
    hide Operation, After;
    a, b, c, d := a0, b0, c0, d0;
    Advance(40, Registers(a, b, c, d), r, x);
    a := SetH(a, b, c, d, x, 13, 4, 0x289b7ec6, 40);
    Advance(41, Registers(a, b, c, d), r, x);
    d := SetH(d, a, b, c, x, 0, 11, 0xeaa127fa, 41);
    Advance(42, Registers(a, b, c, d), r, x);
    c := SetH(c, d, a, b, x, 3, 16, 0xd4ef3085, 42);
    Advance(43, Registers(a, b, c, d), r, x);
    b := SetH(b, c, d, a, x, 6, 23, 0x04881d05, 43);
  }

  method Round3Part4(a0: word, b0: word, c0: word, d0: word, x: seq<word>, ghost r: Registers)
    returns (a: word, b: word, c: word, d: word)
    requires |x| == 16 && After(44, Registers(a0, b0, c0, d0), r, x)
    ensures After(48, Registers(a, b, c, d), r, x)
  {
    hide Operation, After;
    a, b, c, d := a0, b0, c0, d0;
    Advance(44, Registers(a, b, c, d), r, x);
    a := SetH(a, b, c, d, x, 9, 4, 0xd9d4d039, 44);
    Advance(45, Registers(a, b, c, d), r, x);
    d := SetH(d, a, b, c, x, 12, 11, 0xe6db99e5, 45);
    Advance(46, Registers(a, b, c, d), r, x);
    c := SetH(c, d, a, b, x, 15, 16, 0x1fa27cf8, 46);
    Advance(47, Registers(a, b, c, d), r, x);
    b := SetH(b, c, d, a, x, 2, 23, 0xc4ac5665, 47);
  }

  method Round4Part1(a0: word, b0: word, c0: word, d0: word, x: seq<word>, ghost r: Registers)
    returns (a: word, b: word, c: word, d: word)
    requires |x| == 16 && After(48, Registers(a0, b0, c0, d0), r, x)
    ensures After(52, Registers(a, b, c, d), r, x)
  {
    hide Operation, After;
    a, b, c, d := a0, b0, c0, d0;
    Advance(48, Registers(a, b, c, d), r, x);
    a := SetI(a, b, c, d, x, 0, 6, 0xf4292244, 48);
    Advance(49, Registers(a, b, c, d), r, x);
    d := SetI(d, a, b, c, x, 7, 10, 0x432aff97, 49);
    Advance(50, Registers(a, b, c, d), r, x);
    c := SetI(c, d, a, b, x, 14, 15, 0xab9423a7, 50);
    Advance(51, Registers(a, b, c, d), r, x);
    b := SetI(b, c, d, a, x, 5, 21, 0xfc93a039, 51);
  }

  method Round4Part2(a0: word, b0: word, c0: word, d0: word, x: seq<word>, ghost r: Registers)
    returns (a: word, b: word, c: word, d: word)
    requires |x| == 16 && After(52, Registers(a0, b0, c0, d0), r, x)
    ensures After(56, Registers(a, b, c, d), r, x)
  {
    hide Operation, After;
    a, b, c, d := a0, b0, c0, d0;
    Advance(52, Registers(a, b, c, d), r, x);
    a := SetI(a, b, c, d, x, 12, 6, 0x655b59c3, 52);
    Advance(53, Registers(a, b, c, d), r, x);
    d := SetI(d, a, b, c, x, 3, 10, 0x8f0ccc92, 53);
    Advance(54, Registers(a, b, c, d), r, x);
    c := SetI(c, d, a, b, x, 10, 15, 0xffeff47d, 54);
    Advance(55, Registers(a, b, c, d), r, x);
    b := SetI(b, c, d, a, x, 1, 21, 0x85845dd1, 55);
  }

  method Round4Part3(a0: word, b0: word, c0: word, d0: word, x: seq<word>, ghost r: Registers)
    returns (a: word, b: word, c: word, d: word)
    requires |x| == 16 && After(56, Registers(a0, b0, c0, d0), r, x)
    ensures After(60, Registers(a, b, c, d), r, x)
  {
    hide Operation, After;
    a, b, c, d := a0, b0, c0, d0;
    Advance(56, Registers(a, b, c, d), r, x);
    a := SetI(a, b, c, d, x, 8, 6, 0x6fa87e4f, 56);
    Advance(57, Registers(a, b, c, d), r, x);
    d := SetI(d, a, b, c, x, 15, 10, 0xfe2ce6e0, 57);
    Advance(58, Registers(a, b, c, d), r, x);
    c := SetI(c, d, a, b, x, 6, 15, 0xa3014314, 58);
    Advance(59, Registers(a, b, c, d), r, x);
    b := SetI(b, c, d, a, x, 13, 21, 0x4e0811a1, 59);
  }

  method Round4Part4(a0: word, b0: word, c0: word, d0: word, x: seq<word>, ghost r: Registers)
    returns (a: word, b: word, c: word, d: word)
    requires |x| == 16 && After(60, Registers(a0, b0, c0, d0), r, x)
    ensures After(64, Registers(a, b, c, d), r, x)
  {
    hide Operation, After;
    a, b, c, d := a0, b0, c0, d0;
    Advance(60, Registers(a, b, c, d), r, x);
    a := SetI(a, b, c, d, x, 4, 6, 0xf7537e82, 60);
    Advance(61, Registers(a, b, c, d), r, x);
    d := SetI(d, a, b, c, x, 11, 10, 0xbd3af235, 61);
    Advance(62, Registers(a, b, c, d), r, x);
    c := SetI(c, d, a, b, x, 2, 15, 0x2ad7d2bb, 62);
    Advance(63, Registers(a, b, c, d), r, x);
    b := SetI(b, c, d, a, x, 9, 21, 0xeb86d391, 63);
  }

  method Round1(a0: word, b0: word, c0: word, d0: word, x: seq<word>, ghost r: Registers)
    returns (a: word, b: word, c: word, d: word)
    requires |x| == 16 && After(0, Registers(a0, b0, c0, d0), r, x)
    ensures After(16, Registers(a, b, c, d), r, x)
  {
    hide After;
    a, b, c, d := Round1Part1(a0, b0, c0, d0, x, r);
    a, b, c, d := Round1Part2(a, b, c, d, x, r);
    a, b, c, d := Round1Part3(a, b, c, d, x, r);
    a, b, c, d := Round1Part4(a, b, c, d, x, r);
  }

  method Round2(a0: word, b0: word, c0: word, d0: word, x: seq<word>, ghost r: Registers)
    returns (a: word, b: word, c: word, d: word)
    requires |x| == 16 && After(16, Registers(a0, b0, c0, d0), r, x)
    ensures After(32, Registers(a, b, c, d), r, x)
  {
    hide After;
    a, b, c, d := Round2Part1(a0, b0, c0, d0, x, r);
    a, b, c, d := Round2Part2(a, b, c, d, x, r);
    a, b, c, d := Round2Part3(a, b, c, d, x, r);
    a, b, c, d := Round2Part4(a, b, c, d, x, r);
  }

  method Round3(a0: word, b0: word, c0: word, d0: word, x: seq<word>, ghost r: Registers)
    returns (a: word, b: word, c: word, d: word)
    requires |x| == 16 && After(32, Registers(a0, b0, c0, d0), r, x)
    ensures After(48, Registers(a, b, c, d), r, x)
  {
    hide After;
    a, b, c, d := Round3Part1(a0, b0, c0, d0, x, r);
    a, b, c, d := Round3Part2(a, b, c, d, x, r);
    a, b, c, d := Round3Part3(a, b, c, d, x, r);
    a, b, c, d := Round3Part4(a, b, c, d, x, r);
  }

  method Round4(a0: word, b0: word, c0: word, d0: word, x: seq<word>, ghost r: Registers)
    returns (a: word, b: word, c: word, d: word)
    requires |x| == 16 && After(48, Registers(a0, b0, c0, d0), r, x)
    ensures After(64, Registers(a, b, c, d), r, x)
  {
    hide After;
    a, b, c, d := Round4Part1(a0, b0, c0, d0, x, r);
    a, b, c, d := Round4Part2(a, b, c, d, x, r);
    a, b, c, d := Round4Part3(a, b, c, d, x, r);
    a, b, c, d := Round4Part4(a, b, c, d, x, r);
  }

  class State {
    var count0: nat
    var count1: nat
    var a: word
    var b: word
    var c: word
    var d: word
    const buf: array<byte>
    /** All that was appended. */
    ghost var message: seq<byte>

    /** The registers are those after all whole blocks of the message, the buffer starts with the rest, and the
        counter is its length in bits modulo 2^64. */
    ghost predicate Valid()
      reads this, buf
    {
      && buf.Length == 64
      && Registers(a, b, c, d) == Blocks(INITIAL, message)
      && buf[..|message| % 64] == Tail(message)
      && count0 < WORD && count1 < WORD && count1 * WORD + count0 == 8 * |message| % LENGTHS
    }

    /** md5_init. */
    constructor ()
      ensures Valid() && message == [] && fresh(buf)
    {
      count0, count1 := 0, 0;
      a := 0x67452301;
      b := 0xefcdab89;
      c := 0x98badcfe;
      d := 0x10325476;
      buf := new byte[64](_ => 0);
      message := [];
    }

    method Process(data: seq<byte>)
      requires |data| == 64
      modifies this`a, this`b, this`c, this`d
      ensures Registers(a, b, c, d) == Compress(old(Registers(a, b, c, d)), data)
    {
      hide Steps, Add, WordAt, After;
      ghost var r := Registers(a, b, c, d);
      var x := LoadWords(data);
      StepsZero(r, x);
      var a', b', c', d' := Round1(a, b, c, d, x, r);
      a', b', c', d' := Round2(a', b', c', d', x, r);
      a', b', c', d' := Round3(a', b', c', d', x, r);
      a', b', c', d' := Round4(a', b', c', d', x, r);
      AfterAll(Registers(a', b', c', d'), r, x);
      a := Add(a, a');
      b := Add(b, b');
      c := Add(c, c');
      d := Add(d, d');
    }

    method LoadWords(data: seq<byte>) returns (x: seq<word>)
      requires |data| == 64
      ensures x == Words(data, 16)
    {
      hide WordAt;
      x := [];
      for i := 0 to 16
        invariant x == Words(data, i)
      {
        x := x + [WordAt(data, i)];
      }
    }

    /** The counter of md5_append, with its carry. */
    method Count(nbytes: nat)
      requires nbytes < 0x1000_0000 && count0 < WORD && count1 < WORD
      modifies this`count0, this`count1
      ensures count0 < WORD && count1 < WORD
      ensures count1 * WORD + count0 == (old(count1) * WORD + old(count0) + 8 * nbytes) % LENGTHS
    {
      var nbits := 8 * nbytes % WORD;
      SmallPiece(nbytes, count1);
      CounterSum(count0, count1, nbits);
      count1 := (count1 + nbytes / 0x2000_0000) % WORD;
      count0 := (count0 + nbits) % WORD;
      if count0 < nbits {
        count1 := (count1 + 1) % WORD;
      }
    }

    /** md5_append, for any number of bytes below 2^28 at a time. */
    method Append(data: seq<byte>)
      requires Valid() && |data| < 0x1000_0000
      modifies this, buf
      ensures Valid() && message == old(message) + data
    {
      hide Compress, Blocks, Tail;
      var offset := count0 / 8 % 64;
      OffsetIs(count0, count1, |message|);
      if data == [] {
        assert message + data == message;
        return;
      }
      Count(|data|);
      CountLength(|message|, |data|);
      BlocksSplit(INITIAL, message, data);
      Absorb(offset, data);
      message := message + data;
    }

    /** The part of md5_append that fills and processes blocks; `offset` bytes wait in the buffer. */
    method Absorb(offset: nat, data: seq<byte>)
      requires offset < 64 && buf.Length == 64
      modifies this`a, this`b, this`c, this`d, buf
      ensures Registers(a, b, c, d) == Blocks(old(Registers(a, b, c, d)), old(buf[..offset]) + data)
      ensures buf[..(offset + |data|) % 64] == Tail(old(buf[..offset]) + data)
    {
      hide Compress, Blocks, Tail;
      var p := 0;
      ghost var rest := buf[..offset] + data;
      if offset > 0 {
        var full;
        full, p := FillBlock(offset, data);
        if !full {
          BlocksShort(Registers(a, b, c, d), rest);
          return;
        }
      } else {
        assert rest == data && data[0..] == data;
      }
      p := ProcessBlocks(data, p);
      BlocksShort(Registers(a, b, c, d), data[p..]);
      CopyIn(0, data[p..]);
    }

    /** Fills up the waiting block; a full block is processed. */
    method FillBlock(offset: nat, data: seq<byte>) returns (full: bool, p: nat)
      requires offset < 64 && buf.Length == 64
      modifies this`a, this`b, this`c, this`d, buf
      ensures full == (offset + |data| >= 64) && p <= |data|
      ensures !full ==> buf[..offset + |data|] == old(buf[..offset]) + data
      ensures !full ==> Registers(a, b, c, d) == old(Registers(a, b, c, d))
      ensures full ==> Blocks(Registers(a, b, c, d), data[p..]) == Blocks(old(Registers(a, b, c, d)), old(buf[..offset]) + data)
      ensures full ==> Tail(data[p..]) == Tail(old(buf[..offset]) + data)
    {
      hide Compress, Blocks, Tail;
      ghost var rest := buf[..offset] + data;
      p := if offset + |data| > 64 then 64 - offset else |data|;
      CopyIn(offset, data[..p]);
      assert buf[..offset + p] == rest[..offset + p];
      if offset + p < 64 {
        assert rest[..offset + p] == rest;
        return false, p;
      }
      BlocksOne(Registers(a, b, c, d), rest);
      assert buf[..] == rest[..64] && rest[64..] == data[p..];
      Process(buf[..]);
      full := true;
    }

    /** The middle loop of md5_append. */
    method ProcessBlocks(data: seq<byte>, p0: nat) returns (p: nat)
      requires p0 <= |data|
      modifies this`a, this`b, this`c, this`d
      ensures p <= |data| < p + 64
      ensures Blocks(Registers(a, b, c, d), data[p..]) == Blocks(old(Registers(a, b, c, d)), data[p0..])
      ensures Tail(data[p..]) == Tail(data[p0..])
    {
      hide Compress, Blocks, Tail;
      p := p0;
      while |data| - p >= 64
        invariant p <= |data|
        invariant Blocks(Registers(a, b, c, d), data[p..]) == Blocks(old(Registers(a, b, c, d)), data[p0..])
        invariant Tail(data[p..]) == Tail(data[p0..])
      {
        BlocksOne(Registers(a, b, c, d), data[p..]);
        assert data[p..][..64] == data[p..p + 64] && data[p..][64..] == data[p + 64..];
        Process(data[p..p + 64]);
        p := p + 64;
      }
    }

    method CopyIn(offset: nat, bytes: seq<byte>)
      requires offset + |bytes| <= buf.Length == 64
      modifies buf
      ensures buf[..offset] == old(buf[..offset]) && buf[offset..offset + |bytes|] == bytes
    {
      forall i | 0 <= i < |bytes| { buf[offset + i] := bytes[i]; }
    }

    /** md5_finish: the digest of all that was appended. */
    method Finish() returns (digest: seq<byte>)
      requires Valid()
      modifies this, buf
      ensures digest == Digest(old(message))
    {
      hide Compress, Blocks, Tail, LowBytes;
      ghost var m := message;
      var data := SaveLength();
      var pad := [0x80] + Zeros(63);
      OffsetIs(count0, count1, |message|);
      var n := (55 - count0 / 8 % 64) % 64 + 1;
      PaddingIs(|m|, pad, n);
      Append(pad[..n]);
      Append(data);
      digest := WordBytes(a) + WordBytes(b) + WordBytes(c) + WordBytes(d);
    }

    /** The 8 bytes of the counter, the low word first. */
    method SaveLength() returns (data: seq<byte>)
      requires count0 < WORD && count1 < WORD
      ensures data == LowBytes(count1 * WORD + count0, 8)
    {
      data := [];
      for i := 0 to 8
        invariant |data| == i
        invariant forall j :: 0 <= j < i ==> data[j] == ByteOf(ShiftRight(if j < 4 then count0 else count1, j % 4))
      {
        data := data + [ByteOf(ShiftRight(if i < 4 then count0 else count1, i % 4))];
      }
      forall j | 0 <= j < 8 ensures data[j] == LowBytes(count1 * WORD + count0, 8)[j] {
        LowByteAt(count1 * WORD + count0, 8, j);
        HalvesAt(count0, count1, j);
      }
    }
  }
}
