/** The digest of the message "abc" is the one that RFC 1321, section A.5, lists. The proof follows the 64 operations on
    the one block of the padded message; the numbers are the registers between them. */
module Md5Example {
  import opened Md5Spec

  /** The word each operation adds, as the standard lists them round by round. */
  lemma WordOrder(k: nat)
    requires k < 16
    ensures Index(k) == k
    ensures Index(16 + k) == [1, 6, 11, 0, 5, 10, 15, 4, 9, 14, 3, 8, 13, 2, 7, 12][k]
    ensures Index(32 + k) == [5, 8, 11, 14, 1, 4, 7, 10, 13, 0, 3, 6, 9, 12, 15, 2][k]
    ensures Index(48 + k) == [0, 7, 14, 5, 12, 3, 10, 1, 8, 15, 6, 13, 4, 11, 2, 9][k]
  {
  }

  /** The value of operation [abcd k s i], from the value of its mixer, the word of the block, and the table's entry. */
  function Turn(a: word, b: word, f: word, x: word, t: word, s: nat): word
    requires s <= 32
  {
    Add(b, RotateLeft(Add(Add(Add(a, f), x), t), s))
  }

  function TurnOf(i: nat, a: word, b: word, c: word, d: word, x: seq<word>): word
    requires i < 64 && |x| == 16
  {
    Turn(a, b, Mixer(i, b, c, d), x[Index(i)], T(i), Shift(i))
  }

  /** One operation further. */
  lemma Next(i: nat, g: Registers, r: Registers, x: seq<word>)
    requires i < 64 && After(i, g, r, x)
    ensures After(i + 1, match i % 4
      case 0 => g.(a := TurnOf(i, g.a, g.b, g.c, g.d, x))
      case 1 => g.(d := TurnOf(i, g.d, g.a, g.b, g.c, x))
      case 2 => g.(c := TurnOf(i, g.c, g.d, g.a, g.b, x))
      case _ => g.(b := TurnOf(i, g.b, g.c, g.d, g.a, x)), r, x)
  {
    hide After, Add, RotateLeft, Mixer, Index, T, Shift;
    Advance(i, g, r, x);
  }

  /** The block of the padded message: the bytes, the bit 1, zeros, and the 24 bits of its length. */
  ghost predicate Abc(x: seq<word>) {
    |x| == 16 && x[0] == 0x80636261 && x[14] == 24 && forall k :: 0 < k < 16 && k != 14 ==> x[k] == 0
  }

  lemma Values1()
    ensures Turn(0x67452301, 0xefcdab89, F(0xefcdab89, 0x98badcfe, 0x10325476), 0x80636261, 0xd76aa478, 7) == 0xd6d117b4
    ensures Turn(0x10325476, 0xd6d117b4, F(0xd6d117b4, 0xefcdab89, 0x98badcfe), 0x00000000, 0xe8c7b756, 12) == 0x344a8432
    ensures Turn(0x98badcfe, 0x344a8432, F(0x344a8432, 0xd6d117b4, 0xefcdab89), 0x00000000, 0x242070db, 17) == 0x2f6fbd72
    ensures Turn(0xefcdab89, 0x2f6fbd72, F(0x2f6fbd72, 0x344a8432, 0xd6d117b4), 0x00000000, 0xc1bdceee, 22) == 0x7ad956f2
  {
  }

  lemma Part1(x: seq<word>)
    requires Abc(x) && After(0, Registers(0x67452301, 0xefcdab89, 0x98badcfe, 0x10325476), INITIAL, x)
    ensures After(4, Registers(0xd6d117b4, 0x7ad956f2, 0x2f6fbd72, 0x344a8432), INITIAL, x)
  {
    hide After, Turn, F, G, H, I;
    Values1();
    Next(0, Registers(0x67452301, 0xefcdab89, 0x98badcfe, 0x10325476), INITIAL, x);
    Next(1, Registers(0xd6d117b4, 0xefcdab89, 0x98badcfe, 0x10325476), INITIAL, x);
    Next(2, Registers(0xd6d117b4, 0xefcdab89, 0x98badcfe, 0x344a8432), INITIAL, x);
    Next(3, Registers(0xd6d117b4, 0xefcdab89, 0x2f6fbd72, 0x344a8432), INITIAL, x);
  }

  lemma Values2()
    ensures Turn(0xd6d117b4, 0x7ad956f2, F(0x7ad956f2, 0x2f6fbd72, 0x344a8432), 0x00000000, 0xf57c0faf, 7) == 0xc73741ef
    ensures Turn(0x344a8432, 0xc73741ef, F(0xc73741ef, 0x7ad956f2, 0x2f6fbd72), 0x00000000, 0x4787c62a, 12) == 0x8bac3051
    ensures Turn(0x2f6fbd72, 0x8bac3051, F(0x8bac3051, 0xc73741ef, 0x7ad956f2), 0x00000000, 0xa8304613, 17) == 0x207dc67b
    ensures Turn(0x7ad956f2, 0x207dc67b, F(0x207dc67b, 0x8bac3051, 0xc73741ef), 0x00000000, 0xfd469501, 22) == 0x928d99f6
  {
  }

  lemma Part2(x: seq<word>)
    requires Abc(x) && After(4, Registers(0xd6d117b4, 0x7ad956f2, 0x2f6fbd72, 0x344a8432), INITIAL, x)
    ensures After(8, Registers(0xc73741ef, 0x928d99f6, 0x207dc67b, 0x8bac3051), INITIAL, x)
  {
    hide After, Turn, F, G, H, I;
    Values2();
    Next(4, Registers(0xd6d117b4, 0x7ad956f2, 0x2f6fbd72, 0x344a8432), INITIAL, x);
    Next(5, Registers(0xc73741ef, 0x7ad956f2, 0x2f6fbd72, 0x344a8432), INITIAL, x);
    Next(6, Registers(0xc73741ef, 0x7ad956f2, 0x2f6fbd72, 0x8bac3051), INITIAL, x);
    Next(7, Registers(0xc73741ef, 0x7ad956f2, 0x207dc67b, 0x8bac3051), INITIAL, x);
  }

  lemma Values3()
    ensures Turn(0xc73741ef, 0x928d99f6, F(0x928d99f6, 0x207dc67b, 0x8bac3051), 0x00000000, 0x698098d8, 7) == 0x854b3712
    ensures Turn(0x8bac3051, 0x854b3712, F(0x854b3712, 0x928d99f6, 0x207dc67b), 0x00000000, 0x8b44f7af, 12) == 0x74e2f284
    ensures Turn(0x207dc67b, 0x74e2f284, F(0x74e2f284, 0x854b3712, 0x928d99f6), 0x00000000, 0xffff5bb1, 17) == 0x3020401c
    ensures Turn(0x928d99f6, 0x3020401c, F(0x3020401c, 0x74e2f284, 0x854b3712), 0x00000000, 0x895cd7be, 22) == 0x5ed49596
  {
  }

  lemma Part3(x: seq<word>)
    requires Abc(x) && After(8, Registers(0xc73741ef, 0x928d99f6, 0x207dc67b, 0x8bac3051), INITIAL, x)
    ensures After(12, Registers(0x854b3712, 0x5ed49596, 0x3020401c, 0x74e2f284), INITIAL, x)
  {
    hide After, Turn, F, G, H, I;
    Values3();
    Next(8, Registers(0xc73741ef, 0x928d99f6, 0x207dc67b, 0x8bac3051), INITIAL, x);
    Next(9, Registers(0x854b3712, 0x928d99f6, 0x207dc67b, 0x8bac3051), INITIAL, x);
    Next(10, Registers(0x854b3712, 0x928d99f6, 0x207dc67b, 0x74e2f284), INITIAL, x);
    Next(11, Registers(0x854b3712, 0x928d99f6, 0x3020401c, 0x74e2f284), INITIAL, x);
  }

  lemma Values4()
    ensures Turn(0x854b3712, 0x5ed49596, F(0x5ed49596, 0x3020401c, 0x74e2f284), 0x00000000, 0x6b901122, 7) == 0xdda9b9a6
    ensures Turn(0x74e2f284, 0xdda9b9a6, F(0xdda9b9a6, 0x5ed49596, 0x3020401c), 0x00000000, 0xfd987193, 12) == 0xa1051895
    ensures Turn(0x3020401c, 0xa1051895, F(0xa1051895, 0xdda9b9a6, 0x5ed49596), 0x00000018, 0xa679438e, 17) == 0xe396856b
    ensures Turn(0x5ed49596, 0xe396856b, F(0xe396856b, 0xa1051895, 0xdda9b9a6), 0x00000000, 0x49b40821, 22) == 0x72aff2e0
  {
  }

  lemma Part4(x: seq<word>)
    requires Abc(x) && After(12, Registers(0x854b3712, 0x5ed49596, 0x3020401c, 0x74e2f284), INITIAL, x)
    ensures After(16, Registers(0xdda9b9a6, 0x72aff2e0, 0xe396856b, 0xa1051895), INITIAL, x)
  {
    hide After, Turn, F, G, H, I;
    Values4();
    Next(12, Registers(0x854b3712, 0x5ed49596, 0x3020401c, 0x74e2f284), INITIAL, x);
    Next(13, Registers(0xdda9b9a6, 0x5ed49596, 0x3020401c, 0x74e2f284), INITIAL, x);
    Next(14, Registers(0xdda9b9a6, 0x5ed49596, 0x3020401c, 0xa1051895), INITIAL, x);
    Next(15, Registers(0xdda9b9a6, 0x5ed49596, 0xe396856b, 0xa1051895), INITIAL, x);
  }

  lemma Values5()
    ensures Turn(0xdda9b9a6, 0x72aff2e0, G(0x72aff2e0, 0xe396856b, 0xa1051895), 0x00000000, 0xf61e2562, 5) == 0x3e9e9126
    ensures Turn(0xa1051895, 0x3e9e9126, G(0x3e9e9126, 0x72aff2e0, 0xe396856b), 0x00000000, 0xc040b340, 9) == 0x4a1d804e
    ensures Turn(0xe396856b, 0x4a1d804e, G(0x4a1d804e, 0x3e9e9126, 0x72aff2e0), 0x00000000, 0x265e5a51, 14) == 0xe25e1652
    ensures Turn(0x72aff2e0, 0xe25e1652, G(0xe25e1652, 0x4a1d804e, 0x3e9e9126), 0x80636261, 0xe9b6c7aa, 20) == 0xb5b204e4
  {
  }

  lemma Part5(x: seq<word>)
    requires Abc(x) && After(16, Registers(0xdda9b9a6, 0x72aff2e0, 0xe396856b, 0xa1051895), INITIAL, x)
    ensures After(20, Registers(0x3e9e9126, 0xb5b204e4, 0xe25e1652, 0x4a1d804e), INITIAL, x)
  {
    hide After, Turn, F, G, H, I;
    Values5();
    Next(16, Registers(0xdda9b9a6, 0x72aff2e0, 0xe396856b, 0xa1051895), INITIAL, x);
    Next(17, Registers(0x3e9e9126, 0x72aff2e0, 0xe396856b, 0xa1051895), INITIAL, x);
    Next(18, Registers(0x3e9e9126, 0x72aff2e0, 0xe396856b, 0x4a1d804e), INITIAL, x);
    Next(19, Registers(0x3e9e9126, 0x72aff2e0, 0xe25e1652, 0x4a1d804e), INITIAL, x);
  }

  lemma Values6()
    ensures Turn(0x3e9e9126, 0xb5b204e4, G(0xb5b204e4, 0xe25e1652, 0x4a1d804e), 0x00000000, 0xd62f105d, 5) == 0x59a8ffda
    ensures Turn(0x4a1d804e, 0x59a8ffda, G(0x59a8ffda, 0xb5b204e4, 0xe25e1652), 0x00000000, 0x02441453, 9) == 0x6d002f1e
    ensures Turn(0xe25e1652, 0x6d002f1e, G(0x6d002f1e, 0x59a8ffda, 0xb5b204e4), 0x00000000, 0xd8a1e681, 14) == 0xabfc7920
    ensures Turn(0xb5b204e4, 0xabfc7920, G(0xabfc7920, 0x6d002f1e, 0x59a8ffda), 0x00000000, 0xe7d3fbc8, 20) == 0x47092c07
  {
  }

  lemma Part6(x: seq<word>)
    requires Abc(x) && After(20, Registers(0x3e9e9126, 0xb5b204e4, 0xe25e1652, 0x4a1d804e), INITIAL, x)
    ensures After(24, Registers(0x59a8ffda, 0x47092c07, 0xabfc7920, 0x6d002f1e), INITIAL, x)
  {
    hide After, Turn, F, G, H, I;
    Values6();
    Next(20, Registers(0x3e9e9126, 0xb5b204e4, 0xe25e1652, 0x4a1d804e), INITIAL, x);
    Next(21, Registers(0x59a8ffda, 0xb5b204e4, 0xe25e1652, 0x4a1d804e), INITIAL, x);
    Next(22, Registers(0x59a8ffda, 0xb5b204e4, 0xe25e1652, 0x6d002f1e), INITIAL, x);
    Next(23, Registers(0x59a8ffda, 0xb5b204e4, 0xabfc7920, 0x6d002f1e), INITIAL, x);
  }

  lemma Values7()
    ensures Turn(0x59a8ffda, 0x47092c07, G(0x47092c07, 0xabfc7920, 0x6d002f1e), 0x00000000, 0x21e1cde6, 5) == 0xb7f268cf
    ensures Turn(0x6d002f1e, 0xb7f268cf, G(0xb7f268cf, 0x47092c07, 0xabfc7920), 0x00000018, 0xc33707d6, 9) == 0x09388eff
    ensures Turn(0xabfc7920, 0x09388eff, G(0x09388eff, 0xb7f268cf, 0x47092c07), 0x00000000, 0xf4d50d87, 14) == 0xfe1623b1
    ensures Turn(0x47092c07, 0xfe1623b1, G(0xfe1623b1, 0x09388eff, 0xb7f268cf), 0x00000000, 0x455a14ed, 20) == 0x786acb8f
  {
  }

  lemma Part7(x: seq<word>)
    requires Abc(x) && After(24, Registers(0x59a8ffda, 0x47092c07, 0xabfc7920, 0x6d002f1e), INITIAL, x)
    ensures After(28, Registers(0xb7f268cf, 0x786acb8f, 0xfe1623b1, 0x09388eff), INITIAL, x)
  {
    hide After, Turn, F, G, H, I;
    Values7();
    Next(24, Registers(0x59a8ffda, 0x47092c07, 0xabfc7920, 0x6d002f1e), INITIAL, x);
    Next(25, Registers(0xb7f268cf, 0x47092c07, 0xabfc7920, 0x6d002f1e), INITIAL, x);
    Next(26, Registers(0xb7f268cf, 0x47092c07, 0xabfc7920, 0x09388eff), INITIAL, x);
    Next(27, Registers(0xb7f268cf, 0x47092c07, 0xfe1623b1, 0x09388eff), INITIAL, x);
  }

  lemma Values8()
    ensures Turn(0xb7f268cf, 0x786acb8f, G(0x786acb8f, 0xfe1623b1, 0x09388eff), 0x00000000, 0xa9e3e905, 5) == 0x790a77fb
    ensures Turn(0x09388eff, 0x790a77fb, G(0x790a77fb, 0x786acb8f, 0xfe1623b1), 0x00000000, 0xfcefa3f8, 9) == 0x9f47e4f8
    ensures Turn(0xfe1623b1, 0x9f47e4f8, G(0x9f47e4f8, 0x790a77fb, 0x786acb8f), 0x00000000, 0x676f02d9, 14) == 0xa62884aa
    ensures Turn(0x786acb8f, 0xa62884aa, G(0xa62884aa, 0x9f47e4f8, 0x790a77fb), 0x00000000, 0x8d2a4c8a, 20) == 0x726342d3
  {
  }

  lemma Part8(x: seq<word>)
    requires Abc(x) && After(28, Registers(0xb7f268cf, 0x786acb8f, 0xfe1623b1, 0x09388eff), INITIAL, x)
    ensures After(32, Registers(0x790a77fb, 0x726342d3, 0xa62884aa, 0x9f47e4f8), INITIAL, x)
  {
    hide After, Turn, F, G, H, I;
    Values8();
    Next(28, Registers(0xb7f268cf, 0x786acb8f, 0xfe1623b1, 0x09388eff), INITIAL, x);
    Next(29, Registers(0x790a77fb, 0x786acb8f, 0xfe1623b1, 0x09388eff), INITIAL, x);
    Next(30, Registers(0x790a77fb, 0x786acb8f, 0xfe1623b1, 0x9f47e4f8), INITIAL, x);
    Next(31, Registers(0x790a77fb, 0x786acb8f, 0xa62884aa, 0x9f47e4f8), INITIAL, x);
  }

  lemma Values9()
    ensures Turn(0x790a77fb, 0x726342d3, H(0x726342d3, 0xa62884aa, 0x9f47e4f8), 0x00000000, 0xfffa3942, 4) == 0xb3707ebf
    ensures Turn(0x9f47e4f8, 0xb3707ebf, H(0xb3707ebf, 0x726342d3, 0xa62884aa), 0x00000000, 0x8771f681, 11) == 0x60127b2e
    ensures Turn(0xa62884aa, 0x60127b2e, H(0x60127b2e, 0xb3707ebf, 0x726342d3), 0x00000000, 0x6d9d6122, 16) == 0x8d212ff5
    ensures Turn(0x726342d3, 0x8d212ff5, H(0x8d212ff5, 0x60127b2e, 0xb3707ebf), 0x00000018, 0xfde5380c, 23) == 0x3b0875c7
  {
  }

  lemma Part9(x: seq<word>)
    requires Abc(x) && After(32, Registers(0x790a77fb, 0x726342d3, 0xa62884aa, 0x9f47e4f8), INITIAL, x)
    ensures After(36, Registers(0xb3707ebf, 0x3b0875c7, 0x8d212ff5, 0x60127b2e), INITIAL, x)
  {
    hide After, Turn, F, G, H, I;
    Values9();
    Next(32, Registers(0x790a77fb, 0x726342d3, 0xa62884aa, 0x9f47e4f8), INITIAL, x);
    Next(33, Registers(0xb3707ebf, 0x726342d3, 0xa62884aa, 0x9f47e4f8), INITIAL, x);
    Next(34, Registers(0xb3707ebf, 0x726342d3, 0xa62884aa, 0x60127b2e), INITIAL, x);
    Next(35, Registers(0xb3707ebf, 0x726342d3, 0x8d212ff5, 0x60127b2e), INITIAL, x);
  }

  lemma Values10()
    ensures Turn(0xb3707ebf, 0x3b0875c7, H(0x3b0875c7, 0x8d212ff5, 0x60127b2e), 0x00000000, 0xa4beea44, 4) == 0x21b117b9
    ensures Turn(0x60127b2e, 0x21b117b9, H(0x21b117b9, 0x3b0875c7, 0x8d212ff5), 0x00000000, 0x4bdecfa9, 11) == 0x6e7429d5
    ensures Turn(0x8d212ff5, 0x6e7429d5, H(0x6e7429d5, 0x21b117b9, 0x3b0875c7), 0x00000000, 0xf6bb4b60, 16) == 0x3575227e
    ensures Turn(0x3b0875c7, 0x3575227e, H(0x3575227e, 0x6e7429d5, 0x21b117b9), 0x00000000, 0xbebfbc70, 23) == 0x5a2f5ea5
  {
  }

  lemma Part10(x: seq<word>)
    requires Abc(x) && After(36, Registers(0xb3707ebf, 0x3b0875c7, 0x8d212ff5, 0x60127b2e), INITIAL, x)
    ensures After(40, Registers(0x21b117b9, 0x5a2f5ea5, 0x3575227e, 0x6e7429d5), INITIAL, x)
  {
    hide After, Turn, F, G, H, I;
    Values10();
    Next(36, Registers(0xb3707ebf, 0x3b0875c7, 0x8d212ff5, 0x60127b2e), INITIAL, x);
    Next(37, Registers(0x21b117b9, 0x3b0875c7, 0x8d212ff5, 0x60127b2e), INITIAL, x);
    Next(38, Registers(0x21b117b9, 0x3b0875c7, 0x8d212ff5, 0x6e7429d5), INITIAL, x);
    Next(39, Registers(0x21b117b9, 0x3b0875c7, 0x3575227e, 0x6e7429d5), INITIAL, x);
  }

  lemma Values11()
    ensures Turn(0x21b117b9, 0x5a2f5ea5, H(0x5a2f5ea5, 0x3575227e, 0x6e7429d5), 0x00000000, 0x289b7ec6, 4) == 0x11de1779
    ensures Turn(0x6e7429d5, 0x11de1779, H(0x11de1779, 0x5a2f5ea5, 0x3575227e), 0x80636261, 0xeaa127fa, 11) == 0xfadcaa38
    ensures Turn(0x3575227e, 0xfadcaa38, H(0xfadcaa38, 0x11de1779, 0x5a2f5ea5), 0x00000000, 0xd4ef3085, 16) == 0x31c465ca
    ensures Turn(0x5a2f5ea5, 0x31c465ca, H(0x31c465ca, 0xfadcaa38, 0x11de1779), 0x00000000, 0x04881d05, 23) == 0x4c6124f4
  {
  }

  lemma Part11(x: seq<word>)
    requires Abc(x) && After(40, Registers(0x21b117b9, 0x5a2f5ea5, 0x3575227e, 0x6e7429d5), INITIAL, x)
    ensures After(44, Registers(0x11de1779, 0x4c6124f4, 0x31c465ca, 0xfadcaa38), INITIAL, x)
  {
    hide After, Turn, F, G, H, I;
    Values11();
    Next(40, Registers(0x21b117b9, 0x5a2f5ea5, 0x3575227e, 0x6e7429d5), INITIAL, x);
    Next(41, Registers(0x11de1779, 0x5a2f5ea5, 0x3575227e, 0x6e7429d5), INITIAL, x);
    Next(42, Registers(0x11de1779, 0x5a2f5ea5, 0x3575227e, 0xfadcaa38), INITIAL, x);
    Next(43, Registers(0x11de1779, 0x5a2f5ea5, 0x31c465ca, 0xfadcaa38), INITIAL, x);
  }

  lemma Values12()
    ensures Turn(0x11de1779, 0x4c6124f4, H(0x4c6124f4, 0x31c465ca, 0xfadcaa38), 0x00000000, 0xd9d4d039, 4) == 0x7f2e507b
    ensures Turn(0xfadcaa38, 0x7f2e507b, H(0x7f2e507b, 0x4c6124f4, 0x31c465ca), 0x00000000, 0xe6db99e5, 11) == 0x99d9679d
    ensures Turn(0x31c465ca, 0x99d9679d, H(0x99d9679d, 0x7f2e507b, 0x4c6124f4), 0x00000000, 0x1fa27cf8, 16) == 0x8fae6399
    ensures Turn(0x4c6124f4, 0x8fae6399, H(0x8fae6399, 0x99d9679d, 0x7f2e507b), 0x00000000, 0xc4ac5665, 23) == 0x7beb9700
  {
  }

  lemma Part12(x: seq<word>)
    requires Abc(x) && After(44, Registers(0x11de1779, 0x4c6124f4, 0x31c465ca, 0xfadcaa38), INITIAL, x)
    ensures After(48, Registers(0x7f2e507b, 0x7beb9700, 0x8fae6399, 0x99d9679d), INITIAL, x)
  {
    hide After, Turn, F, G, H, I;
    Values12();
    Next(44, Registers(0x11de1779, 0x4c6124f4, 0x31c465ca, 0xfadcaa38), INITIAL, x);
    Next(45, Registers(0x7f2e507b, 0x4c6124f4, 0x31c465ca, 0xfadcaa38), INITIAL, x);
    Next(46, Registers(0x7f2e507b, 0x4c6124f4, 0x31c465ca, 0x99d9679d), INITIAL, x);
    Next(47, Registers(0x7f2e507b, 0x4c6124f4, 0x8fae6399, 0x99d9679d), INITIAL, x);
  }

  lemma Values13()
    ensures Turn(0x7f2e507b, 0x7beb9700, I(0x7beb9700, 0x8fae6399, 0x99d9679d), 0x80636261, 0xf4292244, 6) == 0x7b201df8
    ensures Turn(0x99d9679d, 0x7b201df8, I(0x7b201df8, 0x7beb9700, 0x8fae6399), 0x00000000, 0x432aff97, 10) == 0xf4e8e96e
    ensures Turn(0x8fae6399, 0xf4e8e96e, I(0xf4e8e96e, 0x7b201df8, 0x7beb9700), 0x00000018, 0xab9423a7, 15) == 0xb298cefd
    ensures Turn(0x7beb9700, 0xb298cefd, I(0xb298cefd, 0xf4e8e96e, 0x7b201df8), 0x00000000, 0xfc93a039, 21) == 0x8bf025c4
  {
  }

  lemma Part13(x: seq<word>)
    requires Abc(x) && After(48, Registers(0x7f2e507b, 0x7beb9700, 0x8fae6399, 0x99d9679d), INITIAL, x)
    ensures After(52, Registers(0x7b201df8, 0x8bf025c4, 0xb298cefd, 0xf4e8e96e), INITIAL, x)
  {
    hide After, Turn, F, G, H, I;
    Values13();
    Next(48, Registers(0x7f2e507b, 0x7beb9700, 0x8fae6399, 0x99d9679d), INITIAL, x);
    Next(49, Registers(0x7b201df8, 0x7beb9700, 0x8fae6399, 0x99d9679d), INITIAL, x);
    Next(50, Registers(0x7b201df8, 0x7beb9700, 0x8fae6399, 0xf4e8e96e), INITIAL, x);
    Next(51, Registers(0x7b201df8, 0x7beb9700, 0xb298cefd, 0xf4e8e96e), INITIAL, x);
  }

  lemma Values14()
    ensures Turn(0x7b201df8, 0x8bf025c4, I(0x8bf025c4, 0xb298cefd, 0xf4e8e96e), 0x00000000, 0x655b59c3, 6) == 0x06cc5e8a
    ensures Turn(0xf4e8e96e, 0x06cc5e8a, I(0x06cc5e8a, 0x8bf025c4, 0xb298cefd), 0x00000000, 0x8f0ccc92, 10) == 0x5b0d97aa
    ensures Turn(0xb298cefd, 0x5b0d97aa, I(0x5b0d97aa, 0x06cc5e8a, 0x8bf025c4), 0x00000000, 0xffeff47d, 15) == 0x7d632dd0
    ensures Turn(0x8bf025c4, 0x7d632dd0, I(0x7d632dd0, 0x5b0d97aa, 0x06cc5e8a), 0x00000000, 0x85845dd1, 21) == 0x3bfa2c27
  {
  }

  lemma Part14(x: seq<word>)
    requires Abc(x) && After(52, Registers(0x7b201df8, 0x8bf025c4, 0xb298cefd, 0xf4e8e96e), INITIAL, x)
    ensures After(56, Registers(0x06cc5e8a, 0x3bfa2c27, 0x7d632dd0, 0x5b0d97aa), INITIAL, x)
  {
    hide After, Turn, F, G, H, I;
    Values14();
    Next(52, Registers(0x7b201df8, 0x8bf025c4, 0xb298cefd, 0xf4e8e96e), INITIAL, x);
    Next(53, Registers(0x06cc5e8a, 0x8bf025c4, 0xb298cefd, 0xf4e8e96e), INITIAL, x);
    Next(54, Registers(0x06cc5e8a, 0x8bf025c4, 0xb298cefd, 0x5b0d97aa), INITIAL, x);
    Next(55, Registers(0x06cc5e8a, 0x8bf025c4, 0x7d632dd0, 0x5b0d97aa), INITIAL, x);
  }

  lemma Values15()
    ensures Turn(0x06cc5e8a, 0x3bfa2c27, I(0x3bfa2c27, 0x7d632dd0, 0x5b0d97aa), 0x00000000, 0x6fa87e4f, 6) == 0x7f81cc35
    ensures Turn(0x5b0d97aa, 0x7f81cc35, I(0x7f81cc35, 0x3bfa2c27, 0x7d632dd0), 0x00000000, 0xfe2ce6e0, 10) == 0x094454ab
    ensures Turn(0x7d632dd0, 0x094454ab, I(0x094454ab, 0x7f81cc35, 0x3bfa2c27), 0x00000000, 0xa3014314, 15) == 0x4f9dbe3f
    ensures Turn(0x3bfa2c27, 0x4f9dbe3f, I(0x4f9dbe3f, 0x094454ab, 0x7f81cc35), 0x00000000, 0x4e0811a1, 21) == 0x7327d604
  {
  }

  lemma Part15(x: seq<word>)
    requires Abc(x) && After(56, Registers(0x06cc5e8a, 0x3bfa2c27, 0x7d632dd0, 0x5b0d97aa), INITIAL, x)
    ensures After(60, Registers(0x7f81cc35, 0x7327d604, 0x4f9dbe3f, 0x094454ab), INITIAL, x)
  {
    hide After, Turn, F, G, H, I;
    Values15();
    Next(56, Registers(0x06cc5e8a, 0x3bfa2c27, 0x7d632dd0, 0x5b0d97aa), INITIAL, x);
    Next(57, Registers(0x7f81cc35, 0x3bfa2c27, 0x7d632dd0, 0x5b0d97aa), INITIAL, x);
    Next(58, Registers(0x7f81cc35, 0x3bfa2c27, 0x7d632dd0, 0x094454ab), INITIAL, x);
    Next(59, Registers(0x7f81cc35, 0x3bfa2c27, 0x4f9dbe3f, 0x094454ab), INITIAL, x);
  }

  lemma Values16()
    ensures Turn(0x7f81cc35, 0x7327d604, I(0x7327d604, 0x4f9dbe3f, 0x094454ab), 0x00000000, 0xf7537e82, 6) == 0x310ade8f
    ensures Turn(0x094454ab, 0x310ade8f, I(0x310ade8f, 0x7327d604, 0x4f9dbe3f), 0x00000000, 0xbd3af235, 10) == 0x624d8cb2
    ensures Turn(0x4f9dbe3f, 0x624d8cb2, I(0x624d8cb2, 0x310ade8f, 0x7327d604), 0x00000000, 0x2ad7d2bb, 15) == 0xe484b9d8
    ensures Turn(0x7327d604, 0xe484b9d8, I(0xe484b9d8, 0x624d8cb2, 0x310ade8f), 0x00000000, 0xeb86d391, 21) == 0xc08226b3
  {
  }

  lemma Part16(x: seq<word>)
    requires Abc(x) && After(60, Registers(0x7f81cc35, 0x7327d604, 0x4f9dbe3f, 0x094454ab), INITIAL, x)
    ensures After(64, Registers(0x310ade8f, 0xc08226b3, 0xe484b9d8, 0x624d8cb2), INITIAL, x)
  {
    hide After, Turn, F, G, H, I;
    Values16();
    Next(60, Registers(0x7f81cc35, 0x7327d604, 0x4f9dbe3f, 0x094454ab), INITIAL, x);
    Next(61, Registers(0x310ade8f, 0x7327d604, 0x4f9dbe3f, 0x094454ab), INITIAL, x);
    Next(62, Registers(0x310ade8f, 0x7327d604, 0x4f9dbe3f, 0x624d8cb2), INITIAL, x);
    Next(63, Registers(0x310ade8f, 0x7327d604, 0xe484b9d8, 0x624d8cb2), INITIAL, x);
  }

  lemma Abc64(x: seq<word>)
    requires Abc(x)
    ensures Steps(64, INITIAL, x) == Registers(0x310ade8f, 0xc08226b3, 0xe484b9d8, 0x624d8cb2)
  {
    hide After;
    StepsZero(INITIAL, x);
    Part1(x);
    Part2(x);
    Part3(x);
    Part4(x);
    Part5(x);
    Part6(x);
    Part7(x);
    Part8(x);
    Part9(x);
    Part10(x);
    Part11(x);
    Part12(x);
    Part13(x);
    Part14(x);
    Part15(x);
    Part16(x);
    AfterAll(Registers(0x310ade8f, 0xc08226b3, 0xe484b9d8, 0x624d8cb2), INITIAL, x);
  }

  const ABC: seq<byte> := [0x61, 0x62, 0x63]

  function AbcBlock(): seq<byte> {
    ABC + Padding(3) + LengthBytes(3)
  }

  /** Its bytes: the message, the bit 1, zeros, and the length in bits. */
  lemma AbcBytes()
    ensures |AbcBlock()| == 64 && AbcBlock()[..4] == [0x61, 0x62, 0x63, 0x80] && AbcBlock()[56] == 24
    ensures forall k :: 4 <= k < 64 && k != 56 ==> AbcBlock()[k] == 0
  {
    AbcLength();
    hide LengthBytes;
    var p := Padding(3);
    assert |p| == 53;
    assert p[0] == 0x80 && forall k :: 1 <= k < 53 ==> p[k] == 0;
  }

  lemma AbcLength()
    ensures LengthBytes(3) == [24, 0, 0, 0, 0, 0, 0, 0]
  {
    assert LowBytes(0, 4) == [0, 0, 0, 0];
    assert LowBytes(0, 7) == [0, 0, 0, 0, 0, 0, 0];
  }

  lemma LengthIs(n: nat)
    requires 8 * n < LENGTHS
    ensures LengthBytes(n) == LowBytes(8 * n, 8)
  {
    hide LowBytes;
  }

  lemma NoBytes()
    ensures LowBytes(0, 6) == [0, 0, 0, 0, 0, 0]
  {
    assert LowBytes(0, 3) == [0, 0, 0];
  }

  lemma LowNext(n: nat, count: nat)
    ensures LowBytes(n, count + 1) == [ByteOf(n)] + LowBytes(n / 256, count)
  {
  }

  /** Low-order byte first: the 496 bits of a message of 62 bytes. */
  lemma LengthOrder()
    ensures LengthBytes(62) == [0xf0, 0x01, 0, 0, 0, 0, 0, 0]
  {
    hide LengthBytes, LowBytes;
    LengthIs(62);
    LowNext(496, 7);
    LowNext(1, 6);
    NoBytes();
  }

  lemma {:induction false} WordsAt(b: seq<byte>, n: nat, k: nat)
    requires 4 * n <= |b| && k < n
    ensures Words(b, n)[k] == WordAt(b, k)
  {
    hide WordAt;
    if k < n - 1 { WordsAt(b, n - 1, k); }
  }

  lemma AbcWords()
    ensures |AbcBlock()| == 64 && Abc(Words(AbcBlock(), 16))
  {
    AbcBytes();
    hide AbcBlock, Words;
    var b := AbcBlock();
    forall k | 0 <= k < 16 ensures Words(b, 16)[k] == if k == 0 then 0x80636261 else if k == 14 then 24 else 0 {
      WordsAt(b, 16, k);
      AbcWord(b, k);
    }
  }

  lemma AbcWord(b: seq<byte>, k: nat)
    requires k < 16 && |b| == 64 && b[..4] == [0x61, 0x62, 0x63, 0x80] && b[56] == 24
    requires forall k :: 4 <= k < 64 && k != 56 ==> b[k] == 0
    ensures WordAt(b, k) == if k == 0 then 0x80636261 else if k == 14 then 24 else 0
  {
    if k == 0 {
      assert b[0] == b[..4][0] && b[1] == b[..4][1] && b[2] == b[..4][2] && b[3] == b[..4][3];
    }
  }

  lemma AbcSums()
    ensures Add(0x67452301, 0x310ade8f) == 0x98500190 && Add(0xefcdab89, 0xc08226b3) == 0xb04fd23c
    ensures Add(0x98badcfe, 0xe484b9d8) == 0x7d3f96d6 && Add(0x10325476, 0x624d8cb2) == 0x727fe128
  {
  }

  lemma AbcBytesOf()
    ensures WordBytes(0x98500190) == [0x90, 0x01, 0x50, 0x98] && WordBytes(0xb04fd23c) == [0x3c, 0xd2, 0x4f, 0xb0]
    ensures WordBytes(0x7d3f96d6) == [0xd6, 0x96, 0x3f, 0x7d] && WordBytes(0x727fe128) == [0x28, 0xe1, 0x7f, 0x72]
  {
  }

  /** The answer the standard gives for "abc". */
  lemma DigestOfAbc()
    ensures Digest([0x61, 0x62, 0x63]) == [0x90, 0x01, 0x50, 0x98, 0x3c, 0xd2, 0x4f, 0xb0,
                                           0xd6, 0x96, 0x3f, 0x7d, 0x28, 0xe1, 0x7f, 0x72]
  {
    hide Steps, Add, WordBytes, Words;
    AbcWords();
    var b := AbcBlock();
    Abc64(Words(b, 16));
    AbcSums();
    assert Compress(INITIAL, b) == Registers(0x98500190, 0xb04fd23c, 0x7d3f96d6, 0x727fe128);
    BlocksOne(INITIAL, b);
    BlocksShort(Compress(INITIAL, b), []);
    assert b[..64] == b && b[64..] == [];
    AbcBytesOf();
  }
}
