/** How numbers, strings and lists travel between peers (services/comm.cpp). A Put function prepends the encoding
    of a value to the bytes that follow it; a Get function reads the value off the front of the unread bytes. */
module Wire {
  type byte = x: int | 0 <= x < 256

  /** Strings are byte strings; on the wire they end at the first NUL. */
  type Text = seq<byte>

  const WORD := 0x1_0000_0000

  /** The 4 bytes of a word, most significant first. */
  function BigEndian(n: nat): (b: seq<byte>)
    ensures |b| == 4
  {
    [(n / 0x1000000) % 256, (n / 0x10000) % 256, (n / 0x100) % 256, n % 256]
  }

  function FromBigEndian(b: seq<byte>): nat
    requires |b| >= 4
  {
    b[0] as int * 0x1000000 + b[1] as int * 0x10000 + b[2] as int * 0x100 + b[3]
  }

  /** The 4 bytes of a word, least significant first, as the handshake sends its versions. */
  function LittleEndian(n: nat): (b: seq<byte>)
    ensures |b| == 4
  {
    [n % 256, (n / 0x100) % 256, (n / 0x10000) % 256, (n / 0x1000000) % 256]
  }

  function FromLittleEndian(b: seq<byte>): nat
    requires |b| >= 4
  {
    b[0] as int + b[1] as int * 0x100 + b[2] as int * 0x10000 + b[3] as int * 0x1000000
  }

  lemma DigitsOf(n: nat)
    requires n < WORD
    ensures n == (n / 0x1000000) % 256 * 0x1000000 + (n / 0x10000) % 256 * 0x10000 + (n / 0x100) % 256 * 0x100 + n % 256
  {
    assert n / 0x10000 == n / 0x100 / 0x100 && n / 0x1000000 == n / 0x100 / 0x100 / 0x100;
  }

  lemma BigEndianInverse(n: nat)
    requires n < WORD
    ensures FromBigEndian(BigEndian(n)) == n
  {
    DigitsOf(n);
  }

  lemma LittleEndianInverse(n: nat)
    requires n < WORD
    ensures FromLittleEndian(LittleEndian(n)) == n
  {
    DigitsOf(n);
  }

  /** The first byte is worth 2^24, or 1. */
  lemma ByteOrder(a: byte, b: byte, c: byte, d: byte)
    ensures BigEndian(0x1000000 * a + 0x10000 * b + 0x100 * c + d) == [a, b, c, d]
    ensures LittleEndian(0x1000000 * a + 0x10000 * b + 0x100 * c + d) == [d, c, b, a]
  {
    var n := 0x1000000 * a + 0x10000 * b + 0x100 * c + d;
    assert n / 0x100 == 0x10000 * a + 0x100 * b + c;
    assert n / 0x10000 == 0x100 * a + b;
    assert n / 0x1000000 == a;
  }

  // ---------------------------------------------------------------- words

  /** A word is only read if 4 bytes are there; otherwise it counts as 0 and nothing is read. */
  function GetWord(b: seq<byte>): (nat, seq<byte>) {
    if |b| >= 4 then (FromBigEndian(b), b[4..]) else (0, b)
  }

  function PutWord(n: nat, k: seq<byte>): (b: seq<byte>)
    ensures n < WORD ==> GetWord(b) == (n, k)
  {
    assert n < WORD ==> FromBigEndian(BigEndian(n)) == n by {
      if n < WORD { BigEndianInverse(n); }
    }
    BigEndian(n) + k
  }

  // ---------------------------------------------------------------- strings

  predicate NulFree(s: Text) {
    0 !in s
  }

  /** The part of a buffer before its first NUL. */
  function UpToNul(b: seq<byte>): Text {
    if b == [] || b[0] == 0 then [] else [b[0]] + UpToNul(b[1..])
  }

  lemma {:induction false} UpToNulEnd(s: Text)
    requires NulFree(s)
    ensures UpToNul(s + [0]) == s
  {
    if s != [] {
      assert s[0] in s && NulFree(s[1..]);
      UpToNulEnd(s[1..]);
      assert (s + [0])[1..] == s[1..] + [0];
    }
  }

  /** A length that is 0 or beyond the unread bytes yields the empty string and reads only the length. */
  function GetText(b: seq<byte>): (Text, seq<byte>) {
    var (len, b1) := GetWord(b);
    if len == 0 || len > |b1| then ([], b1) else (UpToNul(b1[..len]), b1[len..])
  }

  predicate Sendable(s: Text) {
    NulFree(s) && |s| + 1 < WORD
  }

  function PutText(s: Text, k: seq<byte>): (b: seq<byte>)
    ensures Sendable(s) ==> GetText(b) == (s, k)
  {
    var b1 := s + [0] + k;
    assert Sendable(s) ==> UpToNul(b1[..|s| + 1]) == s && b1[|s| + 1..] == k by {
      if Sendable(s) {
        UpToNulEnd(s);
        assert b1[..|s| + 1] == s + [0];
      }
    }
    PutWord(|s| + 1, b1)
  }

  // ---------------------------------------------------------------- lists of strings

  /** Reads `count` strings, fewer if the bytes run out. */
  function GetTexts(count: nat, b: seq<byte>): (seq<Text>, seq<byte>)
    decreases count
  {
    if count == 0 then ([], b)
    else
      var (s, b1) := GetText(b);
      if b1 == [] then ([s], b1)
      else
        var (l, b2) := GetTexts(count - 1, b1);
        ([s] + l, b2)
  }

  lemma TextsUnfold(count: nat, b: seq<byte>, l: seq<Text>)
    requires count > 0
    ensures var (s, b1) := GetText(b);
            var (rest, after) := GetTexts(count, b);
      if b1 == [] then l + rest == l + [s] && after == b1
      else l + rest == l + [s] + GetTexts(count - 1, b1).0 && after == GetTexts(count - 1, b1).1
  {
    hide GetText;
    var (s, b1) := GetText(b);
    assert l + ([s] + GetTexts(count - 1, b1).0) == l + [s] + GetTexts(count - 1, b1).0;
  }

  function GetList(b: seq<byte>): (seq<Text>, seq<byte>) {
    var (count, b1) := GetWord(b);
    GetTexts(count, b1)
  }

  ghost predicate AllSendable(l: seq<Text>) {
    |l| < WORD && forall s :: s in l ==> Sendable(s)
  }

  function PutTexts(l: seq<Text>, k: seq<byte>): (b: seq<byte>)
    ensures |b| >= |k| + 4 * |l|
  {
    if l == [] then k else PutText(l[0], PutTexts(l[1..], k))
  }

  lemma TextsStep(l: seq<Text>, i: nat)
    requires i < |l|
    ensures forall k :: PutTexts(l[i..], k) == PutText(l[i], PutTexts(l[i + 1..], k))
  {
    assert l[i..][1..] == l[i + 1..];
  }

  lemma {:induction false} TextsRoundTrip(l: seq<Text>, k: seq<byte>)
    requires AllSendable(l)
    ensures GetTexts(|l|, PutTexts(l, k)) == (l, k)
  {
    hide PutText, GetText, Sendable;
    if l == [] {
      assert GetTexts(0, k) == ([], k);
    } else {
      var b1 := PutTexts(l[1..], k);
      TextsRoundTrip(l[1..], k);
      assert l[0] in l;
      assert GetText(PutTexts(l, k)) == (l[0], b1);
      assert l == [l[0]] + l[1..];
      assert b1 == [] ==> l == [l[0]] && k == [];
      assert b1 != [] ==> GetTexts(|l|, PutTexts(l, k)) == ([l[0]] + l[1..], k);
    }
  }

  function PutList(l: seq<Text>, k: seq<byte>): (b: seq<byte>)
    ensures AllSendable(l) ==> GetList(b) == (l, k)
  {
    assert AllSendable(l) ==> GetTexts(|l|, PutTexts(l, k)) == (l, k) by {
      if AllSendable(l) { TextsRoundTrip(l, k); }
    }
    PutWord(|l|, PutTexts(l, k))
  }

  // ---------------------------------------------------------------- environments

  type Environments = seq<(Text, Text)>

  function GetPairs(count: nat, b: seq<byte>): (Environments, seq<byte>)
    decreases count
  {
    if count == 0 then ([], b)
    else
      var (platform, b1) := GetText(b);
      var (version, b2) := GetText(b1);
      var (l, b3) := GetPairs(count - 1, b2);
      ([(platform, version)] + l, b3)
  }

  lemma PairsUnfold(count: nat, b: seq<byte>, l: Environments)
    requires count > 0
    ensures var (s, b1) := GetText(b);
            var (t, b2) := GetText(b1);
            var (rest, after) := GetPairs(count, b);
      l + rest == l + [(s, t)] + GetPairs(count - 1, b2).0 && after == GetPairs(count - 1, b2).1
  {
    hide GetText;
    var (s, b1) := GetText(b);
    var (t, b2) := GetText(b1);
    assert l + ([(s, t)] + GetPairs(count - 1, b2).0) == l + [(s, t)] + GetPairs(count - 1, b2).0;
  }

  function GetEnvironments(b: seq<byte>): (Environments, seq<byte>) {
    var (count, b1) := GetWord(b);
    GetPairs(count, b1)
  }

  ghost predicate SendableEnvironments(l: Environments) {
    |l| < WORD && forall e :: e in l ==> Sendable(e.0) && Sendable(e.1)
  }

  function PutPairs(l: Environments, k: seq<byte>): seq<byte> {
    if l == [] then k else PutText(l[0].0, PutText(l[0].1, PutPairs(l[1..], k)))
  }

  lemma PairsStep(l: Environments, i: nat)
    requires i < |l|
    ensures forall k :: PutPairs(l[i..], k) == PutText(l[i].0, PutText(l[i].1, PutPairs(l[i + 1..], k)))
  {
    assert l[i..][1..] == l[i + 1..];
  }

  lemma {:induction false} PairsRoundTrip(l: Environments, k: seq<byte>)
    requires SendableEnvironments(l)
    ensures GetPairs(|l|, PutPairs(l, k)) == (l, k)
  {
    hide PutText, GetText, Sendable;
    if l != [] {
      PairsRoundTrip(l[1..], k);
      assert l[0] in l;
      assert l == [(l[0].0, l[0].1)] + l[1..];
    }
  }

  function PutEnvironments(l: Environments, k: seq<byte>): (b: seq<byte>)
    ensures SendableEnvironments(l) ==> GetEnvironments(b) == (l, k)
  {
    assert SendableEnvironments(l) ==> GetPairs(|l|, PutPairs(l, k)) == (l, k) by {
      if SendableEnvironments(l) { PairsRoundTrip(l, k); }
    }
    PutWord(|l|, PutPairs(l, k))
  }

  // ---------------------------------------------------------------- flags and signed numbers

  function PutBool(v: bool, k: seq<byte>): (b: seq<byte>)
    ensures GetBool(b) == (v, k)
  {
    PutWord(if v then 1 else 0, k)
  }

  function GetBool(b: seq<byte>): (bool, seq<byte>) {
    var (n, r) := GetWord(b);
    (n != 0, r)
  }

  predicate Int32(x: int) {
    -0x8000_0000 <= x < 0x8000_0000
  }

  function ToWord(x: int): nat
    requires Int32(x)
  {
    if x < 0 then x + WORD else x
  }

  function FromWord(n: nat): int {
    if n < 0x8000_0000 then n else n - WORD
  }

  // ---------------------------------------------------------------- what follows an encoding does not change it

  lemma AppendWord(n: nat, k: seq<byte>, r: seq<byte>)
    ensures PutWord(n, k + r) == PutWord(n, k) + r
  {
    assert BigEndian(n) + (k + r) == BigEndian(n) + k + r;
  }

  lemma AppendText(s: Text, k: seq<byte>, r: seq<byte>)
    ensures PutText(s, k + r) == PutText(s, k) + r
  {
    hide PutWord;
    assert s + [0] + (k + r) == s + [0] + k + r;
    AppendWord(|s| + 1, s + [0] + k, r);
  }

  lemma {:induction false} AppendTexts(l: seq<Text>, k: seq<byte>, r: seq<byte>)
    ensures PutTexts(l, k + r) == PutTexts(l, k) + r
  {
    hide PutText;
    if l != [] {
      AppendTexts(l[1..], k, r);
      AppendText(l[0], PutTexts(l[1..], k), r);
    }
  }

  lemma AppendList(l: seq<Text>, k: seq<byte>, r: seq<byte>)
    ensures PutList(l, k + r) == PutList(l, k) + r
  {
    hide PutWord, PutTexts;
    AppendTexts(l, k, r);
    AppendWord(|l|, PutTexts(l, k), r);
  }

  lemma {:induction false} AppendPairs(l: Environments, k: seq<byte>, r: seq<byte>)
    ensures PutPairs(l, k + r) == PutPairs(l, k) + r
  {
    hide PutText;
    if l != [] {
      AppendPairs(l[1..], k, r);
      AppendText(l[0].1, PutPairs(l[1..], k), r);
      AppendText(l[0].0, PutText(l[0].1, PutPairs(l[1..], k)), r);
    }
  }

  lemma AppendEnvironments(l: Environments, k: seq<byte>, r: seq<byte>)
    ensures PutEnvironments(l, k + r) == PutEnvironments(l, k) + r
  {
    hide PutWord, PutPairs;
    AppendPairs(l, k, r);
    AppendWord(|l|, PutPairs(l, k), r);
  }

  lemma AppendAll()
    ensures forall n: nat, k: seq<byte>, r: seq<byte> {:trigger PutWord(n, k + r)} :: PutWord(n, k + r) == PutWord(n, k) + r
    ensures forall s: Text, k: seq<byte>, r: seq<byte> {:trigger PutText(s, k + r)} :: PutText(s, k + r) == PutText(s, k) + r
    ensures forall v: bool, k: seq<byte>, r: seq<byte> {:trigger PutBool(v, k + r)} :: PutBool(v, k + r) == PutBool(v, k) + r
  {
    hide PutWord, PutText;
    forall n: nat, k: seq<byte>, r: seq<byte> ensures PutWord(n, k + r) == PutWord(n, k) + r { AppendWord(n, k, r); }
    forall s: Text, k: seq<byte>, r: seq<byte> ensures PutText(s, k + r) == PutText(s, k) + r { AppendText(s, k, r); }
  }

  lemma AppendLists()
    ensures forall l: seq<Text>, k: seq<byte>, r: seq<byte> {:trigger PutList(l, k + r)} :: PutList(l, k + r) == PutList(l, k) + r
    ensures forall l: Environments, k: seq<byte>, r: seq<byte> {:trigger PutEnvironments(l, k + r)} ::
      PutEnvironments(l, k + r) == PutEnvironments(l, k) + r
  {
    hide PutList, PutEnvironments;
    forall l: seq<Text>, k: seq<byte>, r: seq<byte> ensures PutList(l, k + r) == PutList(l, k) + r { AppendList(l, k, r); }
    forall l: Environments, k: seq<byte>, r: seq<byte> ensures PutEnvironments(l, k + r) == PutEnvironments(l, k) + r {
      AppendEnvironments(l, k, r);
    }
  }
}
