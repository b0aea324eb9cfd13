/** The bodies of the protocol's version-dependent messages (services/comm.cpp, services/job.cpp). `p` is the
    negotiated protocol version. For each body: how it is written, how it is read, and what the reader sees. */
module Messages {
  import opened Common
  import opened Wire

  // ---------------------------------------------------------------- file names

  const SLASH: byte := 47

  /** Position of the last slash at or before `pos`, or -1; a negative `pos` means the whole string. */
  function LastSlash(s: Text, pos: int): (r: int)
    ensures -1 <= r < |s|
    ensures r >= 0 ==> s[r] == SLASH
    ensures pos >= 0 ==> r <= pos
  {
    SlashFrom(s, if 0 <= pos < |s| then pos else |s| - 1)
  }

  function SlashFrom(s: Text, k: int): (r: int)
    requires -1 <= k < |s|
    ensures -1 <= r <= k && (r >= 0 ==> s[r] == SLASH)
  {
    if k < 0 || s[k] == SLASH then k else SlashFrom(s, k - 1)
  }

  lemma {:induction false} SlashFromIs(s: Text, k: int)
    requires -1 <= k < |s|
    ensures forall i :: SlashFrom(s, k) < i <= k ==> s[i] != SLASH
  {
    if k >= 0 && s[k] != SLASH { SlashFromIs(s, k - 1); }
  }

  /** There is no slash between the position found and the one where the search started. */
  lemma LastSlashFacts(s: Text, pos: int)
    ensures forall i :: LastSlash(s, pos) < i < |s| && (pos < 0 || i <= pos) ==> s[i] != SLASH
  {
    SlashFromIs(s, if 0 <= pos < |s| then pos else |s| - 1);
  }

  /** The next slash to the left. From position 0 the source's position wraps around and the search starts over. */
  function SlashBefore(s: Text, ofs: int): (r: int)
    requires -1 <= ofs < |s|
    ensures -1 <= r < |s|
  {
    if ofs < 0 then ofs else LastSlash(s, ofs - 1)
  }

  function Shorten(s: Text): Text {
    s[SlashBefore(s, SlashBefore(s, LastSlash(s, -1))) + 1..]
  }

  method ShortenFilename(s: Text) returns (r: Text)
    ensures r == Shorten(s)
  {
    var ofs := LastSlash(s, -1);
    var i := 2;
    while i > 0
      invariant 0 <= i <= 2 && -1 <= ofs < |s|
      invariant i == 2 ==> ofs == LastSlash(s, -1)
      invariant i == 1 ==> ofs == SlashBefore(s, LastSlash(s, -1))
      invariant i == 0 ==> ofs == SlashBefore(s, SlashBefore(s, LastSlash(s, -1)))
    {
      if ofs >= 0 {
        ofs := LastSlash(s, ofs - 1);
      }
      i := i - 1;
    }
    return s[ofs + 1..];
  }

  function Slashes(s: Text): nat {
    if s == [] then 0 else (if s[0] == SLASH then 1 else 0) + Slashes(s[1..])
  }

  /** The part behind the last slash. */
  function BaseName(s: Text): Text {
    s[LastSlash(s, -1) + 1..]
  }

  lemma {:induction false} NoSlashes(s: Text)
    requires SLASH !in s
    ensures Slashes(s) == 0
  {
    if s != [] { NoSlashes(s[1..]); }
  }

  lemma {:induction false} SlashesSplit(s: Text, k: nat)
    requires k <= |s|
    ensures Slashes(s) == Slashes(s[..k]) + Slashes(s[k..])
  {
    if k > 0 {
      SlashesSplit(s[1..], k - 1);
      assert s[..k][1..] == s[1..][..k - 1] && s[k..] == s[1..][k - 1..];
    } else {
      assert s[0..] == s;
    }
  }

  lemma NoSlashWithin(s: Text, m: nat, n: nat)
    requires m <= n <= |s| && forall i :: m <= i < n ==> s[i] != SLASH
    ensures SLASH !in s[m..n]
  {
  }

  /** The number of slashes behind a position. */
  function SlashesBehind(s: Text, ofs: int): nat
    requires -1 <= ofs < |s|
  {
    Slashes(s[ofs + 1..])
  }

  lemma BeforeIs(s: Text, ofs: nat)
    requires ofs < |s| && s[ofs] == SLASH
    ensures var r := SlashBefore(s, ofs);
      && r <= LastSlash(s, -1) && (r >= 0 ==> s[r] == SLASH)
      && (ofs == 0 ==> r == LastSlash(s, -1))
      && (ofs > 0 ==> r < ofs && SLASH !in s[r + 1..ofs])
      && (ofs > 0 && r < 0 ==> s[0] != SLASH)
  {
    LastSlashFacts(s, -1);
    if ofs > 0 {
      LastSlashFacts(s, ofs - 1);
      NoSlashWithin(s, LastSlash(s, ofs - 1) + 1, ofs);
    }
  }

  /** The step to the left adds one slash, unless it starts at position 0. */
  lemma BeforeAddsOne(s: Text, ofs: nat)
    requires ofs < |s| && s[ofs] == SLASH
    ensures var r := SlashBefore(s, ofs);
      && r <= LastSlash(s, -1) && (r >= 0 ==> s[r] == SLASH)
      && (ofs > 0 ==> r < ofs && SlashesBehind(s, r) == SlashesBehind(s, ofs) + 1)
      && (ofs > 0 && r < 0 ==> s[0] != SLASH)
      && (ofs == 0 ==> SlashesBehind(s, r) == 0)
  {
    hide Slashes, SlashBefore, LastSlash;
    var r := SlashBefore(s, ofs);
    BeforeIs(s, ofs);
    if ofs > 0 {
      SkipTo(s, r + 1, ofs);
      SlashAt(s, ofs);
    } else {
      LastHasNone(s);
    }
  }

  lemma SkipTo(s: Text, m: nat, n: nat)
    requires m <= n <= |s| && SLASH !in s[m..n]
    ensures Slashes(s[m..]) == Slashes(s[n..])
  {
    hide Slashes;
    SlashesSplit(s[m..], n - m);
    NoSlashes(s[m..n]);
    SliceTwice(s, m, n - m);
    assert s[m..][..n - m] == s[m..n];
  }

  lemma SlashAt(s: Text, k: nat)
    requires k < |s| && s[k] == SLASH
    ensures Slashes(s[k..]) == 1 + Slashes(s[k + 1..])
  {
    SliceTwice(s, k, 1);
  }

  lemma LastAt(t: Text, l: int)
    requires -1 <= l < |t| && (l >= 0 ==> t[l] == SLASH) && forall i :: l < i < |t| ==> t[i] != SLASH
    ensures LastSlash(t, -1) == l
  {
    LastSlashFacts(t, -1);
  }

  lemma LastSlashIs(t: Text, l: int)
    requires -1 <= l < |t| && (l >= 0 ==> t[l] == SLASH) && SLASH !in t[l + 1..]
    ensures LastSlash(t, -1) == l && BaseName(t) == t[l + 1..]
  {
    hide LastSlash, BaseName;
    BaseIs(t);
    assert LastSlash(t, -1) == l by {
      NoSlashBehind(t, l);
      LastAt(t, l);
    }
  }

  lemma NoSlashBehind(t: Text, l: int)
    requires -1 <= l < |t| && SLASH !in t[l + 1..]
    ensures forall i :: l < i < |t| ==> t[i] != SLASH
  {
    forall i | l < i < |t| ensures t[i] != SLASH {
      assert t[l + 1..][i - l - 1] == t[i];
    }
  }

  lemma LastSlashEnds(s: Text)
    ensures SLASH !in s[LastSlash(s, -1) + 1..] && (LastSlash(s, -1) >= 0 ==> s[LastSlash(s, -1)] == SLASH)
  {
    var a := LastSlash(s, -1);
    LastSlashFacts(s, -1);
    NoSlashWithin(s, a + 1, |s|);
    assert s[a + 1..|s|] == s[a + 1..];
  }

  lemma TailEnds(s: Text, m: nat, a: int, t: Text, l: int)
    requires m <= |s| && t == s[m..] && -1 <= l && a == m + l < |s|
    ensures t[l + 1..] == s[a + 1..] && (l >= 0 ==> t[l] == s[a])
  {
  }

  lemma TailBaseName(s: Text, c: int)
    requires -1 <= c <= LastSlash(s, -1)
    ensures BaseName(s[c + 1..]) == BaseName(s)
  {
    hide LastSlash, BaseName;
    var a := LastSlash(s, -1);
    BaseIs(s);
    LastSlashEnds(s);
    TailBase(s, c + 1, a, a - c - 1);
  }

  lemma TailBase(s: Text, m: nat, a: int, l: int)
    requires m <= |s| && -1 <= l && a == m + l < |s| && SLASH !in s[a + 1..] && (l >= 0 ==> s[a] == SLASH)
    ensures BaseName(s[m..]) == s[a + 1..]
  {
    hide LastSlash, BaseName;
    TailEnds(s, m, a, s[m..], l);
    TailIs(s, s[m..], a, l);
  }

  lemma BaseIs(s: Text)
    ensures BaseName(s) == s[LastSlash(s, -1) + 1..]
  {
  }

  lemma TailIs(s: Text, t: Text, a: int, l: int)
    requires -1 <= l < |t| && -1 <= a < |s| && t[l + 1..] == s[a + 1..] && SLASH !in s[a + 1..] && (l >= 0 ==> t[l] == SLASH)
    ensures BaseName(t) == s[a + 1..]
  {
    hide LastSlash, BaseName;
    LastSlashIs(t, l);
  }

  lemma SliceTwice(s: Text, m: nat, n: nat)
    requires m + n <= |s|
    ensures s[m..][n..] == s[m + n..]
  {
  }

  lemma NoSlashAtAll(s: Text)
    requires Slashes(s) == 0
    ensures LastSlash(s, -1) == -1
  {
    var a := LastSlash(s, -1);
    hide LastSlash;
    SlashesSplit(s, if a < 0 then 0 else a);
  }

  lemma LastHasNone(s: Text)
    ensures SlashesBehind(s, LastSlash(s, -1)) == 0
  {
    hide Slashes, LastSlash;
    LastSlashEnds(s);
    NoSlashes(s[LastSlash(s, -1) + 1..]);
  }

  lemma BeforeNone(s: Text)
    ensures SlashBefore(s, -1) == -1
  {
  }

  lemma AllBehind(s: Text)
    ensures SlashesBehind(s, -1) == Slashes(s)
  {
    assert s[0..] == s;
  }

  /** How many directories the shortened name keeps: two, or those there are, or none if the walk starts over. */
  lemma ShortenCounts(s: Text)
    ensures var a := LastSlash(s, -1);
      var b := SlashBefore(s, a);
      var c := SlashBefore(s, b);
      && c <= a && (c >= 0 ==> s[c] == SLASH)
      && SlashesBehind(s, c) == (if b > 0 then 2 else if b == 0 then 0 else if a > 0 then 1 else 0)
      && (b > 0 > c ==> s[0] != SLASH) && (a > 0 > b ==> s[0] != SLASH && b == c) && (a > 0 ==> SlashesBehind(s, b) == 1)
      && (a == 0 ==> b == 0) && (a < 0 ==> b == c == -1)
  {
    hide SlashesBehind, LastSlash, SlashBefore;
    var a := LastSlash(s, -1);
    var b := SlashBefore(s, a);
    LastHasNone(s);
    LastStarts(s);
    BeforeNone(s);
    if a >= 0 {
      BeforeAddsOne(s, a);
      if a == 0 { StartsOver(s); }
      if b >= 0 { BeforeAddsOne(s, b); }
    }
  }

  /** The shortened name is a tail of the name, ends in the same base name and has at most two directories. */
  lemma ShortenKeepsName(s: Text)
    ensures |Shorten(s)| <= |s| && Shorten(s) == s[|s| - |Shorten(s)|..]
    ensures BaseName(Shorten(s)) == BaseName(s)
    ensures Slashes(Shorten(s)) <= 2
    ensures Slashes(s) == 0 ==> Shorten(s) == s
  {
    hide Slashes, BaseName, LastSlash, SlashBefore, SlashesBehind, Shorten;
    var c := SlashBefore(s, SlashBefore(s, LastSlash(s, -1)));
    ShortenIs(s);
    ShortenCounts(s);
    ShortenTail(s, c);
    TailBaseName(s, c);
    if Slashes(s) == 0 {
      NoSlashAtAll(s);
      BeforeNone(s);
    }
  }

  lemma ShortenTail(s: Text, c: int)
    requires c == SlashBefore(s, SlashBefore(s, LastSlash(s, -1)))
    ensures Shorten(s) == s[c + 1..] && (c == -1 ==> Shorten(s) == s)
    ensures |Shorten(s)| <= |s| && Shorten(s) == s[|s| - |Shorten(s)|..]
  {
    hide LastSlash, SlashBefore;
  }

  /** The slashes up to position `k`. */
  lemma SlashesFrom(s: Text, k: nat)
    requires k < |s| && s[k] == SLASH
    ensures Slashes(s) >= 1 + SlashesBehind(s, k)
    ensures k == 0 ==> Slashes(s) == 1 + SlashesBehind(s, 0)
  {
    hide Slashes;
    SlashesSplit(s, k);
    SlashAt(s, k);
    if k == 0 { assert s[0..] == s; }
  }

  lemma LastStarts(s: Text)
    ensures LastSlash(s, -1) < 0 ==> s == [] || s[0] != SLASH
    ensures LastSlash(s, -1) >= 0 ==> s[LastSlash(s, -1)] == SLASH
  {
    LastSlashFacts(s, -1);
  }

  /** As many of the last two directories as there are are kept if and only if the name does not start with a slash
      or has a third one. */
  lemma ShortenExact(s: Text)
    ensures Slashes(Shorten(s)) == Min(2, Slashes(s)) <==> s == [] || s[0] != SLASH || Slashes(s) >= 3
  {
    hide Slashes, LastSlash, SlashBefore, Shorten, SlashesBehind;
    var a := LastSlash(s, -1);
    var b := SlashBefore(s, a);
    var c := SlashBefore(s, b);
    ShortenCounts(s);
    ShortenIs(s);
    AllBehind(s);
    LastStarts(s);
    LastHasNone(s);
    if b == 0 { FirstIs(s, a, b); }
    if b == 0 { SlashesFrom(s, 0); }
    if c >= 0 { SlashesFrom(s, c); }
  }

  lemma FirstIs(s: Text, a: int, b: int)
    requires -1 <= a < |s| && b == SlashBefore(s, a) == 0
    ensures s[0] == SLASH
  {
  }

  lemma ShortenIs(s: Text)
    ensures Slashes(Shorten(s)) == SlashesBehind(s, SlashBefore(s, SlashBefore(s, LastSlash(s, -1))))
  {
  }

  lemma StartsOver(s: Text)
    requires s != [] && s[0] == SLASH
    ensures SlashBefore(s, 0) == LastSlash(s, -1)
  {
  }

  lemma SlashesOfFour(s: Text)
    requires |s| == 4 && s[0] == s[2] == SLASH && s[1] != SLASH && s[3] != SLASH
    ensures LastSlash(s, -1) == 2 && LastSlash(s, 1) == 0
  {
    assert SlashFrom(s, 3) == SlashFrom(s, 2) == 2;
    assert SlashFrom(s, 1) == SlashFrom(s, 0) == 0;
  }

  /** "/a/b" becomes "b". */
  lemma ShortenLoses()
    ensures var a: byte, b: byte := 97, 98; Shorten([SLASH, a, SLASH, b]) == [b]
  {
    var a: byte, b: byte := 97, 98;
    var s := [SLASH, a, SLASH, b];
    assert s[0] == SLASH && s[1] == a && s[2] == SLASH && s[3] == b;
    SlashesOfFour(s);
    hide LastSlash;
    StartsOver(s);
    assert SlashBefore(s, 2) == 0;
    assert s[3..] == [b];
  }

  // ---------------------------------------------------------------- compiler flags

  datatype ArgumentType = Local | Remote | Rest

  type Flags = seq<(Text, ArgumentType)>

  function OfType(flags: Flags, t: ArgumentType): seq<Text> {
    if flags == [] then []
    else (if flags[0].1 == t then [flags[0].0] else []) + OfType(flags[1..], t)
  }

  function NonLocal(flags: Flags): seq<Text> {
    if flags == [] then []
    else (if flags[0].1 != Local then [flags[0].0] else []) + NonLocal(flags[1..])
  }

  lemma FlagsStep(flags: Flags, t: ArgumentType, i: nat)
    requires i < |flags|
    ensures OfType(flags[i..], t) == (if flags[i].1 == t then [flags[i].0] else []) + OfType(flags[i + 1..], t)
    ensures NonLocal(flags[i..]) == (if flags[i].1 != Local then [flags[i].0] else []) + NonLocal(flags[i + 1..])
  {
    assert flags[i..][1..] == flags[i + 1..];
  }

  lemma FlagsEnds(flags: Flags, t: ArgumentType)
    ensures flags[0..] == flags && OfType(flags[|flags|..], t) == [] && OfType([], t) == []
  {
  }

  method FlagsOf(flags: Flags, t: ArgumentType) returns (args: seq<Text>)
    ensures args == OfType(flags, t)
  {
    hide OfType, NonLocal;
    args := [];
    FlagsEnds(flags, t);
    for i := 0 to |flags|
      invariant OfType(flags, t) == args + OfType(flags[i..], t)
    {
      FlagsStep(flags, t, i);
      if flags[i].1 == t {
        args := args + [flags[i].0];
      }
    }
  }

  method NonLocalFlags(flags: Flags) returns (args: seq<Text>)
    ensures args == NonLocal(flags)
  {
    args := [];
    assert flags[0..] == flags;
    for i := 0 to |flags|
      invariant NonLocal(flags) == args + NonLocal(flags[i..])
    {
      FlagsStep(flags, Local, i);
      if flags[i].1 != Local {
        args := args + [flags[i].0];
      }
    }
  }

  function Tagged(args: seq<Text>, t: ArgumentType): Flags {
    if args == [] then [] else [(args[0], t)] + Tagged(args[1..], t)
  }

  /** Flags of one class, flattened and tagged again with that class, are those flags in their order. */
  lemma {:induction false} TaggedInverse(args: seq<Text>, t: ArgumentType)
    ensures OfType(Tagged(args, t), t) == args
    ensures t != Local ==> NonLocal(Tagged(args, t)) == args
    ensures forall u :: u != t ==> OfType(Tagged(args, t), u) == []
  {
    if args != [] {
      TaggedInverse(args[1..], t);
      var k := Tagged(args[1..], t);
      assert ([(args[0], t)] + k)[1..] == k;
      assert [args[0]] + args[1..] == args;
    }
  }

  // ---------------------------------------------------------------- GetCS

  datatype GetCS = GetCS(
    versions: Environments,
    filename: Text,
    lang: nat,
    count: nat,
    target: Text,
    argFlags: nat,
    clientId: nat,
    preferredHost: Text,
    minimalHostVersion: int,
    clientCount: nat,
    requiredFeatures: nat,
    niceness: nat)

  ghost predicate GetCSSendable(m: GetCS) {
    && SendableEnvironments(m.versions) && Sendable(m.filename) && Sendable(m.target) && Sendable(m.preferredHost)
    && m.lang < WORD && m.count < WORD && m.argFlags < WORD && m.clientId < WORD && Int32(m.minimalHostVersion)
    && m.clientCount < WORD && m.requiredFeatures < WORD && m.niceness < WORD
  }

  function PutGetCS(m: GetCS, p: nat, k: seq<byte>): seq<byte>
    requires Int32(m.minimalHostVersion)
  {
    PutEnvironments(m.versions, PutText(Shorten(m.filename), PutWord(m.lang, PutWord(m.count, PutText(m.target,
    PutWord(m.argFlags, PutWord(m.clientId, PutGetCSHost(m, p, k))))))))
  }

  function PutGetCSHost(m: GetCS, p: nat, k: seq<byte>): seq<byte>
    requires Int32(m.minimalHostVersion)
  {
    var k43 := if p >= 43 then PutWord(m.niceness, k) else k;
    var k42 := if p >= 42 then PutWord(m.requiredFeatures, k43) else k43;
    var k39 := if p >= 39 then PutWord(m.clientCount, k42) else k42;
    var k34 := if p >= 34 then PutWord(ToWord(m.minimalHostVersion), k39) else k39;
    var k31 := if p >= 31 then PutWord(if m.minimalHostVersion >= 31 then 1 else 0, k34) else k34;
    if p >= 22 then PutText(m.preferredHost, k31) else k31
  }

  function GetGetCS(b: seq<byte>, p: nat): (GetCS, seq<byte>) {
    var (versions, b1) := GetEnvironments(b);
    var (filename, b2) := GetText(b1);
    var (lang, b3) := GetWord(b2);
    var (count, b4) := GetWord(b3);
    var (target, b5) := GetText(b4);
    var (argFlags, b6) := GetWord(b5);
    var (clientId, b7) := GetWord(b6);
    var (host, b8) := GetGetCSHost(b7, p);
    (GetCS(versions, filename, lang, count, target, argFlags, clientId,
           host.host, host.minimal, host.clients, host.features, host.niceness), b8)
  }

  datatype GetCSHost = GetCSHost(host: Text, minimal: int, clients: nat, features: nat, niceness: nat)

  /** The fields that not every version carries, with the reader's values for those that are missing. */
  function GetGetCSHost(b: seq<byte>, p: nat): (GetCSHost, seq<byte>) {
    var (host, b1) := if p >= 22 then GetText(b) else ([], b);
    var (ign, b2) := if p >= 31 then GetWord(b1) else (0, b1);
    var minimal := if ign != 0 then 31 else 0;
    var (version, b3) := if p >= 34 then GetWord(b2) else (0, b2);
    var minimal' := if p >= 34 then Max(minimal, FromWord(version)) else minimal;
    var (clients, b4) := if p >= 39 then GetWord(b3) else (0, b3);
    var (features, b5) := if p >= 42 then GetWord(b4) else (0, b4);
    var (niceness, b6) := if p >= 43 then GetWord(b5) else (0, b5);
    (GetCSHost(host, minimal', clients, features, niceness), b6)
  }

  /** The minimal version: exact from protocol 34 on, coarsened to 31 or nothing in 31 to 33, lost before. */
  function SeenMinimal(v: int, p: nat): int {
    if p >= 34 then Max(0, v) else if p >= 31 && v >= 31 then 31 else 0
  }

  function SeenGetCS(m: GetCS, p: nat): GetCS {
    m.(filename := Shorten(m.filename),
       preferredHost := if p >= 22 then m.preferredHost else [],
       minimalHostVersion := SeenMinimal(m.minimalHostVersion, p),
       clientCount := if p >= 39 then m.clientCount else 0,
       requiredFeatures := if p >= 42 then m.requiredFeatures else 0,
       niceness := if p >= 43 then m.niceness else 0)
  }

  lemma WordInverse(x: int)
    requires Int32(x)
    ensures ToWord(x) < WORD && FromWord(ToWord(x)) == x
    ensures x >= 0 ==> ToWord(x) == x
  {
  }

  lemma GetCSHostRoundTrip(m: GetCS, p: nat, k: seq<byte>)
    requires GetCSSendable(m)
    ensures var s := SeenGetCS(m, p);
      GetGetCSHost(PutGetCSHost(m, p, k), p)
      == (GetCSHost(s.preferredHost, s.minimalHostVersion, s.clientCount, s.requiredFeatures, s.niceness), k)
  {
    hide PutWord, GetWord, PutText, GetText, Shorten, ToWord, FromWord, SendableEnvironments;
    WordInverse(m.minimalHostVersion);
  }

  lemma ShortenSendable(s: Text)
    requires Sendable(s)
    ensures Sendable(Shorten(s))
  {
    ShortenKeepsName(s);
  }

  lemma GetCSRoundTrip(m: GetCS, p: nat, k: seq<byte>)
    requires GetCSSendable(m)
    ensures GetGetCS(PutGetCS(m, p, k), p) == (SeenGetCS(m, p), k)
  {
    GetCSHostRoundTrip(m, p, k);
    ShortenSendable(m.filename);
    hide PutWord, GetWord, PutText, GetText, Shorten, Sendable, SendableEnvironments, PutEnvironments, GetEnvironments,
      PutGetCSHost, GetGetCSHost, ToWord, SeenMinimal;
  }

  // ---------------------------------------------------------------- UseCS

  datatype UseCS = UseCS(
    jobId: nat, port: nat, hostname: Text, hostPlatform: Text, gotEnv: nat, clientId: nat, matchedJobId: nat)

  predicate UseCSSendable(m: UseCS) {
    && Sendable(m.hostname) && Sendable(m.hostPlatform)
    && m.jobId < WORD && m.port < WORD && m.gotEnv < WORD && m.clientId < WORD && m.matchedJobId < WORD
  }

  function PutUseCS(m: UseCS, p: nat, k: seq<byte>): seq<byte> {
    var k28 := if p >= 28 then PutWord(m.matchedJobId, k) else k;
    PutWord(m.jobId, PutWord(m.port, PutText(m.hostname, PutText(m.hostPlatform, PutWord(m.gotEnv, PutWord(m.clientId, k28))))))
  }

  function GetUseCS(b: seq<byte>, p: nat): (UseCS, seq<byte>) {
    var (jobId, b1) := GetWord(b);
    var (port, b2) := GetWord(b1);
    var (hostname, b3) := GetText(b2);
    var (hostPlatform, b4) := GetText(b3);
    var (gotEnv, b5) := GetWord(b4);
    var (clientId, b6) := GetWord(b5);
    var (matched, b7) := if p >= 28 then GetWord(b6) else (0, b6);
    (UseCS(jobId, port, hostname, hostPlatform, gotEnv, clientId, matched), b7)
  }

  function SeenUseCS(m: UseCS, p: nat): UseCS {
    m.(matchedJobId := if p >= 28 then m.matchedJobId else 0)
  }

  lemma UseCSRoundTrip(m: UseCS, p: nat, k: seq<byte>)
    requires UseCSSendable(m)
    ensures GetUseCS(PutUseCS(m, p, k), p) == (SeenUseCS(m, p), k)
  {
    hide PutWord, GetWord, PutText, GetText, Sendable;
  }

  // ---------------------------------------------------------------- JobDone

  datatype JobStats = JobStats(
    realMsec: nat, userMsec: nat, sysMsec: nat, pfaults: nat,
    inCompressed: nat, inUncompressed: nat, outCompressed: nat, outUncompressed: nat)

  datatype JobDone = JobDone(jobId: nat, exitcode: int, stats: JobStats, flags: nat, clientCount: nat)

  const UNKNOWN_JOB_EXIT := 200

  /** The flag that marks the id as a client id. */
  predicate Unknown(flags: nat) {
    flags / 2 % 2 == 1
  }

  function MarkUnknown(flags: nat): (r: nat)
    ensures Unknown(r)
    ensures r == flags || r == flags + 2
  {
    if Unknown(flags) then flags else flags + 2
  }

  predicate StatsSendable(s: JobStats) {
    && s.realMsec < WORD && s.userMsec < WORD && s.sysMsec < WORD && s.pfaults < WORD
    && s.inCompressed < WORD && s.inUncompressed < WORD && s.outCompressed < WORD && s.outUncompressed < WORD
  }

  predicate JobDoneSendable(m: JobDone) {
    m.jobId < WORD && Int32(m.exitcode) && StatsSendable(m.stats) && m.flags < WORD && m.clientCount < WORD
  }

  function PutStats(s: JobStats, k: seq<byte>): seq<byte> {
    PutWord(s.realMsec, PutWord(s.userMsec, PutWord(s.sysMsec, PutWord(s.pfaults,
    PutWord(s.inCompressed, PutWord(s.inUncompressed, PutWord(s.outCompressed, PutWord(s.outUncompressed, k))))))))
  }

  function GetStats(b: seq<byte>): (JobStats, seq<byte>) {
    var (realMs, b1) := GetWord(b);
    var (user, b2) := GetWord(b1);
    var (sys, b3) := GetWord(b2);
    var (pfaults, b4) := GetWord(b3);
    var (inC, b5) := GetWord(b4);
    var (inU, b6) := GetWord(b5);
    var (outC, b7) := GetWord(b6);
    var (outU, b8) := GetWord(b7);
    (JobStats(realMs, user, sys, pfaults, inC, inU, outC, outU), b8)
  }

  lemma StatsRoundTrip(s: JobStats, k: seq<byte>)
    requires StatsSendable(s)
    ensures GetStats(PutStats(s, k)) == (s, k)
  {
    hide PutWord, GetWord;
  }

  /** Before protocol 39 exit code 200 stood for a job of unknown id. */
  function ExitWord(m: JobDone, p: nat): nat
    requires Int32(m.exitcode)
  {
    if p < 39 && Unknown(m.flags) then UNKNOWN_JOB_EXIT else ToWord(m.exitcode)
  }

  function SeenFlags(flags: nat, exitcode: int, p: nat): nat {
    if p < 39 && exitcode == UNKNOWN_JOB_EXIT then MarkUnknown(flags) else flags
  }

  lemma ExitSeen(m: JobDone, p: nat)
    requires Int32(m.exitcode)
    ensures ExitWord(m, p) < WORD && FromWord(ExitWord(m, p)) == SeenJobDone(m, p).exitcode
    ensures SeenFlags(m.flags, SeenJobDone(m, p).exitcode, p) == SeenJobDone(m, p).flags
  {
  }

  function PutJobDone(m: JobDone, p: nat, k: seq<byte>): seq<byte>
    requires Int32(m.exitcode)
  {
    var k39 := if p >= 39 then PutWord(m.clientCount, k) else k;
    PutWord(m.jobId, PutWord(ExitWord(m, p), PutStats(m.stats, PutWord(m.flags, k39))))
  }

  function GetJobDone(b: seq<byte>, p: nat): (JobDone, seq<byte>) {
    var (jobId, b1) := GetWord(b);
    var (code, b2) := GetWord(b1);
    var (stats, b3) := GetStats(b2);
    var (flags, b4) := GetWord(b3);
    var exitcode := FromWord(code);
    var (clients, b5) := if p >= 39 then GetWord(b4) else (0, b4);
    (JobDone(jobId, exitcode, stats, SeenFlags(flags, exitcode, p), clients), b5)
  }

  function SeenJobDone(m: JobDone, p: nat): JobDone {
    if p >= 39 then m
    else if Unknown(m.flags) then m.(exitcode := UNKNOWN_JOB_EXIT, clientCount := 0)
    else if m.exitcode == UNKNOWN_JOB_EXIT then m.(flags := MarkUnknown(m.flags), clientCount := 0)
    else m.(clientCount := 0)
  }

  lemma JobDoneRoundTrip(m: JobDone, p: nat, k: seq<byte>)
    requires JobDoneSendable(m)
    ensures GetJobDone(PutJobDone(m, p, k), p) == (SeenJobDone(m, p), k)
  {
    hide PutWord, GetWord, PutStats, GetStats, ExitWord, FromWord, SeenFlags, StatsSendable;
    ExitSeen(m, p);
    StatsRoundTrip(m.stats, PutWord(m.flags, if p >= 39 then PutWord(m.clientCount, k) else k));
  }

  /** Before protocol 39 the reader takes exactly two kinds of job ends for ends of unknown jobs: those that
      are, and those of a compiler that exited with 200. */
  lemma JobDoneKind(m: JobDone, p: nat)
    requires JobDoneSendable(m)
    ensures Unknown(SeenJobDone(m, p).flags) <==> Unknown(m.flags) || (p < 39 && m.exitcode == UNKNOWN_JOB_EXIT)
    ensures SeenJobDone(m, p).exitcode == m.exitcode <==> p >= 39 || !Unknown(m.flags) || m.exitcode == UNKNOWN_JOB_EXIT
    ensures SeenJobDone(m, p).jobId == m.jobId && SeenJobDone(m, p).stats == m.stats
    ensures SeenJobDone(m, p).flags % 2 == m.flags % 2
  {
  }

  // ---------------------------------------------------------------- JobLocalBegin

  datatype JobLocalBegin = JobLocalBegin(stime: nat, outfile: Text, id: nat, fulljob: bool, niceness: nat)

  predicate JobLocalBeginSendable(m: JobLocalBegin) {
    m.stime < WORD && Sendable(m.outfile) && m.id < WORD && m.niceness < WORD
  }

  function PutJobLocalBegin(m: JobLocalBegin, p: nat, k: seq<byte>): seq<byte> {
    var k45 := if p >= 45 then PutWord(m.niceness, k) else k;
    var k44 := if p >= 44 then PutBool(m.fulljob, k45) else k45;
    PutWord(m.stime, PutText(m.outfile, PutWord(m.id, k44)))
  }

  function GetJobLocalBegin(b: seq<byte>, p: nat): (JobLocalBegin, seq<byte>) {
    var (stime, b1) := GetWord(b);
    var (outfile, b2) := GetText(b1);
    var (id, b3) := GetWord(b2);
    var (full, b4) := if p >= 44 then GetBool(b3) else (false, b3);
    var (niceness, b5) := if p >= 45 then GetWord(b4) else (0, b4);
    (JobLocalBegin(stime, outfile, id, full, niceness), b5)
  }

  function SeenJobLocalBegin(m: JobLocalBegin, p: nat): JobLocalBegin {
    m.(fulljob := p >= 44 && m.fulljob, niceness := if p >= 45 then m.niceness else 0)
  }

  lemma JobLocalBeginRoundTrip(m: JobLocalBegin, p: nat, k: seq<byte>)
    requires JobLocalBeginSendable(m)
    ensures GetJobLocalBegin(PutJobLocalBegin(m, p, k), p) == (SeenJobLocalBegin(m, p), k)
  {
    hide PutWord, GetWord, PutText, GetText, PutBool, GetBool, Sendable;
  }

  // ---------------------------------------------------------------- Login

  datatype Login = Login(
    port: nat, maxKids: nat, envs: Environments, nodename: Text, hostPlatform: Text,
    chrootPossible: bool, noremote: bool, supportedFeatures: nat)

  ghost predicate LoginSendable(m: Login) {
    && m.port < WORD && m.maxKids < WORD && SendableEnvironments(m.envs) && Sendable(m.nodename)
    && Sendable(m.hostPlatform) && m.supportedFeatures < WORD
  }

  function PutLogin(m: Login, p: nat, k: seq<byte>): seq<byte> {
    var k42 := if p >= 42 then PutWord(m.supportedFeatures, k) else k;
    var k26 := if p >= 26 then PutBool(m.noremote, k42) else k42;
    PutWord(m.port, PutWord(m.maxKids, PutEnvironments(m.envs, PutText(m.nodename, PutText(m.hostPlatform,
    PutBool(m.chrootPossible, k26))))))
  }

  function GetLogin(b: seq<byte>, p: nat): (Login, seq<byte>) {
    var (port, b1) := GetWord(b);
    var (maxKids, b2) := GetWord(b1);
    var (envs, b3) := GetEnvironments(b2);
    var (nodename, b4) := GetText(b3);
    var (hostPlatform, b5) := GetText(b4);
    var (chroot, b6) := GetBool(b5);
    var (noremote, b7) := if p >= 26 then GetBool(b6) else (false, b6);
    var (features, b8) := if p >= 42 then GetWord(b7) else (0, b7);
    (Login(port, maxKids, envs, nodename, hostPlatform, chroot, noremote, features), b8)
  }

  function SeenLogin(m: Login, p: nat): Login {
    m.(noremote := p >= 26 && m.noremote, supportedFeatures := if p >= 42 then m.supportedFeatures else 0)
  }

  lemma LoginRoundTrip(m: Login, p: nat, k: seq<byte>)
    requires LoginSendable(m)
    ensures GetLogin(PutLogin(m, p, k), p) == (SeenLogin(m, p), k)
  {
    hide PutWord, GetWord, PutText, GetText, PutBool, GetBool, PutEnvironments, GetEnvironments, Sendable,
      SendableEnvironments;
  }

  // ---------------------------------------------------------------- CompileFile

  datatype CompileJob = CompileJob(
    language: nat, jobId: nat, flags: Flags, environmentVersion: Text, targetPlatform: Text, compilerName: Text,
    inputFile: Text, workingDirectory: Text, outputFile: Text, dwarfFission: bool)

  const LANG_CXX := 1
  const CLANG: Text := [99, 108, 97, 110, 103]
  const ICX: Text := [105, 99, 120]
  const ICPX: Text := [105, 99, 112, 120]
  const DPCPP: Text := [100, 112, 99, 112, 112]
  const GXX: Text := [103, 43, 43]
  const GCC: Text := [103, 99, 99]

  predicate Contains(s: Text, w: Text) {
    w <= s || (s != [] && Contains(s[1..], w))
  }

  predicate ClangLike(name: Text) {
    Contains(name, CLANG) || Contains(name, ICX) || Contains(name, ICPX) || Contains(name, DPCPP)
  }

  /** The compiler of the environment that stands for the local one. */
  function RemoteCompiler(j: CompileJob): (r: Text)
    ensures Sendable(r)
  {
    if ClangLike(j.compilerName) then CLANG else if j.language == LANG_CXX then GXX else GCC
  }

  /** Before protocol 30 the compiler's name did not travel, and clang was announced by a first flag. */
  function RemoteFlags(j: CompileJob, p: nat): seq<Text> {
    (if p < 30 && ClangLike(j.compilerName) then [CLANG] else []) + OfType(j.flags, Remote)
  }

  ghost predicate CompileFileSendable(j: CompileJob) {
    && j.language < WORD && j.jobId < WORD && AllSendable(NonLocal(j.flags)) && |OfType(j.flags, Remote)| + 1 < WORD
    && AllSendable(OfType(j.flags, Remote)) && AllSendable(OfType(j.flags, Rest))
    && Sendable(j.environmentVersion) && Sendable(j.targetPlatform)
    && Sendable(j.inputFile) && Sendable(j.workingDirectory) && Sendable(j.outputFile)
  }

  function PutFlags(j: CompileJob, p: nat, k: seq<byte>): seq<byte> {
    if p >= 41 then PutList(NonLocal(j.flags), k)
    else PutList(RemoteFlags(j, p), PutList(OfType(j.flags, Rest), k))
  }

  function GetFlags(b: seq<byte>, p: nat): (Flags, seq<byte>) {
    if p >= 41 then
      var (l, r) := GetList(b);
      (Tagged(l, Remote), r)
    else
      var (l1, b1) := GetList(b);
      var (l2, b2) := GetList(b1);
      (Tagged(l1, Remote) + Tagged(l2, Rest), b2)
  }

  function SeenFlagList(j: CompileJob, p: nat): Flags {
    if p >= 41 then Tagged(NonLocal(j.flags), Remote)
    else Tagged(RemoteFlags(j, p), Remote) + Tagged(OfType(j.flags, Rest), Rest)
  }

  lemma RemoteFlagsSendable(j: CompileJob, p: nat)
    requires CompileFileSendable(j)
    ensures AllSendable(RemoteFlags(j, p))
  {
    hide ClangLike, OfType;
    assert NulFree(CLANG);
  }

  lemma FlagsRoundTrip(j: CompileJob, p: nat, k: seq<byte>)
    requires CompileFileSendable(j)
    ensures GetFlags(PutFlags(j, p, k), p) == (SeenFlagList(j, p), k)
  {
    hide PutList, GetList, Tagged, RemoteFlags, OfType, NonLocal, AllSendable, Sendable;
    RemoteFlagsSendable(j, p);
  }

  function PutCompileFile(j: CompileJob, p: nat, k: seq<byte>): seq<byte> {
    PutWord(j.language, PutWord(j.jobId, PutFlags(j, p,
    PutText(j.environmentVersion, PutText(j.targetPlatform, PutFiles(j, p, k))))))
  }

  function PutFiles(j: CompileJob, p: nat, k: seq<byte>): seq<byte> {
    var k35 := if p >= 35 then PutText(j.outputFile, PutBool(j.dwarfFission, k)) else k;
    var k34 := if p >= 34 then PutText(j.inputFile, PutText(j.workingDirectory, k35)) else k35;
    if p >= 30 then PutText(RemoteCompiler(j), k34) else k34
  }

  function GetCompileFile(b: seq<byte>, p: nat): (CompileJob, seq<byte>) {
    var (language, b1) := GetWord(b);
    var (jobId, b2) := GetWord(b1);
    var (flags, b3) := GetFlags(b2, p);
    var (version, b4) := GetText(b3);
    var (target, b5) := GetText(b4);
    var (compiler, b6) := if p >= 30 then GetText(b5) else ([], b5);
    var (input, b7) := if p >= 34 then GetText(b6) else ([], b6);
    var (directory, b8) := if p >= 34 then GetText(b7) else ([], b7);
    var (output, b9) := if p >= 35 then GetText(b8) else ([], b8);
    var (dwarf, b10) := if p >= 35 then GetBool(b9) else (false, b9);
    (CompileJob(language, jobId, flags, version, target, compiler, input, directory, output, dwarf), b10)
  }

  function SeenCompileFile(j: CompileJob, p: nat): CompileJob {
    j.(flags := SeenFlagList(j, p),
       compilerName := if p >= 30 then RemoteCompiler(j) else [],
       inputFile := if p >= 34 then j.inputFile else [],
       workingDirectory := if p >= 34 then j.workingDirectory else [],
       outputFile := if p >= 35 then j.outputFile else [],
       dwarfFission := p >= 35 && j.dwarfFission)
  }

  lemma CompileFileRoundTrip(j: CompileJob, p: nat, k: seq<byte>)
    requires CompileFileSendable(j)
    ensures GetCompileFile(PutCompileFile(j, p, k), p) == (SeenCompileFile(j, p), k)
  {
    hide PutWord, GetWord, PutText, GetText, PutBool, GetBool, PutFlags, GetFlags, SeenFlagList, RemoteCompiler, Sendable,
      AllSendable;
    FlagsRoundTrip(j, p, PutText(j.environmentVersion, PutText(j.targetPlatform, PutFiles(j, p, k))));
  }

  /** What arrives of the flags: all that are not local, in their order, from protocol 41 on; before that the two
      classes keep their own order, and only the clang marker is new. */
  lemma FlagsArrive(j: CompileJob, p: nat)
    ensures p >= 41 ==> NonLocal(SeenFlagList(j, p)) == NonLocal(j.flags)
    ensures p < 41 ==> OfType(SeenFlagList(j, p), Remote) == RemoteFlags(j, p)
    ensures p < 41 ==> OfType(SeenFlagList(j, p), Rest) == OfType(j.flags, Rest)
    ensures OfType(SeenFlagList(j, p), Local) == []
  {
    hide OfType, NonLocal, RemoteFlags, Tagged;
    var r, t := Tagged(RemoteFlags(j, p), Remote), Tagged(OfType(j.flags, Rest), Rest);
    TaggedInverse(NonLocal(j.flags), Remote);
    TaggedInverse(RemoteFlags(j, p), Remote);
    TaggedInverse(OfType(j.flags, Rest), Rest);
    OfTypeConcat(r, t, Remote);
    OfTypeConcat(r, t, Rest);
    OfTypeConcat(r, t, Local);
  }

  lemma FlagsFirst(f: (Text, ArgumentType), rest: Flags, t: ArgumentType)
    ensures OfType([f] + rest, t) == (if f.1 == t then [f.0] else []) + OfType(rest, t)
  {
    assert ([f] + rest)[1..] == rest;
  }

  lemma {:induction false} OfTypeConcat(a: Flags, b: Flags, t: ArgumentType)
    ensures OfType(a + b, t) == OfType(a, t) + OfType(b, t)
  {
    hide OfType;
    FlagsEnds(a, t);
    if a == [] {
      assert a + b == b;
    } else {
      OfTypeConcat(a[1..], b, t);
      FlagsFirst(a[0], a[1..], t);
      FlagsFirst(a[0], a[1..] + b, t);
      assert [a[0]] + a[1..] == a && [a[0]] + (a[1..] + b) == a + b;
    }
  }

  // ---------------------------------------------------------------- messages

  datatype Msg =
    | Ping
    | End
    | GetCSMsg(getCS: GetCS)
    | UseCSMsg(useCS: UseCS)
    | JobDoneMsg(jobDone: JobDone)
    | JobLocalBeginMsg(jobLocalBegin: JobLocalBegin)
    | LoginMsg(login: Login)
    | CompileFileMsg(job: CompileJob)

  function Type(m: Msg): (t: nat)
    ensures 65 <= t < WORD
  {
    match m
    case Ping => 66
    case End => 67
    case GetCSMsg(_) => 71
    case UseCSMsg(_) => 72
    case CompileFileMsg(_) => 73
    case JobDoneMsg(_) => 77
    case JobLocalBeginMsg(_) => 78
    case LoginMsg(_) => 80
  }

  ghost predicate MsgSendable(m: Msg) {
    match m
    case Ping => true
    case End => true
    case GetCSMsg(g) => GetCSSendable(g)
    case UseCSMsg(u) => UseCSSendable(u)
    case JobDoneMsg(d) => JobDoneSendable(d)
    case JobLocalBeginMsg(l) => JobLocalBeginSendable(l)
    case LoginMsg(l) => LoginSendable(l)
    case CompileFileMsg(j) => CompileFileSendable(j)
  }

  predicate Signed(m: Msg) {
    && (m.GetCSMsg? ==> Int32(m.getCS.minimalHostVersion))
    && (m.JobDoneMsg? ==> Int32(m.jobDone.exitcode))
  }

  function PutBody(m: Msg, p: nat, k: seq<byte>): seq<byte>
    requires Signed(m)
  {
    match m
    case Ping => k
    case End => k
    case GetCSMsg(g) => PutGetCS(g, p, k)
    case UseCSMsg(u) => PutUseCS(u, p, k)
    case JobDoneMsg(d) => PutJobDone(d, p, k)
    case JobLocalBeginMsg(l) => PutJobLocalBegin(l, p, k)
    case LoginMsg(l) => PutLogin(l, p, k)
    case CompileFileMsg(j) => PutCompileFile(j, p, k)
  }

  function PutMsg(m: Msg, p: nat, k: seq<byte>): seq<byte>
    requires Signed(m)
  {
    PutWord(Type(m), PutBody(m, p, k))
  }

  function GetBody(t: nat, b: seq<byte>, p: nat): (Option<Msg>, seq<byte>) {
    match t
    case 66 => (Some(Ping), b)
    case 67 => (Some(End), b)
    case 71 => var (g, r) := GetGetCS(b, p); (Some(GetCSMsg(g)), r)
    case 72 => var (u, r) := GetUseCS(b, p); (Some(UseCSMsg(u)), r)
    case 73 => var (j, r) := GetCompileFile(b, p); (Some(CompileFileMsg(j)), r)
    case 77 => var (d, r) := GetJobDone(b, p); (Some(JobDoneMsg(d)), r)
    case 78 => var (l, r) := GetJobLocalBegin(b, p); (Some(JobLocalBeginMsg(l)), r)
    case 80 => var (l, r) := GetLogin(b, p); (Some(LoginMsg(l)), r)
    case _ => (None, b)
  }

  function GetMessage(b: seq<byte>, p: nat): (Option<Msg>, seq<byte>) {
    var (t, b1) := GetWord(b);
    GetBody(t, b1, p)
  }

  function Seen(m: Msg, p: nat): Msg {
    match m
    case Ping => Ping
    case End => End
    case GetCSMsg(g) => GetCSMsg(SeenGetCS(g, p))
    case UseCSMsg(u) => UseCSMsg(SeenUseCS(u, p))
    case JobDoneMsg(d) => JobDoneMsg(SeenJobDone(d, p))
    case JobLocalBeginMsg(l) => JobLocalBeginMsg(SeenJobLocalBegin(l, p))
    case LoginMsg(l) => LoginMsg(SeenLogin(l, p))
    case CompileFileMsg(j) => CompileFileMsg(SeenCompileFile(j, p))
  }

  /** Whatever follows a message on the channel, reading it yields what this protocol version carries of it and
      leaves exactly what follows. */
  lemma MsgRoundTrip(m: Msg, p: nat, k: seq<byte>)
    requires MsgSendable(m)
    ensures Signed(m) && GetMessage(PutMsg(m, p, k), p) == (Some(Seen(m, p)), k)
  {
    hide PutWord, GetWord, PutGetCS, GetGetCS, PutUseCS, GetUseCS, PutJobDone, GetJobDone, PutJobLocalBegin, GetJobLocalBegin,
      PutLogin, GetLogin, PutCompileFile, GetCompileFile, SeenGetCS, SeenUseCS, SeenJobDone, SeenJobLocalBegin, SeenLogin,
      SeenCompileFile, SendableEnvironments, Sendable, StatsSendable, CompileFileSendable;
    match m
    case GetCSMsg(g) => GetCSRoundTrip(g, p, k);
    case UseCSMsg(u) => UseCSRoundTrip(u, p, k);
    case JobDoneMsg(d) => JobDoneRoundTrip(d, p, k);
    case JobLocalBeginMsg(l) => JobLocalBeginRoundTrip(l, p, k);
    case LoginMsg(l) => LoginRoundTrip(l, p, k);
    case CompileFileMsg(j) => CompileFileRoundTrip(j, p, k);
    case _ =>
  }

  // ---------------------------------------------------------------- what follows a message does not change it

  lemma AppendGetCS(m: GetCS, p: nat, k: seq<byte>, r: seq<byte>)
    requires Int32(m.minimalHostVersion)
    ensures PutGetCS(m, p, k + r) == PutGetCS(m, p, k) + r
  {
    hide PutWord, PutText, PutEnvironments, PutGetCSHost, Shorten;
    AppendAll();
    AppendLists();
    AppendGetCSHost(m, p, k, r);
  }

  lemma AppendGetCSHost(m: GetCS, p: nat, k: seq<byte>, r: seq<byte>)
    requires Int32(m.minimalHostVersion)
    ensures PutGetCSHost(m, p, k + r) == PutGetCSHost(m, p, k) + r
  {
    hide PutWord, PutText, ToWord;
    AppendAll();
  }

  lemma AppendUseCS(m: UseCS, p: nat, k: seq<byte>, r: seq<byte>)
    ensures PutUseCS(m, p, k + r) == PutUseCS(m, p, k) + r
  {
    hide PutWord, PutText;
    AppendAll();
  }

  lemma AppendStats(s: JobStats, k: seq<byte>, r: seq<byte>)
    ensures PutStats(s, k + r) == PutStats(s, k) + r
  {
    hide PutWord;
    AppendAll();
  }

  lemma AppendJobDone(m: JobDone, p: nat, k: seq<byte>, r: seq<byte>)
    requires Int32(m.exitcode)
    ensures PutJobDone(m, p, k + r) == PutJobDone(m, p, k) + r
  {
    hide PutWord, PutStats, ExitWord;
    AppendAll();
    AppendStats(m.stats, PutWord(m.flags, if p >= 39 then PutWord(m.clientCount, k) else k), r);
  }

  lemma AppendJobLocalBegin(m: JobLocalBegin, p: nat, k: seq<byte>, r: seq<byte>)
    ensures PutJobLocalBegin(m, p, k + r) == PutJobLocalBegin(m, p, k) + r
  {
    hide PutWord, PutText, PutBool;
    AppendAll();
  }

  lemma AppendLogin(m: Login, p: nat, k: seq<byte>, r: seq<byte>)
    ensures PutLogin(m, p, k + r) == PutLogin(m, p, k) + r
  {
    hide PutWord, PutText, PutBool, PutEnvironments;
    AppendAll();
    AppendLists();
  }

  lemma AppendFlags(j: CompileJob, p: nat, k: seq<byte>, r: seq<byte>)
    ensures PutFlags(j, p, k + r) == PutFlags(j, p, k) + r
  {
    hide PutList, RemoteFlags, OfType, NonLocal;
    AppendLists();
  }

  lemma AppendFiles(j: CompileJob, p: nat, k: seq<byte>, r: seq<byte>)
    ensures PutFiles(j, p, k + r) == PutFiles(j, p, k) + r
  {
    hide PutText, PutBool, RemoteCompiler;
    AppendAll();
  }

  lemma AppendCompileFile(j: CompileJob, p: nat, k: seq<byte>, r: seq<byte>)
    ensures PutCompileFile(j, p, k + r) == PutCompileFile(j, p, k) + r
  {
    hide PutWord, PutText, PutFlags, PutFiles;
    AppendAll();
    AppendFiles(j, p, k, r);
    AppendFlags(j, p, PutText(j.environmentVersion, PutText(j.targetPlatform, PutFiles(j, p, k))), r);
  }

  lemma AppendMsg(m: Msg, p: nat, k: seq<byte>, r: seq<byte>)
    requires Signed(m)
    ensures PutMsg(m, p, k + r) == PutMsg(m, p, k) + r
  {
    hide PutWord, PutGetCS, PutUseCS, PutJobDone, PutJobLocalBegin, PutLogin, PutCompileFile;
    AppendWord(Type(m), PutBody(m, p, k), r);
    match m
    case GetCSMsg(g) => AppendGetCS(g, p, k, r);
    case UseCSMsg(u) => AppendUseCS(u, p, k, r);
    case JobDoneMsg(d) => AppendJobDone(d, p, k, r);
    case JobLocalBeginMsg(l) => AppendJobLocalBegin(l, p, k, r);
    case LoginMsg(l) => AppendLogin(l, p, k, r);
    case CompileFileMsg(j) => AppendCompileFile(j, p, k, r);
    case _ =>
  }
}
