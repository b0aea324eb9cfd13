/** The layout of the messages as a table: for each field, since which protocol version it is sent and how it looks on
    the wire (services/comm.cpp). What the writers write is what the tables say. */
module WireFormat {
  import opened Common
  import opened Wire
  import opened Messages
  import opened ChannelSpec

  datatype Field = Number(n: nat) | String(s: Text) | Strings(l: seq<Text>) | Pairs(e: Environments)

  /** Fields in the order in which they are sent. */
  datatype Table = Since(version: nat, field: Field, rest: Table) | Nothing

  /** Most significant byte first. */
  function Four(n: nat): seq<byte> {
    [n / 16777216 % 256, n / 65536 % 256, n / 256 % 256, n % 256]
  }

  /** A string travels with its length and the NUL that ends it, which the length counts. */
  function RawString(s: Text, k: seq<byte>): seq<byte> {
    Four(|s| + 1) + (s + [0] + k)
  }

  function RawStrings(l: seq<Text>, k: seq<byte>): seq<byte> {
    if l == [] then k else RawString(l[0], RawStrings(l[1..], k))
  }

  function RawPairs(l: Environments, k: seq<byte>): seq<byte> {
    if l == [] then k else RawString(l[0].0, RawString(l[0].1, RawPairs(l[1..], k)))
  }

  function Raw(f: Field, k: seq<byte>): seq<byte> {
    match f
    case Number(n) => Four(n) + k
    case String(s) => RawString(s, k)
    case Strings(l) => Four(|l|) + RawStrings(l, k)
    case Pairs(e) => Four(|e|) + RawPairs(e, k)
  }

  /** The bytes of the fields that version `p` sends, with `k` behind them. */
  function Bytes(t: Table, p: nat, k: seq<byte>): seq<byte> {
    match t
    case Nothing => k
    case Since(version, field, rest) => if version <= p then Raw(field, Bytes(rest, p, k)) else Bytes(rest, p, k)
  }

  function Flag(b: bool): Field {
    Number(if b then 1 else 0)
  }

  // ---------------------------------------------------------------- the tables

  function GetCSTable(m: GetCS): Table
    requires Int32(m.minimalHostVersion)
  {
    Since(0, Pairs(m.versions), Since(0, String(Shorten(m.filename)), Since(0, Number(m.lang), Since(0, Number(m.count),
    Since(0, String(m.target), Since(0, Number(m.argFlags), Since(0, Number(m.clientId),
    Since(22, String(m.preferredHost), Since(31, Flag(m.minimalHostVersion >= 31), Since(34, Number(ToWord(m.minimalHostVersion)),
    Since(39, Number(m.clientCount), Since(42, Number(m.requiredFeatures), Since(43, Number(m.niceness), Nothing)))))))))))))
  }

  function UseCSTable(m: UseCS): Table {
    Since(0, Number(m.jobId), Since(0, Number(m.port), Since(0, String(m.hostname), Since(0, String(m.hostPlatform),
    Since(0, Number(m.gotEnv), Since(0, Number(m.clientId), Since(28, Number(m.matchedJobId), Nothing)))))))
  }

  /** Before version 39 the exit code 200 stands for a job of unknown id. */
  function JobDoneTable(m: JobDone, p: nat): Table
    requires Int32(m.exitcode)
  {
    var s := m.stats;
    Since(0, Number(m.jobId), Since(0, Number(if p < 39 && m.flags / 2 % 2 == 1 then 200 else ToWord(m.exitcode)),
    Since(0, Number(s.realMsec), Since(0, Number(s.userMsec), Since(0, Number(s.sysMsec), Since(0, Number(s.pfaults),
    Since(0, Number(s.inCompressed), Since(0, Number(s.inUncompressed),
    Since(0, Number(s.outCompressed), Since(0, Number(s.outUncompressed),
    Since(0, Number(m.flags), Since(39, Number(m.clientCount), Nothing))))))))))))
  }

  function JobLocalBeginTable(m: JobLocalBegin): Table {
    Since(0, Number(m.stime), Since(0, String(m.outfile), Since(0, Number(m.id),
    Since(44, Flag(m.fulljob), Since(45, Number(m.niceness), Nothing)))))
  }

  function LoginTable(m: Login): Table {
    Since(0, Number(m.port), Since(0, Number(m.maxKids), Since(0, Pairs(m.envs),
    Since(0, String(m.nodename), Since(0, String(m.hostPlatform),
    Since(0, Flag(m.chrootPossible), Since(26, Flag(m.noremote), Since(42, Number(m.supportedFeatures), Nothing))))))))
  }

  /** One list of all flags that are not local from version 41 on, two lists by class before. */
  function CompileFileTable(j: CompileJob, p: nat): Table {
    var files := Since(0, String(j.environmentVersion), Since(0, String(j.targetPlatform),
      Since(30, String(RemoteCompiler(j)), Since(34, String(j.inputFile), Since(34, String(j.workingDirectory),
      Since(35, String(j.outputFile), Since(35, Flag(j.dwarfFission), Nothing)))))));
    Since(0, Number(j.language), Since(0, Number(j.jobId),
      if p >= 41 then Since(0, Strings(NonLocal(j.flags)), files)
      else Since(0, Strings(RemoteFlags(j, p)), Since(0, Strings(OfType(j.flags, Rest)), files))))
  }

  function TableOf(m: Msg, p: nat): Table
    requires Signed(m)
  {
    match m
    case Ping => Since(0, Number(66), Nothing)
    case End => Since(0, Number(67), Nothing)
    case GetCSMsg(g) => Since(0, Number(71), GetCSTable(g))
    case UseCSMsg(u) => Since(0, Number(72), UseCSTable(u))
    case CompileFileMsg(j) => Since(0, Number(73), CompileFileTable(j, p))
    case JobDoneMsg(d) => Since(0, Number(77), JobDoneTable(d, p))
    case JobLocalBeginMsg(l) => Since(0, Number(78), JobLocalBeginTable(l))
    case LoginMsg(l) => Since(0, Number(80), LoginTable(l))
  }

  // ---------------------------------------------------------------- the writers follow the tables

  lemma WordIs(n: nat, k: seq<byte>)
    ensures PutWord(n, k) == Four(n) + k
  {
  }

  lemma TextIs(s: Text, k: seq<byte>)
    ensures PutText(s, k) == RawString(s, k)
  {
    hide PutWord, Four;
    WordIs(|s| + 1, s + [0] + k);
  }

  lemma {:induction false} TextsAre(l: seq<Text>, k: seq<byte>)
    ensures PutTexts(l, k) == RawStrings(l, k)
  {
    hide PutText, RawString;
    if l != [] {
      TextsAre(l[1..], k);
      TextIs(l[0], PutTexts(l[1..], k));
    }
  }

  lemma {:induction false} PairsAre(l: Environments, k: seq<byte>)
    ensures PutPairs(l, k) == RawPairs(l, k)
  {
    hide PutText, RawString;
    if l != [] {
      PairsAre(l[1..], k);
      TextIs(l[0].1, PutPairs(l[1..], k));
      TextIs(l[0].0, PutText(l[0].1, PutPairs(l[1..], k)));
    }
  }

  /** Every way of writing a field is its row of the table. */
  lemma FieldsAre()
    ensures forall n: nat, k: seq<byte> {:trigger PutWord(n, k)} :: PutWord(n, k) == Raw(Number(n), k)
    ensures forall s: Text, k: seq<byte> {:trigger PutText(s, k)} :: PutText(s, k) == Raw(String(s), k)
    ensures forall b: bool, k: seq<byte> {:trigger PutBool(b, k)} :: PutBool(b, k) == Raw(Flag(b), k)
    ensures forall l: seq<Text>, k: seq<byte> {:trigger PutList(l, k)} :: PutList(l, k) == Raw(Strings(l), k)
    ensures forall e: Environments, k: seq<byte> {:trigger PutEnvironments(e, k)} :: PutEnvironments(e, k) == Raw(Pairs(e), k)
  {
    hide PutWord, PutText, RawString, RawStrings, RawPairs, Four;
    forall n: nat, k: seq<byte> ensures PutWord(n, k) == Raw(Number(n), k) { WordIs(n, k); }
    forall s: Text, k: seq<byte> ensures PutText(s, k) == Raw(String(s), k) { TextIs(s, k); }
    forall l: seq<Text>, k: seq<byte> ensures PutList(l, k) == Raw(Strings(l), k) {
      TextsAre(l, k);
      WordIs(|l|, PutTexts(l, k));
    }
    forall e: Environments, k: seq<byte> ensures PutEnvironments(e, k) == Raw(Pairs(e), k) {
      PairsAre(e, k);
      WordIs(|e|, PutPairs(e, k));
    }
  }

  lemma BytesAre()
    ensures forall v: nat, f: Field, t: Table, p: nat, k: seq<byte> {:trigger Bytes(Since(v, f, t), p, k)} ::
      Bytes(Since(v, f, t), p, k) == if v <= p then Raw(f, Bytes(t, p, k)) else Bytes(t, p, k)
    ensures forall p: nat, k: seq<byte> {:trigger Bytes(Nothing, p, k)} :: Bytes(Nothing, p, k) == k
  {
  }

  lemma GetCSBytes(m: GetCS, p: nat, k: seq<byte>)
    requires Int32(m.minimalHostVersion)
    ensures PutGetCS(m, p, k) == Bytes(GetCSTable(m), p, k)
  {
    hide PutWord, PutText, PutEnvironments, Raw, Bytes, Shorten, ToWord;
    FieldsAre();
    BytesAre();
  }

  lemma UseCSBytes(m: UseCS, p: nat, k: seq<byte>)
    ensures PutUseCS(m, p, k) == Bytes(UseCSTable(m), p, k)
  {
    hide PutWord, PutText, Raw, Bytes;
    FieldsAre();
    BytesAre();
  }

  lemma JobDoneBytes(m: JobDone, p: nat, k: seq<byte>)
    requires Int32(m.exitcode)
    ensures PutJobDone(m, p, k) == Bytes(JobDoneTable(m, p), p, k)
  {
    hide PutWord, Raw, Bytes, ToWord;
    FieldsAre();
    BytesAre();
  }

  lemma JobLocalBeginBytes(m: JobLocalBegin, p: nat, k: seq<byte>)
    ensures PutJobLocalBegin(m, p, k) == Bytes(JobLocalBeginTable(m), p, k)
  {
    hide PutWord, PutText, PutBool, Raw, Bytes, Flag;
    FieldsAre();
    BytesAre();
  }

  lemma LoginBytes(m: Login, p: nat, k: seq<byte>)
    ensures PutLogin(m, p, k) == Bytes(LoginTable(m), p, k)
  {
    hide PutWord, PutText, PutBool, PutEnvironments, Raw, Bytes, Flag;
    FieldsAre();
    BytesAre();
  }

  lemma CompileFileBytes(j: CompileJob, p: nat, k: seq<byte>)
    ensures PutCompileFile(j, p, k) == Bytes(CompileFileTable(j, p), p, k)
  {
    hide PutWord, PutText, PutBool, PutList, Raw, Bytes, Flag, RemoteCompiler, RemoteFlags, OfType, NonLocal;
    FieldsAre();
    BytesAre();
  }

  lemma MsgBytes(m: Msg, p: nat, k: seq<byte>)
    requires Signed(m)
    ensures PutMsg(m, p, k) == Bytes(TableOf(m, p), p, k)
  {
    hide PutWord, PutGetCS, PutUseCS, PutJobDone, PutJobLocalBegin, PutLogin, PutCompileFile, Raw, Bytes,
      GetCSTable, UseCSTable, JobDoneTable, JobLocalBeginTable, LoginTable, CompileFileTable;
    FieldsAre();
    BytesAre();
    match m
    case GetCSMsg(g) => GetCSBytes(g, p, k);
    case UseCSMsg(u) => UseCSBytes(u, p, k);
    case JobDoneMsg(d) => JobDoneBytes(d, p, k);
    case JobLocalBeginMsg(l) => JobLocalBeginBytes(l, p, k);
    case LoginMsg(l) => LoginBytes(l, p, k);
    case CompileFileMsg(j) => CompileFileBytes(j, p, k);
    case _ =>
  }

  /** A frame is the length of the message, its type, and the fields its version sends, for any message and version. */
  lemma FrameBytes(m: Msg, p: nat, k: seq<byte>)
    requires Signed(m)
    ensures PutFrame(m, p, k) == Four(|Bytes(TableOf(m, p), p, [])|) + Bytes(TableOf(m, p), p, k)
  {
    hide PutMsg, Bytes, TableOf, Four, PutWord;
    MsgBytes(m, p, []);
    MsgBytes(m, p, k);
    WordIs(Size(m, p), PutMsg(m, p, k));
  }

  // ---------------------------------------------------------------- what the reader sees

  /** From version 45 on nothing is lost but what the writer itself leaves out: of the file name all but its end, of a
      negative minimal version everything, and of the flags their classes. */
  lemma NothingLost(m: Msg, p: nat)
    requires p >= 45
    ensures m.GetCSMsg? ==> Seen(m, p) == GetCSMsg(m.getCS.(filename := Shorten(m.getCS.filename),
                                                            minimalHostVersion := Max(0, m.getCS.minimalHostVersion)))
    ensures m.CompileFileMsg? ==> Seen(m, p) == CompileFileMsg(m.job.(flags := Tagged(NonLocal(m.job.flags), Remote),
                                                                      compilerName := RemoteCompiler(m.job)))
    ensures !m.GetCSMsg? && !m.CompileFileMsg? ==> Seen(m, p) == m
  {
  }

  /** And since which version a field arrives; before, the reader has its own value for it. */
  lemma ArrivesSince(g: GetCS, u: UseCS, d: JobDone, b: JobLocalBegin, l: Login, j: CompileJob, p: nat)
    ensures SeenGetCS(g, p).preferredHost == if p < 22 then [] else g.preferredHost
    ensures SeenGetCS(g, p).minimalHostVersion
         == if p < 31 || g.minimalHostVersion < 0 then 0 else if p >= 34 then g.minimalHostVersion
            else if g.minimalHostVersion < 31 then 0 else 31
    ensures SeenGetCS(g, p).clientCount == if p < 39 then 0 else g.clientCount
    ensures SeenGetCS(g, p).requiredFeatures == if p < 42 then 0 else g.requiredFeatures
    ensures SeenGetCS(g, p).niceness == if p < 43 then 0 else g.niceness
    ensures SeenUseCS(u, p).matchedJobId == if p < 28 then 0 else u.matchedJobId
    ensures SeenJobDone(d, p).clientCount == if p < 39 then 0 else d.clientCount
    ensures SeenJobLocalBegin(b, p).fulljob <==> p >= 44 && b.fulljob
    ensures SeenJobLocalBegin(b, p).niceness == if p < 45 then 0 else b.niceness
    ensures SeenLogin(l, p).noremote <==> p >= 26 && l.noremote
    ensures SeenLogin(l, p).supportedFeatures == if p < 42 then 0 else l.supportedFeatures
    ensures SeenCompileFile(j, p).compilerName == if p < 30 then [] else RemoteCompiler(j)
    ensures SeenCompileFile(j, p).inputFile == if p < 34 then [] else j.inputFile
    ensures SeenCompileFile(j, p).workingDirectory == if p < 34 then [] else j.workingDirectory
    ensures SeenCompileFile(j, p).outputFile == if p < 35 then [] else j.outputFile
    ensures SeenCompileFile(j, p).dwarfFission <==> p >= 35 && j.dwarfFission
  {
  }

  function CharByte(c: char): byte
    requires c as int < 128
  {
    c as int
  }

  function Ascii(s: string): Text
    requires forall i :: 0 <= i < |s| ==> s[i] as int < 128
  {
    seq(|s|, i requires 0 <= i < |s| => CharByte(s[i]))
  }

  ghost predicate Holds(s: Text, w: Text) {
    exists i :: 0 <= i <= |s| && w <= s[i..]
  }

  lemma {:induction false} ContainsIs(s: Text, w: Text)
    ensures Contains(s, w) <==> Holds(s, w)
  {
    assert s[0..] == s;
    if !(w <= s) && s != [] {
      ContainsIs(s[1..], w);
      if i :| 0 <= i <= |s| && w <= s[i..] { assert s[1..][i - 1..] == s[i..]; }
      if i :| 0 <= i <= |s[1..]| && w <= s[1..][i..] { assert s[i + 1..] == s[1..][i..]; }
    }
  }

  /** The compiler of the environment: clang for a compiler whose name holds one of four words, otherwise g++ for C++
      (language 1) and gcc for everything else. */
  lemma CompilerMeans(j: CompileJob)
    ensures var n := j.compilerName;
      RemoteCompiler(j) ==
        if Holds(n, Ascii("clang")) || Holds(n, Ascii("icx")) || Holds(n, Ascii("icpx")) || Holds(n, Ascii("dpcpp"))
        then Ascii("clang") else if j.language == 1 then Ascii("g++") else Ascii("gcc")
  {
    hide Contains;
    AsciiNames();
    ContainsIs(j.compilerName, CLANG);
    ContainsIs(j.compilerName, ICX);
    ContainsIs(j.compilerName, ICPX);
    ContainsIs(j.compilerName, DPCPP);
  }

  lemma AsciiNames()
    ensures Ascii("clang") == CLANG && Ascii("icx") == ICX && Ascii("icpx") == ICPX && Ascii("dpcpp") == DPCPP
    ensures Ascii("g++") == GXX && Ascii("gcc") == GCC
  {
  }

  /** The flags of a class, and those that are not local. */
  lemma {:induction false} FlagMembers(flags: Flags, t: ArgumentType, x: Text)
    ensures x in OfType(flags, t) <==> (x, t) in flags
    ensures x in NonLocal(flags) <==> (x, Remote) in flags || (x, Rest) in flags
  {
    if flags != [] {
      FlagMembers(flags[1..], t, x);
      assert flags == [flags[0]] + flags[1..];
    }
  }

  // ---------------------------------------------------------------- the handshake

  /** The first four bytes of a peer, least significant first, are its version; one below 21 or above 2^20 breaks the
      channel, and any other is answered with the smaller of the two versions. */
  lemma FirstWord(a: byte, b: byte, c: byte, d: byte, version: nat)
    requires version < WORD
    ensures var w := a + 256 * b + 65536 * c + 16777216 * d;
      var (r, sent) := Feed(FRESH, [a, b, c, d], version);
      if w < 21 || w > 1048576 then r == BROKEN && sent == []
      else
        var v := if w < version then w else version;
        && sent == [v % 256, v / 256 % 256, v / 65536 % 256, v / 16777216 % 256]
        && r == Reader(NEED_PROTO, -1 - v, w, 0, [])
  {
    var bytes: seq<byte> := [a, b, c, d];
    assert FRESH.unread + bytes == bytes;
    assert bytes[4..] == [];
  }

  // ---------------------------------------------------------------- bytes that do not make a message

  /** A number needs its four bytes; the length of a string that is 0 or goes beyond what is there yields the empty string;
      and a string ends at the first NUL within its length. */
  lemma ReadsMalformed(n: nat, s: Text, b: seq<byte>)
    requires n < WORD
    ensures |b| < 4 ==> GetWord(b) == (0, b)
    ensures n == 0 || n > |b| ==> GetText(Four(n) + b) == ([], b)
    ensures NulFree(s) && |s| < n == |s + [0] + b| ==> GetText(Four(n) + (s + [0] + b)) == (s, [])
  {
    WordIs(n, b);
    WordIs(n, s + [0] + b);
    if NulFree(s) { UpToFirst(s, b); }
    hide PutWord, Four;
    var all := s + [0] + b;
    assert all[|all|..] == [] && all[..|all|] == all;
  }

  lemma {:induction false} UpToFirst(s: Text, b: seq<byte>)
    requires NulFree(s)
    ensures UpToNul(s + [0] + b) == s
  {
    if s == [] {
      assert s + [0] + b == [0] + b;
    } else {
      assert s[0] in s;
      UpToFirst(s[1..], b);
      assert (s + [0] + b)[0] == s[0] && (s + [0] + b)[1..] == s[1..] + [0] + b;
    }
  }

  /** A ping with one more byte than its type is an error, and so is a type that is not known. */
  lemma WrongLength(p: nat, max: int, c: byte)
    ensures Take(Reader(HAS_MSG, p, max, 5, Four(66) + [c])) == (None, BROKEN)
    ensures Take(Reader(HAS_MSG, p, max, 4, Four(65))) == (None, BROKEN)
  {
    WordIs(66, [c]);
    WordIs(65, []);
    assert Four(65) + [] == Four(65);
    hide PutWord, Four;
  }
}
