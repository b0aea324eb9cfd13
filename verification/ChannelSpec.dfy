/** The receiving side of a channel as a function of the bytes received: version handshake, framing, messages
    (services/comm.cpp). */
module ChannelSpec {
  import opened Common
  import opened Wire
  import opened Messages

  const MIN_PROTOCOL_VERSION := 21
  const MAX_VERSION_FIELD := 0x10_0000

  datatype InState = NEED_PROTO | NEED_LEN | FILL_BUF | HAS_MSG | ERROR

  /** `protocol` is -1 before the peer's first word, -1 - v once version v was proposed, then v.
      `msglen` is the announced length of the message being received. */
  datatype Reader = Reader(instate: InState, protocol: int, maxRemote: int, msglen: nat, unread: seq<byte>)

  /** An error is final. */
  const BROKEN := Reader(ERROR, 0, 0, 0, [])

  const FRESH := Reader(NEED_PROTO, -1, -1, 0, [])

  /** A peer's first version word is acceptable. */
  predicate Supported(v: nat) {
    MIN_PROTOCOL_VERSION <= v <= MAX_VERSION_FIELD
  }

  function Fill(r: Reader): Reader {
    if |r.unread| >= r.msglen then r.(instate := HAS_MSG) else r
  }

  function Length(r: Reader): Reader {
    if |r.unread| >= 4 then Fill(r.(instate := FILL_BUF, msglen := FromBigEndian(r.unread), unread := r.unread[4..])) else r
  }

  lemma LengthShort(r: Reader)
    requires |r.unread| < 4
    ensures Length(r) == r
  {
  }

  /** The second word must repeat the proposal. What follows it is left for the messages. */
  function Second(r: Reader): Reader
    requires |r.unread| >= 4
  {
    if r.protocol < -1 && FromLittleEndian(r.unread) == -1 - r.protocol
    then Length(r.(instate := NEED_LEN, protocol := -1 - r.protocol, unread := r.unread[4..]))
    else BROKEN
  }

  /** All the state changes the unread bytes allow, and the word sent back meanwhile; `version` is the own one. */
  function Settle(r: Reader, version: nat): (Reader, seq<byte>) {
    match r.instate
    case NEED_PROTO =>
      if |r.unread| < 4 then (r, [])
      else if r.protocol == -1 then
        var w := FromLittleEndian(r.unread);
        if !Supported(w) then (BROKEN, [])
        else
          var v := Min(w, version);
          var r1 := r.(protocol := -1 - v, maxRemote := w, unread := r.unread[4..]);
          (if |r1.unread| < 4 then r1 else Second(r1), LittleEndian(v))
      else (Second(r), [])
    case NEED_LEN => (Length(r), [])
    case FILL_BUF => (Fill(r), [])
    case HAS_MSG => (r, [])
    case ERROR => (BROKEN, [])
  }

  /** More bytes arrive. */
  function Feed(r: Reader, chunk: seq<byte>, version: nat): (Reader, seq<byte>) {
    Settle(r.(unread := r.unread + chunk), version)
  }

  lemma FeedBroken(r: Reader, chunk: seq<byte>, version: nat)
    ensures r == BROKEN ==> Feed(r, chunk, version) == (BROKEN, []) && Settle(r, version) == (BROKEN, [])
  {
  }

  /** The message that is complete is taken; it must use up exactly its announced length. */
  function Take(r: Reader): (Option<Msg>, Reader)
    requires r.instate == HAS_MSG && r.protocol >= 0
  {
    var (m, rest) := GetMessage(r.unread, r.protocol);
    if m == None || |r.unread| - |rest| != r.msglen then (None, BROKEN)
    else (m, Length(r.(instate := NEED_LEN, msglen := 0, unread := rest)))
  }

  /** The reader once the peer's first word was accepted. */
  function Proposed(r: Reader, version: nat): Reader
    requires |r.unread| >= 4
  {
    var w := FromLittleEndian(r.unread);
    r.(protocol := -1 - Min(w, version), maxRemote := w, unread := r.unread[4..])
  }

  lemma SettleFirst(r: Reader, version: nat)
    requires r.instate == NEED_PROTO && r.protocol == -1 && |r.unread| >= 4 && MIN_PROTOCOL_VERSION <= version
    ensures var w := FromLittleEndian(r.unread);
      if !Supported(w) then Settle(r, version) == (BROKEN, [])
      else Settle(r, version) == (Settle(Proposed(r, version), version).0, LittleEndian(Min(w, version)))
           && Settle(Proposed(r, version), version).1 == []
  {
    hide FromLittleEndian, LittleEndian, Length;
  }

  lemma SettleShort(r: Reader, version: nat)
    requires r.instate == NEED_PROTO && |r.unread| < 4
    ensures Settle(r, version) == (r, [])
  {
  }

  lemma SettleSecond(r: Reader, version: nat)
    requires r.instate == NEED_PROTO && r.protocol < -1
    ensures Settle(r, version) == (if |r.unread| >= 4 then Second(r) else r, [])
  {
  }

  // ---------------------------------------------------------------- fragmentation does not matter

  lemma FillTwice(r: Reader, chunk: seq<byte>)
    requires r.instate == FILL_BUF
    ensures Settle(Fill(r).(unread := r.unread + chunk), 0).0 == Fill(r.(unread := r.unread + chunk))
  {
  }

  lemma LengthTwice(r: Reader, chunk: seq<byte>, version: nat)
    requires r.instate == NEED_LEN
    ensures Feed(Length(r), chunk, version) == (Length(r.(unread := r.unread + chunk)), [])
  {
    var all := r.unread + chunk;
    if |r.unread| >= 4 {
      assert all[4..] == r.unread[4..] + chunk;
    }
  }

  lemma SecondTwice(r: Reader, chunk: seq<byte>, version: nat)
    requires r.instate == NEED_PROTO && |r.unread| >= 4
    ensures Feed(Second(r), chunk, version) == (Second(r.(unread := r.unread + chunk)), [])
  {
    hide Length;
    var all := r.unread + chunk;
    assert all[4..] == r.unread[4..] + chunk;
    var r1 := r.(instate := NEED_LEN, protocol := -1 - r.protocol, unread := r.unread[4..]);
    LengthTwice(r1, chunk, version);
  }

  /** Receiving two chunks one after the other is receiving them at once, the words sent back included. */
  lemma FeedChunks(r: Reader, a: seq<byte>, b: seq<byte>, version: nat)
    requires MIN_PROTOCOL_VERSION <= version
    ensures var (r1, echo1) := Feed(r, a, version);
            var (r2, echo2) := Feed(r1, b, version);
            Feed(r, a + b, version) == (r2, echo1 + echo2)
  {
    hide Length, Second;
    var ra := r.(unread := r.unread + a);
    assert r.unread + (a + b) == r.unread + a + b;
    assert forall e: seq<byte> :: e + [] == e && [] + e == e;
    match r.instate
    case NEED_PROTO =>
      if |ra.unread| >= 4 {
        FromFirst(ra.unread + b, ra.unread[..4]);
        FromFirst(ra.unread, ra.unread[..4]);
        assert (ra.unread + b)[4..] == ra.unread[4..] + b;
        if r.protocol != -1 {
          SecondTwice(ra, b, version);
        } else if Supported(FromLittleEndian(ra.unread)) {
          var v := Min(FromLittleEndian(ra.unread), version);
          var r1 := ra.(protocol := -1 - v, maxRemote := FromLittleEndian(ra.unread), unread := ra.unread[4..]);
          if |r1.unread| >= 4 { SecondTwice(r1, b, version); }
        }
      }
    case NEED_LEN => LengthTwice(ra, b, version);
    case FILL_BUF => FillTwice(ra, b);
    case _ =>
  }

  /** Whatever the chunks are, the result is that of their concatenation. */
  function Joined(chunks: seq<seq<byte>>): seq<byte> {
    if chunks == [] then [] else chunks[0] + Joined(chunks[1..])
  }

  function FeedAll(r: Reader, chunks: seq<seq<byte>>, version: nat): (Reader, seq<byte>)
    decreases chunks
  {
    if chunks == [] then (r, [])
    else
      var (r1, echo) := Feed(r, chunks[0], version);
      var (r2, echo2) := FeedAll(r1, chunks[1..], version);
      (r2, echo + echo2)
  }

  lemma {:induction false} FeedAllStep(r: Reader, chunks: seq<seq<byte>>, chunk: seq<byte>, version: nat)
    ensures var (r1, echo1) := FeedAll(r, chunks, version);
            var (r2, echo2) := Feed(r1, chunk, version);
            FeedAll(r, chunks + [chunk], version) == (r2, echo1 + echo2)
    decreases chunks
  {
    hide Feed;
    if chunks == [] {
      assert chunks + [chunk] == [chunk] && [chunk][1..] == [];
      var (r1, e) := Feed(r, chunk, version);
      assert FeedAll(r, [chunk], version) == (r1, e + []);
      assert e + [] == e && [] + e == e;
    } else {
      var (r1, echo) := Feed(r, chunks[0], version);
      FeedAllStep(r1, chunks[1..], chunk, version);
      assert (chunks + [chunk])[0] == chunks[0] && (chunks + [chunk])[1..] == chunks[1..] + [chunk];
      var (ra, ea) := FeedAll(r1, chunks[1..], version);
      var (rb, eb) := Feed(ra, chunk, version);
      assert FeedAll(r, chunks + [chunk], version) == (rb, echo + (ea + eb));
      assert echo + (ea + eb) == echo + ea + eb;
    }
  }

  lemma {:induction false} FragmentationIrrelevant(r: Reader, chunks: seq<seq<byte>>, version: nat)
    requires MIN_PROTOCOL_VERSION <= version && Settle(r, version) == (r, [])
    ensures FeedAll(r, chunks, version) == Feed(r, Joined(chunks), version)
    decreases chunks
  {
    hide Settle;
    if chunks == [] {
      assert r.unread + [] == r.unread;
    } else {
      var (r1, echo) := Feed(r, chunks[0], version);
      FeedChunks(r, chunks[0], [], version);
      assert chunks[0] + [] == chunks[0] && r1.unread + [] == r1.unread;
      SettledAfter(r, chunks[0], version);
      FragmentationIrrelevant(r1, chunks[1..], version);
      FeedChunks(r, chunks[0], Joined(chunks[1..]), version);
    }
  }

  lemma SettledAfter(r: Reader, chunk: seq<byte>, version: nat)
    requires MIN_PROTOCOL_VERSION <= version
    ensures var r1 := Feed(r, chunk, version).0; Settle(r1, version) == (r1, [])
  {
    FeedChunks(r, chunk, [], version);
    var (r1, echo) := Feed(r, chunk, version);
    assert chunk + [] == chunk && r1.unread + [] == r1.unread;
    var e2 := Settle(r1, version).1;
    assert echo + e2 == echo;
    assert |e2| == 0;
  }

  // ---------------------------------------------------------------- the handshake

  /** A reader behind the handshake with version `p`, after the bytes `b` of messages. */
  function At(p: nat, max: int, b: seq<byte>): Reader {
    Length(Reader(NEED_LEN, p, max, 0, b))
  }

  /** What a peer of version `theirs` sends, to one of version `ours`, before its messages `b`. */
  function Greeting(theirs: nat, ours: nat, b: seq<byte>): seq<byte> {
    LittleEndian(theirs) + LittleEndian(Min(theirs, ours)) + b
  }

  /** The state after any prefix of what the peer sends: the answer goes out exactly when the first word is
      there, the version is agreed exactly when the second is, and every byte behind them is still unread. */
  lemma Handshake(theirs: nat, ours: nat, got: seq<byte>, b: seq<byte>)
    requires Supported(theirs) && Supported(ours) && got <= Greeting(theirs, ours, b)
    ensures var v := Min(theirs, ours);
      Feed(FRESH, got, ours) ==
        if |got| < 4 then (FRESH.(unread := got), [])
        else if |got| < 8 then (FRESH.(protocol := -1 - v, maxRemote := theirs, unread := got[4..]), LittleEndian(v))
        else (At(v, theirs, got[8..]), LittleEndian(v))
  {
    hide Length, LittleEndian, FromLittleEndian;
    var v := Min(theirs, ours);
    assert FRESH.unread + got == got;
    if |got| >= 4 {
      FirstWord(LittleEndian(theirs), LittleEndian(v) + b, got);
      assert LittleEndian(theirs) + (LittleEndian(v) + b) == Greeting(theirs, ours, b);
      LittleEndianInverse(theirs);
      FromFirst(got, LittleEndian(theirs));
      if |got| >= 8 {
        FirstWord(LittleEndian(v), b, got[4..]);
        LittleEndianInverse(v);
        FromFirst(got[4..], LittleEndian(v));
        assert got[4..][4..] == got[8..];
      }
    }
  }

  lemma FirstWord(w: seq<byte>, k: seq<byte>, got: seq<byte>)
    requires |w| == 4 && |got| >= 4 && got <= w + k
    ensures got[..4] == w && got[4..] <= k
  {
    assert forall i :: 0 <= i < |got| ==> got[i] == (w + k)[i];
    assert got == (w + k)[..|got|];
    assert (w + k)[..|got|][4..] == k[..|got| - 4];
  }

  lemma FromFirst(b: seq<byte>, w: seq<byte>)
    requires |b| >= 4 && b[..4] == w
    ensures FromLittleEndian(b) == FromLittleEndian(w) && FromBigEndian(b) == FromBigEndian(w)
  {
    assert b[0] == b[..4][0] && b[1] == b[..4][1] && b[2] == b[..4][2] && b[3] == b[..4][3];
  }

  // ---------------------------------------------------------------- messages in, messages out

  function Size(m: Msg, p: nat): nat
    requires Signed(m)
  {
    |PutMsg(m, p, [])|
  }

  /** A message on the wire: its length, then itself. */
  function PutFrame(m: Msg, p: nat, k: seq<byte>): seq<byte>
    requires Signed(m)
  {
    PutWord(Size(m, p), PutMsg(m, p, k))
  }

  ghost predicate Travels(m: Msg, p: nat) {
    MsgSendable(m) && Signed(m) && Size(m, p) < WORD
  }

  ghost predicate AllTravel(ms: seq<Msg>, p: nat) {
    forall m :: m in ms ==> Travels(m, p)
  }

  ghost function PutFrames(ms: seq<Msg>, p: nat): seq<byte>
    requires AllTravel(ms, p)
  {
    if ms == [] then []
    else
      assert ms[0] in ms;
      PutFrame(ms[0], p, PutFrames(ms[1..], p))
  }

  function SeenAll(ms: seq<Msg>, p: nat): seq<Msg> {
    if ms == [] then [] else [Seen(ms[0], p)] + SeenAll(ms[1..], p)
  }

  lemma AppendFrame(m: Msg, p: nat, k: seq<byte>, r: seq<byte>)
    requires Signed(m)
    ensures PutFrame(m, p, k + r) == PutFrame(m, p, k) + r
  {
    hide PutMsg, PutWord;
    AppendMsg(m, p, k, r);
    AppendWord(Size(m, p), PutMsg(m, p, k), r);
  }

  lemma FrameParts(m: Msg, p: nat, k: seq<byte>)
    requires Signed(m)
    ensures PutFrame(m, p, k) == BigEndian(Size(m, p)) + (PutMsg(m, p, []) + k)
    ensures PutFrame(m, p, k) == PutFrame(m, p, []) + k && |PutFrame(m, p, [])| == 4 + Size(m, p)
  {
    hide PutMsg, BigEndian;
    assert [] + k == k;
    AppendMsg(m, p, [], k);
    AppendFrame(m, p, [], k);
  }

  /** Of the first frame: if it is there as a whole, it can be taken, and taking it leaves what is behind it. */
  lemma TakeFirst(m: Msg, p: nat, max: int, k: seq<byte>)
    requires Travels(m, p)
    ensures var r := At(p, max, PutFrame(m, p, k));
      r.instate == HAS_MSG && r.protocol == p && Take(r) == (Some(Seen(m, p)), At(p, max, k))
  {
    hide PutMsg, BigEndian, FromBigEndian, Seen, MsgSendable, GetMessage, PutFrame, PutWord;
    var b := PutFrame(m, p, k);
    FrameParts(m, p, k);
    FrameLength(m, p, PutMsg(m, p, []) + k);
    MsgRoundTrip(m, p, k);
    assert [] + k == k;
    AppendMsg(m, p, [], k);
    assert b[4..] == PutMsg(m, p, k);
  }

  lemma FrameLength(m: Msg, p: nat, k: seq<byte>)
    requires Travels(m, p)
    ensures FromBigEndian(BigEndian(Size(m, p)) + k) == Size(m, p)
  {
    hide PutMsg, BigEndian, FromBigEndian;
    BigEndianInverse(Size(m, p));
    var b := BigEndian(Size(m, p)) + k;
    assert b[..4] == BigEndian(Size(m, p));
    FromFirst(b, BigEndian(Size(m, p)));
  }

  /** A frame that is not there as a whole cannot be taken. */
  lemma TakeNone(m: Msg, p: nat, max: int, k: seq<byte>, got: seq<byte>)
    requires Travels(m, p) && got <= PutFrame(m, p, k) && |got| < 4 + Size(m, p)
    ensures At(p, max, got).instate == NEED_LEN || At(p, max, got).instate == FILL_BUF
  {
    hide PutMsg, BigEndian, FromBigEndian, PutFrame, PutWord, MsgSendable;
    FrameParts(m, p, k);
    if |got| >= 4 {
      FirstWord(BigEndian(Size(m, p)), PutMsg(m, p, []) + k, got);
      FrameLength(m, p, got[4..]);
      assert BigEndian(Size(m, p)) + got[4..] == got;
    }
  }

  lemma TakeNothing(p: nat, max: int)
    ensures At(p, max, []).instate == NEED_LEN
  {
  }

  /** What a receiver does: it gets bytes, or takes a message if there is one. */
  datatype Action = Receive(chunk: seq<byte>) | Get

  function Received(acts: seq<Action>): seq<byte> {
    if acts == [] then [] else (if acts[0].Receive? then acts[0].chunk else []) + Received(acts[1..])
  }

  /** The messages taken, and the reader afterwards. */
  function Run(r: Reader, acts: seq<Action>, version: nat): (seq<Msg>, Reader)
    decreases acts
  {
    if acts == [] then ([], r)
    else
      match acts[0]
      case Receive(chunk) => Run(Feed(r, chunk, version).0, acts[1..], version)
      case Get =>
        if r.instate == HAS_MSG && r.protocol >= 0 && Take(r).0.Some? then
          var (m, r1) := Take(r);
          var (l, r2) := Run(r1, acts[1..], version);
          ([m.value] + l, r2)
        else Run(if r.instate == HAS_MSG && r.protocol >= 0 then Take(r).1 else r, acts[1..], version)
  }

  lemma ReceiveStep(p: nat, max: int, b: seq<byte>, chunk: seq<byte>, version: nat)
    ensures Feed(At(p, max, b), chunk, version) == (At(p, max, b + chunk), [])
  {
    LengthTwice(Reader(NEED_LEN, p, max, 0, b), chunk, version);
  }

  /** Is the first of the expected messages there? Then Get takes it; if not, Get finds nothing. */
  lemma GetStep(p: nat, max: int, b: seq<byte>, m: Msg, k: seq<byte>)
    requires Travels(m, p) && b <= PutFrame(m, p, k)
    ensures var r := At(p, max, b);
      if |b| >= 4 + Size(m, p) then
        && r.instate == HAS_MSG && r.protocol == p
        && b[4 + Size(m, p)..] <= k
        && Take(r) == (Some(Seen(m, p)), At(p, max, b[4 + Size(m, p)..]))
      else r.instate != HAS_MSG && r.instate != ERROR
  {
    hide PutMsg, PutFrame, Take, Length, At, MsgSendable, Seen;
    FrameParts(m, p, k);
    if |b| >= 4 + Size(m, p) {
      var rest := b[4 + Size(m, p)..];
      PrefixTail(PutFrame(m, p, []), k, b);
      FrameParts(m, p, rest);
      TakeFirst(m, p, max, rest);
    } else {
      TakeNone(m, p, max, k, b);
    }
  }

  lemma PrefixTail(w: seq<byte>, k: seq<byte>, b: seq<byte>)
    requires b <= w + k && |b| >= |w|
    ensures b[|w|..] <= k && b == w + b[|w|..]
  {
    assert b == (w + k)[..|b|];
    assert (w + k)[..|b|][|w|..] == k[..|b| - |w|];
    assert b[..|w|] == w;
  }

  /** End to end. A receiver that gets a prefix of what was sent, in chunks of any size, and asks for messages at
      any moments, never fails; the messages it takes are the first of those sent, in order, as its protocol
      version carries them; and those it has not taken are still to come. */
  lemma {:induction false} EndToEnd(p: nat, max: int, b: seq<byte>, ms: seq<Msg>, acts: seq<Action>, version: nat)
    returns (n: nat, left: seq<byte>)
    requires AllTravel(ms, p) && b + Received(acts) <= PutFrames(ms, p)
    ensures n <= |ms| && AllTravel(ms[n..], p)
    ensures Run(At(p, max, b), acts, version) == (SeenAll(ms[..n], p), At(p, max, left))
    ensures left <= PutFrames(ms[n..], p)
    ensures |PutFrames(ms, p)| - |b + Received(acts)| == |PutFrames(ms[n..], p)| - |left|
    decreases acts, 0
  {
    hide At, Take, PutFrame, MsgSendable, Feed, Seen, Size;
    if acts == [] {
      assert b + [] == b && ms[0..] == ms;
      return 0, b;
    }
    var rest := acts[1..];
    if acts[0].Receive? {
      assert b + (acts[0].chunk + Received(rest)) == (b + acts[0].chunk) + Received(rest);
      ReceiveStep(p, max, b, acts[0].chunk, version);
      n, left := EndToEnd(p, max, b + acts[0].chunk, ms, rest, version);
    } else {
      assert [] + Received(rest) == Received(rest);
      PrefixOfPrefix(b, Received(rest), PutFrames(ms, p));
      assert ms != [] ==> ms[0] in ms;
      if ms == [] { TakeNothing(p, max); } else { GetStep(p, max, b, ms[0], PutFrames(ms[1..], p)); }
      if ms != [] && |b| >= 4 + Size(ms[0], p) {
        n, left := EndToEndTaken(p, max, b, ms, rest, version);
      } else {
        n, left := EndToEnd(p, max, b, ms, rest, version);
      }
    }
  }

  lemma PrefixOfPrefix(a: seq<byte>, b: seq<byte>, c: seq<byte>)
    requires a + b <= c
    ensures a <= c
  {
    assert a == (a + b)[..|a|];
  }

  /** Nothing is left behind: if all frames were received and no complete message waits, all were taken. */
  lemma AllTaken(p: nat, max: int, ms: seq<Msg>, left: seq<byte>)
    requires AllTravel(ms, p) && left == PutFrames(ms, p) && At(p, max, left).instate != HAS_MSG
    ensures ms == []
  {
    hide At, Travels, PutFrame;
    if ms != [] {
      var m, k := ms[0], PutFrames(ms[1..], p);
      assert m in ms;
      TravelsSigned(m, p);
      FrameParts(m, p, k);
      GetStep(p, max, left, m, k);
    }
  }

  lemma {:induction false} EndToEndTaken(p: nat, max: int, b: seq<byte>, ms: seq<Msg>, acts: seq<Action>, version: nat)
    returns (n: nat, left: seq<byte>)
    requires AllTravel(ms, p) && b + Received(acts) <= PutFrames(ms, p)
    requires ms != [] && Signed(ms[0]) && |b| >= 4 + Size(ms[0], p)
    ensures 0 < n <= |ms| && AllTravel(ms[n..], p)
    ensures var (l, r) := Run(At(p, max, b[4 + Size(ms[0], p)..]), acts, version);
      [Seen(ms[0], p)] + l == SeenAll(ms[..n], p) && r == At(p, max, left)
    ensures left <= PutFrames(ms[n..], p)
    ensures |PutFrames(ms, p)| - |b + Received(acts)| == |PutFrames(ms[n..], p)| - |left|
    decreases acts, 1
  {
    hide At, Take, PutFrame, MsgSendable, Feed, Seen, Size, Run;
    var b1 := b[4 + Size(ms[0], p)..];
    TakenPrefix(p, b, ms, Received(acts));
    var n1;
    n1, left := EndToEnd(p, max, b1, ms[1..], acts, version);
    n := n1 + 1;
    assert ms[1..][n1..] == ms[n..];
    assert ms[..n][1..] == ms[1..][..n1] && ms[..n][0] == ms[0];
  }

  lemma TakenPrefix(p: nat, b: seq<byte>, ms: seq<Msg>, more: seq<byte>)
    requires AllTravel(ms, p) && b + more <= PutFrames(ms, p)
    requires ms != [] && Signed(ms[0]) && |b| >= 4 + Size(ms[0], p)
    ensures var b1 := b[4 + Size(ms[0], p)..];
      && b1 + more <= PutFrames(ms[1..], p)
      && |PutFrames(ms, p)| - |b + more| == |PutFrames(ms[1..], p)| - |b1 + more|
  {
    hide PutFrame, MsgSendable, Size;
    assert ms[0] in ms;
    var w, k := PutFrame(ms[0], p, []), PutFrames(ms[1..], p);
    FrameParts(ms[0], p, k);
    PrefixTail(w, k, b + more);
    assert (b + more)[|w|..] == b[|w|..] + more;
  }

  /** Sending one message after the other is sending the sequence. */
  lemma {:induction false} FramesAppend(ms: seq<Msg>, m: Msg, p: nat)
    requires AllTravel(ms, p) && Travels(m, p)
    ensures AllTravel(ms + [m], p)
    ensures PutFrames(ms + [m], p) == PutFrames(ms, p) + PutFrame(m, p, [])
  {
    hide Travels, PutFrame;
    assert forall x :: x in ms + [m] ==> x in ms || x == m;
    if ms == [] {
      assert ms + [m] == [m] && [m][1..] == [];
      assert PutFrames([m], p) == PutFrame(m, p, PutFrames([m][1..], p)) by { TravelsSigned(m, p); }
    } else {
      FramesAppend(ms[1..], m, p);
      assert ms[0] in ms;
      TravelsSigned(ms[0], p);
      TravelsSigned(m, p);
      assert (ms + [m])[0] == ms[0] && (ms + [m])[1..] == ms[1..] + [m];
      AppendFrame(ms[0], p, PutFrames(ms[1..], p), PutFrame(m, p, []));
    }
  }

  lemma TravelsSigned(m: Msg, p: nat)
    requires Travels(m, p)
    ensures Signed(m)
  {
  }

  /** What a receiver that has just connected makes of a greeting and the messages behind it. */
  ghost predicate Follows(got: seq<byte>, theirs: nat, ours: nat, ms: seq<Msg>) {
    && Supported(theirs) && Supported(ours) && AllTravel(ms, Min(theirs, ours))
    && got <= Greeting(theirs, ours, PutFrames(ms, Min(theirs, ours)))
  }

  lemma FollowsTail(got: seq<byte>, more: seq<byte>, theirs: nat, ours: nat, ms: seq<Msg>)
    requires Follows(got + more, theirs, ours, ms)
    ensures Follows(got, theirs, ours, ms)
    ensures |got| >= 8 ==> got[8..] + more <= PutFrames(ms, Min(theirs, ours))
  {
    hide AllTravel, LittleEndian, PutFrames, Supported;
    TailOf(LittleEndian(theirs) + LittleEndian(Min(theirs, ours)), PutFrames(ms, Min(theirs, ours)), got, more);
  }

  lemma TailOf(w: seq<byte>, b: seq<byte>, got: seq<byte>, more: seq<byte>)
    requires got + more <= w + b
    ensures got <= w + b
    ensures |got| >= |w| ==> got[|w|..] + more <= b
  {
    PrefixOfPrefix(got, more, w + b);
    if |got| >= |w| {
      PrefixTail(w, b, got + more);
      assert (got + more)[|w|..] == got[|w|..] + more;
    }
  }

  /** From the first byte of a connection on: whatever the chunks of a greeting and of the frames behind it, and
      whenever the receiver asks for messages, it takes the first messages sent, in order, and never fails; once all
      bytes have come and no message waits, it has taken all of them. */
  lemma {:induction false} Conversation(got: seq<byte>, theirs: nat, ours: nat, ms: seq<Msg>, acts: seq<Action>)
    returns (n: nat)
    requires Follows(got + Received(acts), theirs, ours, ms) && Supported(theirs) && Supported(ours)
    ensures n <= |ms|
    ensures var (l, r) := Run(Feed(FRESH, got, ours).0, acts, ours);
      && l == SeenAll(ms[..n], Min(theirs, ours)) && r.instate != ERROR
      && (Whole(got + Received(acts), theirs, ours, ms) && r.instate != HAS_MSG ==> n == |ms|)
    decreases acts
  {
    hide Take, Feed, AllTravel, Length, Follows, Whole;
    if |got| >= 8 {
      n := Behind(got, theirs, ours, ms, acts);
      return;
    }
    FollowsTail(got, Received(acts), theirs, ours, ms);
    NotYet(got, theirs, ours, ms);
    if acts == [] {
      WholeLength(got, theirs, ours, ms);
      assert got + Received(acts) == got;
      return 0;
    }
    var rest := acts[1..];
    if acts[0].Receive? {
      assert got + (acts[0].chunk + Received(rest)) == (got + acts[0].chunk) + Received(rest);
      FeedChunks(FRESH, got, acts[0].chunk, ours);
      n := Conversation(got + acts[0].chunk, theirs, ours, ms, rest);
    } else {
      assert [] + Received(rest) == Received(rest);
      n := Conversation(got, theirs, ours, ms, rest);
    }
  }

  /** All bytes of the greeting and of the frames behind it. */
  ghost predicate Whole(got: seq<byte>, theirs: nat, ours: nat, ms: seq<Msg>)
    requires Supported(theirs) && Supported(ours)
  {
    AllTravel(ms, Min(theirs, ours)) && got == Greeting(theirs, ours, PutFrames(ms, Min(theirs, ours)))
  }

  lemma WholeLength(got: seq<byte>, theirs: nat, ours: nat, ms: seq<Msg>)
    requires Supported(theirs) && Supported(ours)
    ensures Whole(got, theirs, ours, ms) ==> |got| >= 8
  {
  }

  /** If all bytes have come and no message waits, none is left. */
  lemma WholeTaken(got: seq<byte>, more: seq<byte>, theirs: nat, ours: nat, ms: seq<Msg>, n: nat, left: seq<byte>)
    requires Supported(theirs) && Supported(ours) && |got| >= 8 && n <= |ms| && Whole(got + more, theirs, ours, ms)
    requires AllTravel(ms[n..], Min(theirs, ours)) && left <= PutFrames(ms[n..], Min(theirs, ours))
    requires |PutFrames(ms, Min(theirs, ours))| - |got[8..] + more| == |PutFrames(ms[n..], Min(theirs, ours))| - |left|
    requires At(Min(theirs, ours), theirs, left).instate != HAS_MSG
    ensures n == |ms|
  {
    hide AllTravel, At;
    assert |got + more| == 8 + |PutFrames(ms, Min(theirs, ours))|;
    assert left == PutFrames(ms[n..], Min(theirs, ours));
    AllTaken(Min(theirs, ours), theirs, ms[n..], left);
  }

  lemma NotYet(got: seq<byte>, theirs: nat, ours: nat, ms: seq<Msg>)
    requires Follows(got, theirs, ours, ms) && |got| < 8
    ensures Feed(FRESH, got, ours).0.instate == NEED_PROTO
  {
    hide Feed, LittleEndian, AllTravel;
    Handshake(theirs, ours, got, PutFrames(ms, Min(theirs, ours)));
  }

  lemma Behind(got: seq<byte>, theirs: nat, ours: nat, ms: seq<Msg>, acts: seq<Action>) returns (n: nat)
    requires Follows(got + Received(acts), theirs, ours, ms) && Supported(theirs) && Supported(ours) && |got| >= 8
    ensures n <= |ms|
    ensures var (l, r) := Run(Feed(FRESH, got, ours).0, acts, ours);
      && l == SeenAll(ms[..n], Min(theirs, ours)) && r.instate != ERROR
      && (Whole(got + Received(acts), theirs, ours, ms) && r.instate != HAS_MSG ==> n == |ms|)
  {
    hide Feed, LittleEndian, AllTravel, Run, Length, Whole, At;
    FollowsTail(got, Received(acts), theirs, ours, ms);
    Handshake(theirs, ours, got, PutFrames(ms, Min(theirs, ours)));
    var left;
    n, left := EndToEnd(Min(theirs, ours), theirs, got[8..], ms, acts, ours);
    AtWorks(Min(theirs, ours), theirs, left);
    if Whole(got + Received(acts), theirs, ours, ms) && At(Min(theirs, ours), theirs, left).instate != HAS_MSG {
      WholeTaken(got, Received(acts), theirs, ours, ms, n, left);
    }
  }

  lemma AtWorks(p: nat, max: int, b: seq<byte>)
    ensures At(p, max, b).instate != ERROR
  {
  }
}
