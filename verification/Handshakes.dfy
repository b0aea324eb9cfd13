/** Two peers that have just connected: their version words and first messages cross on the wire in any
    interleaving and any fragmentation (services/comm.cpp). */
module Handshakes {
  import opened Common
  import opened Wire
  import opened ChannelSpec

  /** `got` is all a peer received, `sent` all it sent; what the other has not received yet is in flight. */
  datatype Peer = Peer(version: nat, reader: Reader, got: seq<byte>, sent: seq<byte>)

  datatype Net = Net(a: Peer, b: Peer)

  /** A connected peer has sent its version. */
  function Connected(version: nat): Peer {
    Peer(version, FRESH, [], LittleEndian(version))
  }

  datatype Action = ReachA(n: nat) | ReachB(n: nat) | SayA(bytes: seq<byte>) | SayB(bytes: seq<byte>)

  predicate Ready(p: Peer) {
    p.reader.instate != NEED_PROTO && p.reader.instate != ERROR
  }

  predicate Enabled(s: Net, e: Action) {
    match e
    case ReachA(n) => |s.a.got| + n <= |s.b.sent|
    case ReachB(n) => |s.b.got| + n <= |s.a.sent|
    case SayA(_) => Ready(s.a)
    case SayB(_) => Ready(s.b)
  }

  function Deliver(to: Peer, chunk: seq<byte>): Peer {
    var (r, echo) := Feed(to.reader, chunk, to.version);
    to.(reader := r, got := to.got + chunk, sent := to.sent + echo)
  }

  function Step(s: Net, e: Action): Net
    requires Enabled(s, e)
  {
    match e
    case ReachA(n) => s.(a := Deliver(s.a, s.b.sent[|s.a.got|..|s.a.got| + n]))
    case ReachB(n) => s.(b := Deliver(s.b, s.a.sent[|s.b.got|..|s.b.got| + n]))
    case SayA(bytes) => s.(a := s.a.(sent := s.a.sent + bytes))
    case SayB(bytes) => s.(b := s.b.(sent := s.b.sent + bytes))
  }

  predicate EnabledAll(s: Net, es: seq<Action>)
    decreases es
  {
    es != [] ==> Enabled(s, es[0]) && EnabledAll(Step(s, es[0]), es[1..])
  }

  function Run(s: Net, es: seq<Action>): Net
    requires EnabledAll(s, es)
    decreases es
  {
    if es == [] then s else Run(Step(s, es[0]), es[1..])
  }

  /** The two words a peer sends. */
  function Words(mine: nat, theirs: nat): (w: seq<byte>)
    ensures |w| == 8
  {
    LittleEndian(mine) + LittleEndian(Min(theirs, mine))
  }

  /** What a peer has sent, by how much it has received. */
  predicate SentOk(me: Peer, theirs: nat) {
    if |me.got| < 4 then me.sent == LittleEndian(me.version)
    else if |me.got| < 8 then me.sent == Words(me.version, theirs)
    else Words(me.version, theirs) <= me.sent
  }

  predicate PeerOk(me: Peer, other: Peer) {
    && Supported(me.version) && Supported(other.version)
    && me.got <= other.sent
    && me.reader == Feed(FRESH, me.got, me.version).0
    && SentOk(me, other.version)
  }

  predicate Inv(s: Net) {
    PeerOk(s.a, s.b) && PeerOk(s.b, s.a)
  }

  lemma StartInv(va: nat, vb: nat)
    requires Supported(va) && Supported(vb)
    ensures Inv(Net(Connected(va), Connected(vb)))
  {
    assert FRESH.unread + [] == FRESH.unread;
  }

  /** All that a peer received is the beginning of a greeting. */
  lemma GotGreeting(me: Peer, other: Peer) returns (b: seq<byte>)
    requires PeerOk(me, other) && PeerOk(other, me)
    ensures me.got <= Greeting(other.version, me.version, b)
    ensures |me.got| >= 8 ==> b == other.sent[8..]
  {
    hide Feed, LittleEndian, Supported;
    b := if |other.sent| >= 8 then other.sent[8..] else [];
    var w := Words(other.version, me.version);
    assert Min(other.version, me.version) == Min(me.version, other.version);
    assert LittleEndian(other.version) <= w;
    assert |other.sent| >= 8 ==> other.sent == w + b;
    assert other.sent <= w + b;
    PrefixTrans(me.got, other.sent, w + b);
  }

  lemma PrefixTrans(a: seq<byte>, b: seq<byte>, c: seq<byte>)
    requires a <= b <= c
    ensures a <= c
  {
  }

  /** Where a peer is after what it received. */
  lemma PeerState(me: Peer, other: Peer)
    requires PeerOk(me, other) && PeerOk(other, me)
    ensures var v := Min(other.version, me.version);
      me.reader ==
        if |me.got| < 4 then FRESH.(unread := me.got)
        else if |me.got| < 8 then FRESH.(protocol := -1 - v, maxRemote := other.version, unread := me.got[4..])
        else At(v, other.version, me.got[8..])
    ensures Feed(FRESH, me.got, me.version).1 ==
      if |me.got| < 4 then [] else LittleEndian(Min(other.version, me.version))
  {
    hide Feed, LittleEndian, SentOk, Length;
    var b := GotGreeting(me, other);
    Handshake(other.version, me.version, me.got, b);
  }

  lemma DeliverKeeps(me: Peer, other: Peer, n: nat)
    requires PeerOk(me, other) && PeerOk(other, me) && |me.got| + n <= |other.sent|
    ensures var me' := Deliver(me, other.sent[|me.got|..|me.got| + n]);
      PeerOk(me', other) && other.got <= me'.sent && me.sent <= me'.sent
  {
    hide Feed, LittleEndian, Supported;
    var chunk := other.sent[|me.got|..|me.got| + n];
    var got := me.got + chunk;
    assert got == other.sent[..|got|];
    assert me.version >= MIN_PROTOCOL_VERSION by { VersionBound(me); }
    FeedChunks(FRESH, me.got, chunk, me.version);
    var me' := Deliver(me, chunk);
    PeerState(me, other);
    PeerState(me.(reader := Feed(FRESH, got, me.version).0, got := got, sent := Sent(me, other, got)), other);
    DeliverSent(me, me', other);
  }

  lemma VersionBound(me: Peer)
    requires Supported(me.version)
    ensures me.version >= MIN_PROTOCOL_VERSION
  {
  }

  /** Something a peer that received `got` may have sent. */
  function Sent(me: Peer, other: Peer, got: seq<byte>): seq<byte> {
    if |got| < 4 then LittleEndian(me.version) else if |me.got| >= 8 then me.sent else Words(me.version, other.version)
  }

  lemma DeliverSent(me: Peer, me': Peer, other: Peer)
    requires SentOk(me, other.version) && me'.version == me.version && |me'.got| >= |me.got|
    requires me.sent <= me'.sent
    requires var v := Min(other.version, me.version);
      (if |me.got| < 4 then [] else LittleEndian(v)) + me'.sent[|me.sent|..] == if |me'.got| < 4 then [] else LittleEndian(v)
    ensures SentOk(me', other.version)
  {
    hide LittleEndian;
  }

  lemma StepKeeps(s: Net, e: Action)
    requires Inv(s) && Enabled(s, e)
    ensures Inv(Step(s, e))
  {
    hide Deliver, Feed, LittleEndian;
    match e
    case ReachA(n) => DeliverKeeps(s.a, s.b, n); DeliverOther(s.b, s.a, n);
    case ReachB(n) => DeliverKeeps(s.b, s.a, n); DeliverOther(s.a, s.b, n);
    case SayA(bytes) => SayKeeps(s.a, s.b, bytes);
    case SayB(bytes) => SayKeeps(s.b, s.a, bytes);
  }

  lemma DeliverOther(me: Peer, other: Peer, n: nat)
    requires PeerOk(me, other) && PeerOk(other, me) && |other.got| + n <= |me.sent|
    ensures PeerOk(me, Deliver(other, me.sent[|other.got|..|other.got| + n]))
  {
    hide Feed, LittleEndian, Supported, SentOk;
    DeliverKeeps(other, me, n);
    var other' := Deliver(other, me.sent[|other.got|..|other.got| + n]);
    PrefixTrans(me.got, other.sent, other'.sent);
  }

  lemma SayKeeps(me: Peer, other: Peer, bytes: seq<byte>)
    requires PeerOk(me, other) && PeerOk(other, me) && Ready(me)
    ensures PeerOk(me.(sent := me.sent + bytes), other) && PeerOk(other, me.(sent := me.sent + bytes))
  {
    hide Feed, LittleEndian, Supported, Length;
    PeerState(me, other);
    PrefixTrans(other.got, me.sent, me.sent + bytes);
    PrefixTrans(Words(me.version, other.version), me.sent, me.sent + bytes);
  }

  lemma StepVersions(s: Net, e: Action)
    requires Enabled(s, e)
    ensures Step(s, e).a.version == s.a.version && Step(s, e).b.version == s.b.version
  {
    hide Feed;
  }

  lemma {:induction false} RunKeeps(s: Net, es: seq<Action>)
    requires Inv(s) && EnabledAll(s, es)
    ensures Inv(Run(s, es))
    ensures Run(s, es).a.version == s.a.version && Run(s, es).b.version == s.b.version
    decreases es
  {
    hide Inv, Enabled, Step;
    if es != [] {
      StepVersions(s, es[0]);
      StepKeeps(s, es[0]);
      RunKeeps(Step(s, es[0]), es[1..]);
    }
  }

  lemma AtNotBroken(p: nat, max: int, b: seq<byte>)
    ensures var r := At(p, max, b); r.protocol == p && r.instate != ERROR && r.instate != NEED_PROTO
  {
  }

  /** In every reachable state no peer has failed, and a peer that is ready speaks the smaller version and has
      left all bytes behind the two words to the messages. */
  lemma Agreement(va: nat, vb: nat, es: seq<Action>)
    requires Supported(va) && Supported(vb) && EnabledAll(Net(Connected(va), Connected(vb)), es)
    ensures var s := Run(Net(Connected(va), Connected(vb)), es);
      && Inv(s)
      && s.a.reader.instate != ERROR && s.b.reader.instate != ERROR
      && (Ready(s.a) ==> |s.a.got| >= 8 && s.a.reader == At(Min(va, vb), vb, s.a.got[8..]))
      && (Ready(s.b) ==> |s.b.got| >= 8 && s.b.reader == At(Min(va, vb), va, s.b.got[8..]))
  {
    StartInv(va, vb);
    RunKeeps(Net(Connected(va), Connected(vb)), es);
    hide PeerOk, Length, EnabledAll;
    var s := Run(Net(Connected(va), Connected(vb)), es);
    PeerState(s.a, s.b);
    PeerState(s.b, s.a);
    if |s.a.got| >= 8 { AtNotBroken(Min(s.b.version, s.a.version), s.b.version, s.a.got[8..]); }
    if |s.b.got| >= 8 { AtNotBroken(Min(s.a.version, s.b.version), s.a.version, s.b.got[8..]); }
  }

  /** The handshake cannot get stuck: once nothing is in flight, both are ready and speak the same version. */
  lemma NoDeadlock(s: Net)
    requires Inv(s) && s.a.got == s.b.sent && s.b.got == s.a.sent
    ensures Ready(s.a) && Ready(s.b)
    ensures s.a.reader.protocol == s.b.reader.protocol == Min(s.a.version, s.b.version)
  {
    hide Feed, LittleEndian, Length, Supported;
    PeerState(s.a, s.b);
    PeerState(s.b, s.a);
    AtNotBroken(Min(s.b.version, s.a.version), s.b.version, s.a.got[8..]);
    AtNotBroken(Min(s.a.version, s.b.version), s.a.version, s.b.got[8..]);
  }
}
