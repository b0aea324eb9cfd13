/** A message on its way from one channel object to another (services/comm.cpp). */
module Delivery {
  import opened Common
  import opened Wire
  import opened Messages
  import opened ChannelSpec
  import opened Channel

  /** Behind the handshake with version `p`, nothing unsent. */
  ghost predicate CanSend(c: MsgChannel, p: nat)
    reads c, c.inbuf, c.msgbuf
  {
    c.Valid() && c.instate != NEED_PROTO && c.instate != ERROR && c.protocol == p && c.Out() == []
  }

  /** Behind the handshake with version `p`, nothing unread. */
  ghost predicate CanReceive(c: MsgChannel, p: nat, max: int)
    reads c, c.inbuf
  {
    c.Valid() && c.View() == At(p, max, []) && !c.eof
  }

  ghost predicate Apart(a: MsgChannel, b: MsgChannel)
    reads a, b
  {
    a != b && a.msgbuf != b.msgbuf && a.msgbuf != b.inbuf && a.inbuf != b.msgbuf && a.inbuf != b.inbuf
  }

  /** Reading a piece of a frame. */
  lemma PieceRead(p: nat, max: int, m: Msg, n: nat, chunk: seq<byte>, version: nat)
    requires Travels(m, p) && n + |chunk| <= |PutFrame(m, p, [])|
    requires chunk == PutFrame(m, p, [])[n..n + |chunk|]
    ensures Feed(At(p, max, PutFrame(m, p, [])[..n]), chunk, version) == (At(p, max, PutFrame(m, p, [])[..n + |chunk|]), [])
  {
    hide Travels, PutFrame, At, Feed;
    TravelsSigned(m, p);
    var f := PutFrame(m, p, []);
    ReceiveStep(p, max, f[..n], chunk, version);
    assert f[..n] + chunk == f[..n + |chunk|];
  }

  /** The message is complete exactly when all bytes of its frame are there. */
  lemma Complete(p: nat, max: int, m: Msg, n: nat)
    requires Travels(m, p) && n <= |PutFrame(m, p, [])|
    ensures var r := At(p, max, PutFrame(m, p, [])[..n]);
      && (r.instate == HAS_MSG <==> n == |PutFrame(m, p, [])|) && r != BROKEN && r.instate != ERROR
      && (n == |PutFrame(m, p, [])| ==> r.protocol == p && Take(r) == (Some(Seen(m, p)), At(p, max, [])))
  {
    TravelsSigned(m, p);
    hide Travels, PutFrame, At, Take, Seen, Size;
    var f := PutFrame(m, p, []);
    FrameParts(m, p, []);
    GetStep(p, max, f[..n], m, []);
    assert n == |f| ==> f[..n] == f && f[4 + Size(m, p)..] == [];
  }

  /** The peer's loop around read_a_bit: until a message is complete, it reads pieces of what was sent. */
  method Receive(b: MsgChannel, frame: seq<byte>, pieces: seq<nat>, ghost m: Msg, ghost p: nat, ghost max: int)
    requires CanReceive(b, p, max) && Travels(m, p) && frame == PutFrame(m, p, [])
    modifies b, b.msgbuf, b.inbuf
    ensures b.Valid() && b.View() == At(p, max, frame) && b.instate == HAS_MSG && !b.eof
    ensures b.Written() == old(b.Written())
    ensures fresh({b.msgbuf} - {old(b.msgbuf)}) && fresh({b.inbuf} - {old(b.inbuf)})
  {
    hide Travels, PutFrame, At, Take, Seen, Feed;
    var n, i := 0, 0;
    assert frame[..0] == [];
    Complete(p, max, m, 0);
    while b.instate != HAS_MSG
      invariant n <= |frame| && i <= |pieces| && b.Valid() && b.View() == At(p, max, frame[..n]) && !b.eof
      invariant b.instate == HAS_MSG <==> n == |frame|
      invariant b.Written() == old(b.Written())
      invariant fresh({b.msgbuf} - {old(b.msgbuf)}) && fresh({b.inbuf} - {old(b.inbuf)})
      decreases |frame| - n
    {
      var size := if i < |pieces| && 0 < pieces[i] < |frame| - n then pieces[i] else |frame| - n;
      if i < |pieces| { i := i + 1; }
      var ok, taken;
      ghost var echo;
      ok, taken, echo := b.ReadABit(Data(frame[n..n + size]), []);
      assert frame[n..n + size][..taken] == frame[n..n + taken];
      PieceRead(p, max, m, n, frame[n..n + taken], b.version);
      n := n + taken;
      Complete(p, max, m, n);
    }
    assert frame[..n] == frame;
  }

  /** One side sends a message, the other reads the bytes in any pieces and takes it: it is what the receiver is to see
      of it, nothing else was written, and both can go on. */
  method Deliver(a: MsgChannel, b: MsgChannel, m: Msg, p: nat, ghost max: int, sends: seq<SendResult>, pieces: seq<nat>)
    returns (got: Option<Msg>)
    requires Apart(a, b) && CanSend(a, p) && CanReceive(b, p, max) && Travels(m, p)
    modifies a, a.msgbuf, a.inbuf, b, b.msgbuf, b.inbuf
    ensures a.Valid() && b.Valid()
    ensures got.Some? ==> got == Some(Seen(m, p)) && a.wire == old(a.wire) + PutFrame(m, p, [])
    ensures got.Some? ==> b.Written() == old(b.Written()) && a.View() == old(a.View())
    ensures got.Some? ==> Apart(a, b) && CanSend(a, p) && CanReceive(b, p, max)
    ensures got == None ==> a.instate == ERROR || a.eof
  {
    hide Travels, PutFrame, At, Take, Seen, Feed;
    ghost var was := a.wire;
    TravelsSigned(m, p);
    assert a.Written() == was + [] == was;
    var ok;
    ghost var chunks, echo;
    ok, chunks, echo := a.SendMsg(m, true, false, [], sends);
    if !ok {
      return None;
    }
    assert a.wire == a.wire + [] == a.Written();
    assert was + [] + PutFrame(m, p, []) == was + PutFrame(m, p, []);
    assert Apart(a, b) && CanSend(a, p);
    var frame := PutFrame(m, p, []);
    Receive(b, frame, pieces, m, p, max);
    assert frame[..|frame|] == frame;
    Complete(p, max, m, |frame|);
    got := b.GetMsg(true);
  }
}
