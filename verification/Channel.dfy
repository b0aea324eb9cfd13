/** A channel as the program it is: growing buffers that are compacted in place, cursors, and system calls that
    read and write any number of bytes (services/comm.cpp). */
module Channel {
  import opened Common
  import opened Wire
  import opened Messages
  import opened ChannelSpec

  /** What send() answers. */
  datatype SendResult = Accepted(n: nat) | Interrupted | WouldBlock(becomesReady: bool) | Failed

  /** What read() answers; an interrupted call is repeated. */
  datatype ReadResult = Data(bytes: seq<byte>) | Nothing | EndOfFile | ReadFailed

  /** The bytes that can be read now; after the end of the stream nothing is read. */
  function Available(result: ReadResult, eof: bool): seq<byte> {
    if result.Data? && !eof then result.bytes else []
  }

  /** Rounded up to the next multiple of 128. */
  function Round(n: nat): (r: nat)
    ensures n <= r < n + 128 && r % 128 == 0
  {
    (n + 127) / 128 * 128
  }

  /** realloc to a larger size: the first bytes keep their values. */
  method Grow(a: array<byte>, used: nat, size: nat) returns (b: array<byte>)
    requires used <= a.Length && used <= size
    ensures fresh(b) && b.Length == size && b[..used] == a[..used]
  {
    b := new byte[size](_ => 0);
    forall i | 0 <= i < used { b[i] := a[i]; }
  }

  lemma Framed(was: seq<byte>, body: seq<byte>)
    ensures var all := was + BigEndian(0) + body;
      |all| == |was| + 4 + |body| && all[..|was|] == was && all[|was| + 4..] == body
  {
    hide BigEndian;
  }

  lemma FrameIs(m: Msg, p: nat, was: seq<byte>)
    requires Signed(m)
    ensures was + BigEndian(Size(m, p)) + PutMsg(m, p, []) == was + PutFrame(m, p, [])
  {
    hide BigEndian, PutMsg;
  }

  /** Bytes stored behind others. */
  lemma StoredBehind(a: seq<byte>, b: seq<byte>, at: nat, end: nat, bytes: seq<byte>)
    requires at <= end && end + |bytes| <= |a| == |b|
    requires forall i :: at <= i < end ==> b[i] == a[i]
    requires forall i :: 0 <= i < |bytes| ==> b[end + i] == bytes[i]
    ensures b[at..end + |bytes|] == a[at..end] + bytes
  {
    assert b[at..end] == a[at..end] && b[end..end + |bytes|] == bytes;
    assert b[at..end + |bytes|] == b[at..end] + b[end..end + |bytes|];
  }

  /** Bytes handed over in two parts. */
  lemma TakeOut(w: seq<byte>, b: seq<byte>, at: nat, n: nat, m: nat)
    requires at + m <= |b| && n <= m
    ensures w + b[at..at + n] + b[at + n..at + m] == w + b[at..at + m]
  {
    assert b[at..at + n] + b[at + n..at + m] == b[at..at + m];
  }

  class MsgChannel {
    var msgbuf: array<byte>
    var msgofs: nat
    var msgtogo: nat
    var inbuf: array<byte>
    var inofs: nat
    var intogo: nat
    var instate: InState
    var inmsglen: nat
    var protocol: int
    var maximumRemoteProtocol: int
    var eof: bool
    const version: nat
    const maxWriteSize: nat
    /** The bytes send() has accepted. */
    ghost var wire: seq<byte>

    /** Cursors lie inside their buffers, and a message that is being received has room. */
    predicate Shape()
      reads this
    {
      && msgbuf != inbuf && Supported(version) && maxWriteSize > 0
      && intogo <= inofs <= inbuf.Length
      && msgofs + msgtogo <= msgbuf.Length
      && (instate == NEED_PROTO ==> protocol < 0)
      && (instate == NEED_LEN || instate == FILL_BUF || instate == HAS_MSG ==> protocol > 0)
      && (instate == ERROR ==> eof)
      && (instate == FILL_BUF ==> inmsglen <= inbuf.Length - intogo)
    }

    /** Between calls the output starts at offset 0 unless the channel has failed. */
    predicate Valid()
      reads this
    {
      Shape() && (instate != ERROR ==> msgofs == 0)
    }

    /** What was received and not yet taken. */
    function Unread(): seq<byte>
      requires intogo <= inofs <= inbuf.Length
      reads this, inbuf
    {
      inbuf[intogo..inofs]
    }

    function View(): Reader
      requires intogo <= inofs <= inbuf.Length
      reads this, inbuf
    {
      if instate == ERROR then BROKEN
      else Reader(instate, protocol, maximumRemoteProtocol, if instate == FILL_BUF || instate == HAS_MSG then inmsglen else 0,
                  Unread())
    }

    /** What was written and not yet accepted by send(). */
    function Out(): seq<byte>
      requires msgofs + msgtogo <= msgbuf.Length
      reads this, msgbuf
    {
      msgbuf[msgofs..msgofs + msgtogo]
    }

    /** All that was ever written, sent or not. */
    ghost function Written(): seq<byte>
      requires msgofs + msgtogo <= msgbuf.Length
      reads this, msgbuf
    {
      wire + Out()
    }

    method SetError()
      requires Shape()
      modifies this`instate, this`eof
      ensures Valid() && instate == ERROR && eof
    {
      if instate == ERROR {
        return;
      }
      instate := ERROR;
      eof := true;
    }

    // -------------------------------------------------------------- input

    /** Moves the unread bytes to the front if much was read before them, or if it is cheap. */
    method ChopInput()
      requires Valid()
      modifies this`inofs, this`intogo, inbuf
      ensures Valid() && Unread() == old(Unread())
      ensures intogo <= old(intogo)
    {
      if intogo > 8192 || inofs - intogo <= 16 {
        ghost var was := Unread();
        var n := inofs - intogo;
        if n != 0 {
          forall i | 0 <= i < n { inbuf[i] := inbuf[intogo + i]; }
        }
        assert inbuf[..n] == was;
        inofs := n;
        intogo := 0;
      }
    }

    method EnlargeInput(size: nat)
      requires Valid() && inbuf.Length <= size
      modifies this`inbuf
      ensures Valid() && Unread() == old(Unread()) && fresh(inbuf) && inbuf.Length == size
    {
      inbuf := Grow(inbuf, inofs, size);
      assert inbuf[intogo..inofs] == inbuf[..inofs][intogo..];
      assert old(inbuf)[intogo..inofs] == old(inbuf)[..inofs][intogo..];
    }

    // -------------------------------------------------------------- output

    method ChopOutput()
      requires Shape()
      modifies this`msgofs, msgbuf
      ensures Shape() && Out() == old(Out())
      ensures msgtogo <= 16 ==> msgofs == 0
      ensures old(msgofs) == 0 ==> msgofs == 0
    {
      if msgofs > 8192 || msgtogo <= 16 {
        ghost var was := Out();
        if msgtogo != 0 {
          var ofs := msgofs;
          forall i | 0 <= i < msgtogo { msgbuf[i] := msgbuf[ofs + i]; }
        }
        assert msgbuf[..msgtogo] == was;
        msgofs := 0;
      }
    }

    /** Appends to the output behind `msgtogo` bytes, which is right because the output starts at offset 0. */
    method WriteFull(bytes: seq<byte>)
      requires Valid() && instate != ERROR
      modifies this`msgbuf, this`msgtogo, msgbuf
      ensures Valid() && Out() == old(Out()) + bytes
      ensures msgbuf == old(msgbuf) || fresh(msgbuf)
      ensures msgbuf != inbuf
    {
      var count := |bytes|;
      ghost var was := Out();
      if msgtogo + count >= msgbuf.Length {
        var size := Round(msgtogo + count);
        msgbuf := Grow(msgbuf, msgtogo, size);
      }
      assert msgbuf[..msgtogo] == was;
      forall i | 0 <= i < count { msgbuf[msgtogo + i] := bytes[i]; }
      assert msgbuf[..msgtogo] == was;
      msgtogo := msgtogo + count;
      assert msgbuf[..msgtogo] == was + bytes;
    }

    /** send() takes `ret` bytes. */
    method Accept(buf: nat, ret: nat)
      requires buf + msgtogo <= msgbuf.Length && ret <= msgtogo
      modifies this`msgtogo, this`wire
      ensures msgtogo == old(msgtogo) - ret && old(wire) <= wire
      ensures wire + msgbuf[buf + ret..buf + ret + msgtogo] == old(wire + msgbuf[buf..buf + msgtogo])
    {
      TakeOut(wire, msgbuf[..], buf, ret, msgtogo);
      wire := wire + msgbuf[buf..buf + ret];
      msgtogo := msgtogo - ret;
    }

    /** The loop of flush_writebuf; `buf` is where the rest of the output starts. */
    method Transmit(blocking: bool, results: seq<SendResult>) returns (buf: nat, error: bool)
      requires Valid() && instate != ERROR
      modifies this`msgtogo, this`wire
      ensures buf + msgtogo <= msgbuf.Length && wire + msgbuf[buf..buf + msgtogo] == old(Written())
      ensures old(wire) <= wire && (error || msgtogo == 0)
    {
      error := false;
      buf := msgofs;
      var i: nat := 0;
      ghost var was := Written();
      ghost var wire0 := wire;
      while msgtogo > 0
        invariant i <= |results| && !error && buf + msgtogo <= msgbuf.Length
        invariant wire + msgbuf[buf..buf + msgtogo] == was && wire0 <= wire
        decreases |results| - i
      {
        if i == |results| || results[i].Failed? {
          return buf, true;
        }
        var result := results[i];
        i := i + 1;
        if result.Interrupted? {
          continue;
        }
        if result.WouldBlock? {
          if blocking && result.becomesReady {
            continue;
          }
          return buf, true;
        }
        var ret := Min(result.n, Min(msgtogo, maxWriteSize));
        if ret == 0 {
          return buf, true;
        }
        Accept(buf, ret);
        buf := buf + ret;
      }
    }

    /** Hands the output to send() until all of it is accepted or an error shows. No byte is lost, doubled or
        reordered either way. `results` are the answers of send(), in order. */
    method FlushWritebuf(blocking: bool, results: seq<SendResult>) returns (ok: bool)
      requires Valid() && instate != ERROR
      modifies this`msgofs, this`msgtogo, this`instate, this`eof, this`wire, msgbuf
      ensures Valid() && Written() == old(Written()) && old(wire) <= wire
      ensures ok ==> msgtogo == 0 && instate == old(instate) && eof == old(eof)
      ensures !ok ==> instate == ERROR
    {
      var buf, error := Transmit(blocking, results);
      msgofs := buf;
      ghost var was := Written();
      ChopOutput();
      assert Written() == was;
      ok := !error;
      if error {
        SetError();
      }
    }

    // -------------------------------------------------------------- the state machine

    /** The 4 bytes at the cursor, least significant first. */
    method VersionWord() returns (w: nat)
      requires Shape() && inofs - intogo >= 4
      modifies this`intogo
      ensures intogo == old(intogo) + 4 && Unread() == old(Unread())[4..] && w == FromLittleEndian(old(Unread()))
    {
      ghost var b := Unread();
      w := 0;
      var factor := 1;
      for i := 0 to 4
        invariant factor == [1, 0x100, 0x10000, 0x1000000, WORD][i]
        invariant w == [0, b[0] as int, b[0] as int + b[1] as int * 0x100,
                        b[0] as int + b[1] as int * 0x100 + b[2] as int * 0x10000, FromLittleEndian(b)][i]
      {
        w := w + inbuf[intogo + i] as int * factor;
        factor := factor * 0x100;
      }
      intogo := intogo + 4;
    }

    /** The first word of the peer: the smaller version is proposed back. */
    method FirstVersion(results: seq<SendResult>) returns (ok: bool)
      requires Valid() && instate == NEED_PROTO && protocol == -1 && inofs - intogo >= 4
      modifies this, msgbuf
      ensures Valid() && fresh({msgbuf} - {old(msgbuf)}) && inbuf == old(inbuf) && ok == (instate != ERROR)
      ensures var w := FromLittleEndian(old(Unread()));
        if !Supported(w) then !ok && Written() == old(Written())
        else
          && Written() == old(Written()) + LittleEndian(Min(w, version))
          && (ok ==> instate == NEED_PROTO && eof == old(eof) && protocol == -1 - Min(w, version) && maximumRemoteProtocol == w
                     && Unread() == old(Unread())[4..] && intogo == old(intogo) + 4 && inofs == old(inofs))
    {
      var w := VersionWord();
      if !Supported(w) {
        SetError();
        return false;
      }
      maximumRemoteProtocol := w;
      ok := Propose(if w > version then version else w, results);
    }

    method Propose(v: nat, results: seq<SendResult>) returns (ok: bool)
      requires Valid() && instate == NEED_PROTO
      modifies this`msgbuf, this`msgtogo, this`msgofs, this`wire, this`instate, this`eof, this`protocol, msgbuf
      ensures Valid() && fresh({msgbuf} - {old(msgbuf)}) && ok == (instate != ERROR)
      ensures Written() == old(Written()) + LittleEndian(v)
      ensures ok ==> instate == NEED_PROTO && protocol == -1 - v && eof == old(eof)
    {
      hide LittleEndian;
      ghost var was := Written();
      WriteFull(LittleEndian(v));
      assert Written() == was + LittleEndian(v);
      ok := FlushWritebuf(true, results);
      if ok {
        protocol := -1 - v;
      }
    }

    /** The second word must repeat the proposal. */
    method SecondVersion() returns (ok: bool)
      requires Valid() && instate == NEED_PROTO && protocol < -1 && inofs - intogo >= 4
      modifies this`intogo, this`protocol, this`instate, this`eof
      ensures Valid() && ok == (instate != ERROR)
      ensures Second(old(View())) == if ok then Length(View()) else BROKEN
      ensures ok ==> instate == NEED_LEN && eof == old(eof)
    {
      hide Length;
      var w := VersionWord();
      if w != -1 - protocol {
        SetError();
        return false;
      }
      protocol := -1 - protocol;
      instate := NEED_LEN;
      return true;
    }

    /** The handshake part of update_state: at most two words are read, and none of the messages. */
    method NeedProto(results: seq<SendResult>) returns (ok: bool, ghost echo: seq<byte>)
      requires Valid() && instate == NEED_PROTO
      modifies this, msgbuf
      ensures Valid() && fresh({msgbuf} - {old(msgbuf)}) && inbuf == old(inbuf) && ok == (instate != ERROR)
      ensures Written() == old(Written()) + echo && echo == Settle(old(View()), version).1
      ensures ok ==> eof == old(eof) && (instate == NEED_PROTO || instate == NEED_LEN)
      ensures ok ==> Settle(old(View()), version).0 == if instate == NEED_PROTO then View() else Length(View())
      ensures !ok ==> Settle(old(View()), version).0 == BROKEN || echo != []
    {
      hide Settle, Second, Length, LittleEndian, FromLittleEndian;
      ghost var r0 := View();
      echo := [];
      if protocol < -1 { SettleSecond(r0, version); }
      while inofs - intogo >= 4
        invariant Valid() && instate == NEED_PROTO && inbuf == old(inbuf) && fresh({msgbuf} - {old(msgbuf)})
        invariant Written() == old(Written()) + echo && eof == old(eof)
        invariant if protocol == -1 then View() == r0 && echo == []
                  else Settle(r0, version) == (Settle(View(), version).0, echo) && Settle(View(), version).1 == []
        decreases inofs - intogo
      {
        if protocol == -1 {
          SettleFirst(r0, version);
          echo := Settle(r0, version).1;
          ok := FirstVersion(results);
          if !ok {
            return;
          }
          assert View() == Proposed(r0, version);
        } else {
          SettleSecond(View(), version);
          ok := SecondVersion();
          return;
        }
      }
      SettleShort(View(), version);
      ok := true;
    }

    /** The length of the next message, and room for it. */
    method NeedLen()
      requires Valid() && instate == NEED_LEN && inofs - intogo >= 4
      modifies this`instate, this`inmsglen, this`intogo, this`inbuf
      ensures Valid() && View() == Length(old(View())) && fresh({inbuf} - {old(inbuf)}) && instate != ERROR
    {
      hide FromBigEndian;
      ghost var was := Unread();
      inmsglen := PeekWord();
      intogo := intogo + 4;
      assert Unread() == was[4..];
      if inbuf.Length - intogo < inmsglen {
        EnlargeInput(Round(inmsglen + intogo));
      }
      instate := FILL_BUF;
      if inofs - intogo >= inmsglen {
        instate := HAS_MSG;
      }
    }

    /** The 4 bytes at the cursor, most significant first. */
    method PeekWord() returns (w: nat)
      requires Shape() && inofs - intogo >= 4
      ensures w == FromBigEndian(Unread())
    {
      w := inbuf[intogo] as int * 0x1000000 + inbuf[intogo + 1] as int * 0x10000
         + inbuf[intogo + 2] as int * 0x100 + inbuf[intogo + 3] as int;
    }

    /** update_state: does with the unread bytes what they allow. If the version word could not be sent
        back, the channel has failed. */
    method UpdateState(results: seq<SendResult>) returns (ok: bool, ghost echo: seq<byte>)
      requires Valid()
      modifies this, msgbuf
      ensures Valid() && fresh({msgbuf} - {old(msgbuf)}) && fresh({inbuf} - {old(inbuf)}) && ok == (instate != ERROR)
      ensures Written() == old(Written()) + echo && echo == Settle(old(View()), version).1
      ensures View() == Settle(old(View()), version).0 || (View() == BROKEN && echo != [])
      ensures ok ==> eof == old(eof)
    {
      hide Length, FromBigEndian, FromLittleEndian, LittleEndian;
      ok, echo := true, [];
      if instate == NEED_PROTO {
        ok, echo := NeedProto(results);
        if !ok || instate == NEED_PROTO {
          return;
        }
      }
      if instate == NEED_LEN {
        if inofs - intogo < 4 {
          LengthShort(View());
          return;
        }
        NeedLen();
        return;
      }
      if instate == FILL_BUF && inofs - intogo >= inmsglen {
        instate := HAS_MSG;
      }
      ok := instate != ERROR;
    }

    /** The buffer part of read_a_bit: compacts it, makes room for at least 128 bytes, and reads once. */
    method FillBuffer(result: ReadResult) returns (taken: nat)
      requires Valid()
      modifies this`inofs, this`intogo, this`inbuf, this`eof, inbuf
      ensures Valid() && fresh({inbuf} - {old(inbuf)})
      ensures taken <= |Available(result, old(eof))| && (Available(result, old(eof)) != [] ==> taken > 0)
      ensures Unread() == old(Unread()) + Available(result, old(eof))[..taken]
      ensures eof == (old(eof) || result.EndOfFile?)
    {
      ChopInput();
      if inbuf.Length - inofs < 128 {
        EnlargeInput(Round(inbuf.Length + 128));
      }
      taken := 0;
      if !eof {
        if result.Data? {
          taken := Min(|result.bytes|, inbuf.Length - inofs);
          Store(result.bytes[..taken]);
        } else if result.EndOfFile? {
          eof := true;
        }
      }
    }

    /** read_a_bit: `taken` bytes of what the socket had were read; the others stay there. */
    method ReadABit(result: ReadResult, results: seq<SendResult>) returns (ok: bool, taken: nat, ghost echo: seq<byte>)
      requires Valid()
      modifies this, inbuf, msgbuf
      ensures Valid() && fresh({msgbuf} - {old(msgbuf)}) && fresh({inbuf} - {old(inbuf)}) && ok == (instate != ERROR)
      ensures taken <= |Available(result, old(eof))| && (Available(result, old(eof)) != [] ==> taken > 0)
      ensures Written() == old(Written()) + echo
      ensures echo == Feed(old(View()), Available(result, old(eof))[..taken], version).1
      ensures View() == Feed(old(View()), Available(result, old(eof))[..taken], version).0
           || (View() == BROKEN && (echo != [] || result.ReadFailed?))
      ensures ok ==> eof == (old(eof) || result.EndOfFile?)
    {
      hide Settle;
      ghost var r0 := View();
      var ended := eof;
      taken := FillBuffer(result);
      FeedBroken(r0, Available(result, ended)[..taken], version);
      ok, echo := UpdateState(results);
      if !ended && result.ReadFailed? {
        SetError();
        ok := false;
      }
    }

    method Store(bytes: seq<byte>)
      requires Valid() && |bytes| <= inbuf.Length - inofs
      modifies this`inofs, inbuf
      ensures Valid() && Unread() == old(Unread()) + bytes
    {
      ghost var was := inbuf[..];
      var n := |bytes|;
      forall i | 0 <= i < n { inbuf[inofs + i] := bytes[i]; }
      StoredBehind(was, inbuf[..], intogo, inofs, bytes);
      inofs := inofs + n;
    }

    // -------------------------------------------------------------- values out

    method WriteWord(n: nat)
      requires Valid() && instate != ERROR
      modifies this`msgbuf, this`msgtogo, msgbuf
      ensures Valid() && fresh({msgbuf} - {old(msgbuf)})
      ensures forall k {:trigger PutWord(n, k)} :: Out() + k == old(Out()) + PutWord(n, k)
    {
      hide BigEndian;
      ghost var was := Out();
      WriteFull(BigEndian(n));
      forall k ensures Out() + k == was + PutWord(n, k) {
        assert was + BigEndian(n) + k == was + (BigEndian(n) + k);
      }
    }

    method WriteText(s: Text)
      requires Valid() && instate != ERROR
      modifies this`msgbuf, this`msgtogo, msgbuf
      ensures Valid() && fresh({msgbuf} - {old(msgbuf)})
      ensures forall k {:trigger PutText(s, k)} :: Out() + k == old(Out()) + PutText(s, k)
    {
      hide PutWord;
      ghost var was := Out();
      WriteWord(|s| + 1);
      ghost var mid := Out();
      WriteFull(s + [0]);
      forall k ensures Out() + k == was + PutText(s, k) {
        assert mid + (s + [0]) + k == mid + (s + [0] + k);
      }
    }

    method WriteList(l: seq<Text>)
      requires Valid() && instate != ERROR
      modifies this`msgbuf, this`msgtogo, msgbuf
      ensures Valid() && fresh({msgbuf} - {old(msgbuf)})
      ensures forall k {:trigger PutList(l, k)} :: Out() + k == old(Out()) + PutList(l, k)
    {
      hide PutWord, PutText;
      ghost var was := Out();
      WriteWord(|l|);
      ghost var mid := Out();
      assert l[0..] == l;
      for i := 0 to |l|
        invariant Valid() && instate != ERROR && fresh({msgbuf} - {old(msgbuf)})
        invariant forall k :: Out() + PutTexts(l[i..], k) == mid + PutTexts(l, k)
      {
        ghost var here := Out();
        WriteText(l[i]);
        TextsStep(l, i);
        assert forall k :: Out() + PutTexts(l[i + 1..], k) == here + PutTexts(l[i..], k);
      }
      assert forall k :: PutTexts(l[|l|..], k) == k;
      assert forall k :: Out() + k == mid + PutTexts(l, k);
    }

    method WriteEnvironments(l: Environments)
      requires Valid() && instate != ERROR
      modifies this`msgbuf, this`msgtogo, msgbuf
      ensures Valid() && fresh({msgbuf} - {old(msgbuf)})
      ensures forall k {:trigger PutEnvironments(l, k)} :: Out() + k == old(Out()) + PutEnvironments(l, k)
    {
      hide PutWord, PutText;
      ghost var was := Out();
      WriteWord(|l|);
      ghost var mid := Out();
      assert l[0..] == l;
      for i := 0 to |l|
        invariant Valid() && instate != ERROR && fresh({msgbuf} - {old(msgbuf)})
        invariant forall k :: Out() + PutPairs(l[i..], k) == mid + PutPairs(l, k)
      {
        ghost var here := Out();
        WriteText(l[i].0);
        WriteText(l[i].1);
        PairsStep(l, i);
        assert forall k :: Out() + PutPairs(l[i + 1..], k) == here + PutPairs(l[i..], k);
      }
      assert forall k :: PutPairs(l[|l|..], k) == k;
      assert forall k :: Out() + k == mid + PutPairs(l, k);
    }

    method WriteBool(v: bool)
      requires Valid() && instate != ERROR
      modifies this`msgbuf, this`msgtogo, msgbuf
      ensures Valid() && fresh({msgbuf} - {old(msgbuf)})
      ensures forall k {:trigger PutBool(v, k)} :: Out() + k == old(Out()) + PutBool(v, k)
    {
      hide PutWord;
      WriteWord(if v then 1 else 0);
    }

    // -------------------------------------------------------------- messages out

    method SendGetCS(m: GetCS)
      requires Valid() && instate != ERROR && protocol > 0 && Int32(m.minimalHostVersion)
      modifies this`msgbuf, this`msgtogo, msgbuf
      ensures Valid() && fresh({msgbuf} - {old(msgbuf)})
      ensures forall k {:trigger PutGetCS(m, protocol, k)} :: Out() + k == old(Out()) + PutGetCS(m, protocol, k)
    {
      hide PutWord, PutText, PutEnvironments, Shorten, PutGetCSHost;
      WriteEnvironments(m.versions);
      var filename := ShortenFilename(m.filename);
      WriteText(filename);
      WriteWord(m.lang);
      WriteWord(m.count);
      WriteText(m.target);
      WriteWord(m.argFlags);
      WriteWord(m.clientId);
      SendGetCSHost(m);
    }

    method SendGetCSHost(m: GetCS)
      requires Valid() && instate != ERROR && protocol > 0 && Int32(m.minimalHostVersion)
      modifies this`msgbuf, this`msgtogo, msgbuf
      ensures Valid() && fresh({msgbuf} - {old(msgbuf)})
      ensures forall k {:trigger PutGetCSHost(m, protocol, k)} :: Out() + k == old(Out()) + PutGetCSHost(m, protocol, k)
    {
      hide PutWord, PutText, ToWord;
      if protocol >= 22 { WriteText(m.preferredHost); }
      if protocol >= 31 { WriteWord(if m.minimalHostVersion >= 31 then 1 else 0); }
      if protocol >= 34 { WriteWord(ToWord(m.minimalHostVersion)); }
      if protocol >= 39 { WriteWord(m.clientCount); }
      if protocol >= 42 { WriteWord(m.requiredFeatures); }
      if protocol >= 43 { WriteWord(m.niceness); }
    }

    method SendUseCS(m: UseCS)
      requires Valid() && instate != ERROR && protocol > 0
      modifies this`msgbuf, this`msgtogo, msgbuf
      ensures Valid() && fresh({msgbuf} - {old(msgbuf)})
      ensures forall k {:trigger PutUseCS(m, protocol, k)} :: Out() + k == old(Out()) + PutUseCS(m, protocol, k)
    {
      hide PutWord, PutText;
      WriteWord(m.jobId);
      WriteWord(m.port);
      WriteText(m.hostname);
      WriteText(m.hostPlatform);
      WriteWord(m.gotEnv);
      WriteWord(m.clientId);
      if protocol >= 28 { WriteWord(m.matchedJobId); }
    }

    method SendJobDone(m: JobDone)
      requires Valid() && instate != ERROR && protocol > 0 && Int32(m.exitcode)
      modifies this`msgbuf, this`msgtogo, msgbuf
      ensures Valid() && fresh({msgbuf} - {old(msgbuf)})
      ensures forall k {:trigger PutJobDone(m, protocol, k)} :: Out() + k == old(Out()) + PutJobDone(m, protocol, k)
    {
      hide PutWord, PutStats, ToWord, Unknown;
      WriteWord(m.jobId);
      if protocol < 39 && Unknown(m.flags) {
        WriteWord(UNKNOWN_JOB_EXIT);
      } else {
        WriteWord(ToWord(m.exitcode));
      }
      SendStats(m.stats);
      WriteWord(m.flags);
      if protocol >= 39 { WriteWord(m.clientCount); }
    }

    method SendStats(m: JobStats)
      requires Valid() && instate != ERROR
      modifies this`msgbuf, this`msgtogo, msgbuf
      ensures Valid() && fresh({msgbuf} - {old(msgbuf)})
      ensures forall k {:trigger PutStats(m, k)} :: Out() + k == old(Out()) + PutStats(m, k)
    {
      hide PutWord;
      WriteWord(m.realMsec);
      WriteWord(m.userMsec);
      WriteWord(m.sysMsec);
      WriteWord(m.pfaults);
      WriteWord(m.inCompressed);
      WriteWord(m.inUncompressed);
      WriteWord(m.outCompressed);
      WriteWord(m.outUncompressed);
    }

    method SendJobLocalBegin(m: JobLocalBegin)
      requires Valid() && instate != ERROR && protocol > 0
      modifies this`msgbuf, this`msgtogo, msgbuf
      ensures Valid() && fresh({msgbuf} - {old(msgbuf)})
      ensures forall k {:trigger PutJobLocalBegin(m, protocol, k)} :: Out() + k == old(Out()) + PutJobLocalBegin(m, protocol, k)
    {
      hide PutWord, PutText, PutBool;
      WriteWord(m.stime);
      WriteText(m.outfile);
      WriteWord(m.id);
      if protocol >= 44 { WriteBool(m.fulljob); }
      if protocol >= 45 { WriteWord(m.niceness); }
    }

    method SendLogin(m: Login)
      requires Valid() && instate != ERROR && protocol > 0
      modifies this`msgbuf, this`msgtogo, msgbuf
      ensures Valid() && fresh({msgbuf} - {old(msgbuf)})
      ensures forall k {:trigger PutLogin(m, protocol, k)} :: Out() + k == old(Out()) + PutLogin(m, protocol, k)
    {
      hide PutWord, PutText, PutBool, PutEnvironments, Out;
      WriteWord(m.port);
      WriteWord(m.maxKids);
      WriteEnvironments(m.envs);
      WriteText(m.nodename);
      WriteText(m.hostPlatform);
      WriteBool(m.chrootPossible);
      if protocol >= 26 { WriteBool(m.noremote); }
      if protocol >= 42 { WriteWord(m.supportedFeatures); }
    }

    method SendFlags(m: CompileJob)
      requires Valid() && instate != ERROR && protocol > 0
      modifies this`msgbuf, this`msgtogo, msgbuf
      ensures Valid() && fresh({msgbuf} - {old(msgbuf)})
      ensures forall k {:trigger PutFlags(m, protocol, k)} :: Out() + k == old(Out()) + PutFlags(m, protocol, k)
    {
      hide PutList, OfType, NonLocal, ClangLike;
      var rest := FlagsOf(m.flags, Rest);
      if protocol >= 41 {
        var args := NonLocalFlags(m.flags);
        WriteList(args);
      } else {
        var remote := FlagsOf(m.flags, Remote);
        if protocol < 30 && ClangLike(m.compilerName) {
          remote := [CLANG] + remote;
        }
        assert remote == RemoteFlags(m, protocol);
        WriteList(remote);
        WriteList(rest);
      }
    }

    method SendFiles(m: CompileJob)
      requires Valid() && instate != ERROR && protocol > 0
      modifies this`msgbuf, this`msgtogo, msgbuf
      ensures Valid() && fresh({msgbuf} - {old(msgbuf)})
      ensures forall k {:trigger PutFiles(m, protocol, k)} :: Out() + k == old(Out()) + PutFiles(m, protocol, k)
    {
      hide PutText, PutBool, RemoteCompiler;
      if protocol >= 30 { WriteText(RemoteCompiler(m)); }
      if protocol >= 34 {
        WriteText(m.inputFile);
        WriteText(m.workingDirectory);
      }
      if protocol >= 35 {
        WriteText(m.outputFile);
        WriteBool(m.dwarfFission);
      }
    }

    method SendCompileFile(m: CompileJob)
      requires Valid() && instate != ERROR && protocol > 0
      modifies this`msgbuf, this`msgtogo, msgbuf
      ensures Valid() && fresh({msgbuf} - {old(msgbuf)})
      ensures forall k {:trigger PutCompileFile(m, protocol, k)} :: Out() + k == old(Out()) + PutCompileFile(m, protocol, k)
    {
      hide PutWord, PutText, PutFlags, PutFiles;
      WriteWord(m.language);
      WriteWord(m.jobId);
      SendFlags(m);
      WriteText(m.environmentVersion);
      WriteText(m.targetPlatform);
      SendFiles(m);
    }

    method SendToChannel(m: Msg)
      requires Valid() && instate != ERROR && protocol > 0 && Signed(m)
      modifies this`msgbuf, this`msgtogo, msgbuf
      ensures Valid() && fresh({msgbuf} - {old(msgbuf)})
      ensures forall k {:trigger PutMsg(m, protocol, k)} :: Out() + k == old(Out()) + PutMsg(m, protocol, k)
    {
      hide PutWord, PutGetCS, PutUseCS, PutJobDone, PutJobLocalBegin, PutLogin, PutCompileFile;
      WriteWord(Type(m));
      match m
      case Ping =>
      case End =>
      case GetCSMsg(g) => SendGetCS(g);
      case UseCSMsg(u) => SendUseCS(u);
      case JobDoneMsg(d) => SendJobDone(d);
      case JobLocalBeginMsg(l) => SendJobLocalBegin(l);
      case LoginMsg(l) => SendLogin(l);
      case CompileFileMsg(j) => SendCompileFile(j);
    }

    /** Puts the real length over the placeholder. */
    method PatchLength(at: nat, len: nat)
      requires Valid() && instate != ERROR && at + 4 <= msgtogo
      modifies msgbuf
      ensures Valid() && Out() == old(Out())[..at] + BigEndian(len) + old(Out())[at + 4..]
    {
      var b := BigEndian(len);
      hide BigEndian;
      forall i | 0 <= i < 4 { msgbuf[at + i] := b[i]; }
      assert msgbuf[at..at + 4] == b;
    }

    /** wait_for_protocol: reads until the versions are agreed. `inputs` are the answers of poll and read in
        order; when they are used up, poll times out. */
    method WaitForProtocol(inputs: seq<ReadResult>, results: seq<SendResult>)
      returns (ok: bool, ghost chunks: seq<seq<byte>>, ghost echo: seq<byte>)
      requires Valid()
      modifies this, msgbuf, inbuf
      ensures Valid() && fresh({msgbuf} - {old(msgbuf)}) && fresh({inbuf} - {old(inbuf)})
      ensures Written() == old(Written()) + echo
      ensures ok ==> instate != NEED_PROTO && instate != ERROR && (View(), echo) == FeedAll(old(View()), chunks, version)
      ensures !ok ==> instate == ERROR || eof
    {
      hide Feed;
      chunks, echo := [], [];
      if instate == ERROR {
        return false, chunks, echo;
      }
      var i := 0;
      while instate == NEED_PROTO
        invariant i <= |inputs| && instate != ERROR
        invariant Valid() && fresh({msgbuf} - {old(msgbuf)}) && fresh({inbuf} - {old(inbuf)})
        invariant Written() == old(Written()) + echo
        invariant (View(), echo) == FeedAll(old(View()), chunks, version)
        decreases |inputs| - i
      {
        if i == |inputs| {
          SetError();
          return false, chunks, echo;
        }
        ghost var chunk, more := [], [];
        ok, chunk, more := ReadOnce(inputs[i], results);
        FeedAllStep(old(View()), chunks, chunk, version);
        chunks, echo := chunks + [chunk], echo + more;
        if !ok || eof {
          return false, chunks, echo;
        }
        i := i + 1;
      }
      ok := true;
    }

    method ReadOnce(read: ReadResult, results: seq<SendResult>)
      returns (ok: bool, ghost chunk: seq<byte>, ghost echo: seq<byte>)
      requires Valid()
      modifies this, msgbuf, inbuf
      ensures Valid() && fresh({msgbuf} - {old(msgbuf)}) && fresh({inbuf} - {old(inbuf)}) && ok == (instate != ERROR)
      ensures Written() == old(Written()) + echo && echo == Feed(old(View()), chunk, version).1
      ensures ok ==> View() == Feed(old(View()), chunk, version).0
    {
      hide Feed;
      ghost var was := eof;
      var taken;
      ok, taken, echo := ReadABit(read, results);
      chunk := Available(read, was)[..taken];
    }

    /** send_msg: the message is framed for the version agreed, and flushed unless it is to wait for bulk. The
        handshake is finished first; `chunks` is what was read for it, and nothing of that is lost. */
    method SendMsg(m: Msg, blocking: bool, bulkOnly: bool, inputs: seq<ReadResult>, results: seq<SendResult>)
      returns (ok: bool, ghost chunks: seq<seq<byte>>, ghost echo: seq<byte>)
      requires Valid() && Signed(m)
      modifies this, msgbuf, inbuf
      ensures Valid() && fresh({msgbuf} - {old(msgbuf)}) && fresh({inbuf} - {old(inbuf)})
      ensures ok ==> instate != NEED_PROTO && instate != ERROR
      ensures ok ==> Written() == old(Written()) + echo + PutFrame(m, protocol, [])
      ensures ok ==> !bulkOnly || |Out()| >= 4096 ==> Out() == []
      ensures ok ==> (View(), echo) == FeedAll(old(View()), chunks, version)
      ensures old(instate) != NEED_PROTO ==> chunks == [] && echo == []
      ensures !ok ==> instate == ERROR || eof
    {
      hide PutFrame, Feed;
      chunks, echo := [], [];
      if instate == ERROR {
        return false, chunks, echo;
      }
      if instate == NEED_PROTO {
        ok, chunks, echo := WaitForProtocol(inputs, results);
        if !ok {
          return;
        }
      }
      ok := SendFrame(m, blocking, bulkOnly, results);
    }

    method SendFrame(m: Msg, blocking: bool, bulkOnly: bool, results: seq<SendResult>) returns (ok: bool)
      requires Valid() && instate != NEED_PROTO && instate != ERROR && Signed(m)
      modifies this`msgbuf, this`msgtogo, this`msgofs, this`wire, this`instate, this`eof, msgbuf
      ensures Valid() && fresh({msgbuf} - {old(msgbuf)}) && old(wire) <= wire && ok == (instate != ERROR)
      ensures ok ==> View() == old(View()) && (!bulkOnly || |Out()| >= 4096 ==> Out() == [])
      ensures Written() == old(Written()) + PutFrame(m, protocol, [])
    {
      hide PutFrame;
      ghost var was := Written();
      Frame(m);
      assert Written() == was + PutFrame(m, protocol, []);
      if bulkOnly && msgtogo < 4096 {
        return true;
      }
      ok := FlushWritebuf(blocking, results);
    }

    /** The framed message joins the output; its length is known once it is written. */
    method Frame(m: Msg)
      requires Valid() && instate != ERROR && instate != NEED_PROTO && Signed(m)
      modifies this`msgbuf, this`msgtogo, this`msgofs, msgbuf
      ensures Valid() && fresh({msgbuf} - {old(msgbuf)})
      ensures Out() == old(Out()) + PutFrame(m, protocol, [])
    {
      hide PutMsg, BigEndian, PutFrame;
      ChopOutput();
      ghost var was := Out();
      var msgtogoOld := msgtogo;
      FrameBody(m);
      ghost var body := PutMsg(m, protocol, []);
      Framed(was, body);
      PatchLength(msgtogoOld, msgtogo - msgtogoOld - 4);
      FrameIs(m, protocol, was);
    }

    method FrameBody(m: Msg)
      requires Valid() && instate != ERROR && instate != NEED_PROTO && Signed(m)
      modifies this`msgbuf, this`msgtogo, msgbuf
      ensures Valid() && fresh({msgbuf} - {old(msgbuf)})
      ensures Out() == old(Out()) + BigEndian(0) + PutMsg(m, protocol, [])
    {
      hide PutMsg, BigEndian;
      ghost var was := Out();
      WriteWord(0);
      assert Out() + [] == was + PutWord(0, []);
      assert Out() == was + BigEndian(0) by { assert PutWord(0, []) == BigEndian(0); }
      SendToChannel(m);
      assert Out() + [] == was + BigEndian(0) + PutMsg(m, protocol, []);
    }

    // -------------------------------------------------------------- values in

    method ReadWord() returns (n: nat)
      requires Valid() && instate == HAS_MSG
      modifies this`intogo
      ensures Valid() && (n, Unread()) == GetWord(old(Unread()))
    {
      if inofs >= intogo + 4 {
        n := PeekWord();
        ghost var was := Unread();
        intogo := intogo + 4;
        assert Unread() == was[4..];
      } else {
        n := 0;
      }
    }

    /** The string ends at its first NUL; a length beyond the unread bytes yields the empty string. */
    method ReadText() returns (s: Text)
      requires Valid() && instate == HAS_MSG
      modifies this`intogo
      ensures Valid() && (s, Unread()) == GetText(old(Unread()))
    {
      hide GetWord, UpToNul;
      var len := ReadWord();
      if len == 0 || len > inofs - intogo {
        s := [];
      } else {
        ghost var was := Unread();
        assert inbuf[intogo..intogo + len] == was[..len];
        s := UpToNul(inbuf[intogo..intogo + len]);
        intogo := intogo + len;
        assert Unread() == was[len..];
      }
    }

    method ReadList() returns (l: seq<Text>)
      requires Valid() && instate == HAS_MSG
      modifies this`intogo
      ensures Valid() && (l, Unread()) == GetList(old(Unread()))
    {
      hide GetWord, GetText;
      var len := ReadWord();
      l := [];
      ghost var target := GetTexts(len, Unread());
      assert [] + target.0 == target.0;
      while len > 0
        invariant Valid()
        invariant target == (l + GetTexts(len, Unread()).0, GetTexts(len, Unread()).1)
      {
        TextsUnfold(len, Unread(), l);
        len := len - 1;
        var s := ReadText();
        l := l + [s];
        if inofs == intogo {
          return;
        }
      }
      assert l + [] == l;
    }

    method ReadEnvironments() returns (l: Environments)
      requires Valid() && instate == HAS_MSG
      modifies this`intogo
      ensures Valid() && (l, Unread()) == GetEnvironments(old(Unread()))
    {
      hide GetWord, GetText;
      var count := ReadWord();
      l := [];
      ghost var target := GetPairs(count, Unread());
      assert [] + target.0 == target.0;
      for i := 0 to count
        invariant Valid()
        invariant target == (l + GetPairs(count - i, Unread()).0, GetPairs(count - i, Unread()).1)
      {
        PairsUnfold(count - i, Unread(), l);
        var platform := ReadText();
        var version := ReadText();
        l := l + [(platform, version)];
      }
      assert l + [] == l;
    }

    method ReadBool() returns (v: bool)
      requires Valid() && instate == HAS_MSG
      modifies this`intogo
      ensures Valid() && (v, Unread()) == GetBool(old(Unread()))
    {
      hide GetWord;
      var n := ReadWord();
      v := n != 0;
    }

    // -------------------------------------------------------------- messages in

    method FillGetCS() returns (m: GetCS)
      requires Valid() && instate == HAS_MSG && protocol > 0
      modifies this`intogo
      ensures Valid() && (m, Unread()) == GetGetCS(old(Unread()), protocol)
    {
      hide GetWord, GetText, GetEnvironments, GetGetCSHost;
      var versions := ReadEnvironments();
      var filename := ReadText();
      var lang := ReadWord();
      var count := ReadWord();
      var target := ReadText();
      var argFlags := ReadWord();
      var clientId := ReadWord();
      var host := FillGetCSHost();
      m := GetCS(versions, filename, lang, count, target, argFlags, clientId,
                 host.host, host.minimal, host.clients, host.features, host.niceness);
    }

    method FillGetCSHost() returns (m: GetCSHost)
      requires Valid() && instate == HAS_MSG && protocol > 0
      modifies this`intogo
      ensures Valid() && (m, Unread()) == GetGetCSHost(old(Unread()), protocol)
    {
      hide GetWord, GetText, FromWord;
      var host, minimal, clients, features, niceness := [], 0, 0, 0, 0;
      if protocol >= 22 { host := ReadText(); }
      if protocol >= 31 {
        var ign := ReadWord();
        if ign != 0 && minimal < 31 { minimal := 31; }
      }
      if protocol >= 34 {
        var v := ReadWord();
        minimal := Max(minimal, FromWord(v));
      }
      if protocol >= 39 { clients := ReadWord(); }
      if protocol >= 42 { features := ReadWord(); }
      if protocol >= 43 { niceness := ReadWord(); }
      m := GetCSHost(host, minimal, clients, features, niceness);
    }

    method FillUseCS() returns (m: UseCS)
      requires Valid() && instate == HAS_MSG && protocol > 0
      modifies this`intogo
      ensures Valid() && (m, Unread()) == GetUseCS(old(Unread()), protocol)
    {
      hide GetWord, GetText;
      var jobId := ReadWord();
      var port := ReadWord();
      var hostname := ReadText();
      var hostPlatform := ReadText();
      var gotEnv := ReadWord();
      var clientId := ReadWord();
      var matched := 0;
      if protocol >= 28 { matched := ReadWord(); }
      m := UseCS(jobId, port, hostname, hostPlatform, gotEnv, clientId, matched);
    }

    method FillStats() returns (m: JobStats)
      requires Valid() && instate == HAS_MSG
      modifies this`intogo
      ensures Valid() && (m, Unread()) == GetStats(old(Unread()))
    {
      hide GetWord;
      var realMs := ReadWord();
      var user := ReadWord();
      var sys := ReadWord();
      var pfaults := ReadWord();
      var inC := ReadWord();
      var inU := ReadWord();
      var outC := ReadWord();
      var outU := ReadWord();
      m := JobStats(realMs, user, sys, pfaults, inC, inU, outC, outU);
    }

    method FillJobDone() returns (m: JobDone)
      requires Valid() && instate == HAS_MSG && protocol > 0
      modifies this`intogo
      ensures Valid() && (m, Unread()) == GetJobDone(old(Unread()), protocol)
    {
      hide GetWord, GetStats, FromWord, MarkUnknown;
      var jobId := ReadWord();
      var code := ReadWord();
      var stats := FillStats();
      var flags := ReadWord();
      var exitcode := FromWord(code);
      if protocol < 39 && exitcode == UNKNOWN_JOB_EXIT {
        flags := MarkUnknown(flags);
      }
      var clients := 0;
      if protocol >= 39 { clients := ReadWord(); }
      m := JobDone(jobId, exitcode, stats, flags, clients);
    }

    method FillJobLocalBegin() returns (m: JobLocalBegin)
      requires Valid() && instate == HAS_MSG && protocol > 0
      modifies this`intogo
      ensures Valid() && (m, Unread()) == GetJobLocalBegin(old(Unread()), protocol)
    {
      hide GetWord, GetText, GetBool;
      var stime := ReadWord();
      var outfile := ReadText();
      var id := ReadWord();
      var full, niceness := false, 0;
      if protocol >= 44 { full := ReadBool(); }
      if protocol >= 45 { niceness := ReadWord(); }
      m := JobLocalBegin(stime, outfile, id, full, niceness);
    }

    method FillLogin() returns (m: Login)
      requires Valid() && instate == HAS_MSG && protocol > 0
      modifies this`intogo
      ensures Valid() && (m, Unread()) == GetLogin(old(Unread()), protocol)
    {
      hide GetWord, GetText, GetEnvironments, GetBool;
      var port := ReadWord();
      var maxKids := ReadWord();
      var envs := ReadEnvironments();
      var nodename := ReadText();
      var hostPlatform := ReadText();
      var chroot := ReadBool();
      var noremote, features := false, 0;
      if protocol >= 26 { noremote := ReadBool(); }
      if protocol >= 42 { features := ReadWord(); }
      m := Login(port, maxKids, envs, nodename, hostPlatform, chroot, noremote, features);
    }

    method AppendTagged(flags: Flags, args: seq<Text>, t: ArgumentType) returns (l: Flags)
      ensures l == flags + Tagged(args, t)
    {
      l := flags;
      assert args[0..] == args;
      for i := 0 to |args|
        invariant flags + Tagged(args, t) == l + Tagged(args[i..], t)
      {
        assert args[i..][1..] == args[i + 1..];
        assert l + ([(args[i], t)] + Tagged(args[i + 1..], t)) == l + [(args[i], t)] + Tagged(args[i + 1..], t);
        l := l + [(args[i], t)];
      }
    }

    method FillFlags() returns (m: Flags)
      requires Valid() && instate == HAS_MSG && protocol > 0
      modifies this`intogo
      ensures Valid() && (m, Unread()) == GetFlags(old(Unread()), protocol)
    {
      hide GetList, Tagged;
      if protocol >= 41 {
        var args := ReadList();
        m := AppendTagged([], args, Remote);
      } else {
        var l1 := ReadList();
        var l2 := ReadList();
        m := AppendTagged([], l1, Remote);
        m := AppendTagged(m, l2, Rest);
      }
      assert forall l: Flags :: [] + l == l;
    }

    method FillCompileFile() returns (m: CompileJob)
      requires Valid() && instate == HAS_MSG && protocol > 0
      modifies this`intogo
      ensures Valid() && (m, Unread()) == GetCompileFile(old(Unread()), protocol)
    {
      hide GetWord, GetText, GetBool, GetFlags;
      var language := ReadWord();
      var jobId := ReadWord();
      var flags := FillFlags();
      var version := ReadText();
      var target := ReadText();
      var compiler, input, directory, output, dwarf := [], [], [], [], false;
      if protocol >= 30 { compiler := ReadText(); }
      if protocol >= 34 {
        input := ReadText();
        directory := ReadText();
      }
      if protocol >= 35 {
        output := ReadText();
        dwarf := ReadBool();
      }
      m := CompileJob(language, jobId, flags, version, target, compiler, input, directory, output, dwarf);
    }

    /** The body of a message of type `t`, if there is such a type. */
    method FillFromChannel(t: nat) returns (m: Option<Msg>)
      requires Valid() && instate == HAS_MSG && protocol > 0
      modifies this`intogo
      ensures Valid() && (m, Unread()) == GetBody(t, old(Unread()), protocol)
    {
      hide GetGetCS, GetUseCS, GetCompileFile, GetJobDone, GetJobLocalBegin, GetLogin;
      match t
      case 66 => m := Some(Ping);
      case 67 => m := Some(End);
      case 71 => var g := FillGetCS(); m := Some(GetCSMsg(g));
      case 72 => var u := FillUseCS(); m := Some(UseCSMsg(u));
      case 73 => var j := FillCompileFile(); m := Some(CompileFileMsg(j));
      case 77 => var d := FillJobDone(); m := Some(JobDoneMsg(d));
      case 78 => var l := FillJobLocalBegin(); m := Some(JobLocalBeginMsg(l));
      case 80 => var l := FillLogin(); m := Some(LoginMsg(l));
      case _ => m := None;
    }

    /** get_msg once waiting is over: takes the complete message; without one there is nothing to take. */
    method GetMsg(eofAllowed: bool) returns (m: Option<Msg>)
      requires Valid()
      modifies this, msgbuf
      ensures Valid() && Written() == old(Written())
      ensures fresh({msgbuf} - {old(msgbuf)}) && fresh({inbuf} - {old(inbuf)})
      ensures old(instate) == HAS_MSG ==> (m, View()) == Take(old(View()))
      ensures old(instate) != HAS_MSG ==> m == None && (View() == old(View()) || View() == BROKEN)
      ensures old(instate) != HAS_MSG && instate == ERROR ==> old(instate) == ERROR || (old(eof) && !eofAllowed)
      ensures instate != ERROR ==> eof == old(eof)
    {
      hide GetMessage, Length;
      if instate == ERROR || (!eof && instate != HAS_MSG) {
        return None;
      }
      if instate != HAS_MSG {
        if !eofAllowed { SetError(); }
        return None;
      }
      ghost var r := View();
      m := TakeMsg();
    }

    method TakeMsg() returns (m: Option<Msg>)
      requires Valid() && instate == HAS_MSG
      modifies this, msgbuf
      ensures Valid() && Written() == old(Written())
      ensures fresh({msgbuf} - {old(msgbuf)}) && fresh({inbuf} - {old(inbuf)})
      ensures (m, View()) == Take(old(View()))
      ensures instate != ERROR ==> eof == old(eof)
    {
      hide GetWord, GetBody, Length;
      var intogoOld := intogo;
      var t := ReadWord();
      m := FillFromChannel(t);
      if m == None || intogo - intogoOld != inmsglen {
        SetError();
        return None;
      }
      instate := NEED_LEN;
      ghost var echo;
      var ok;
      ok, echo := UpdateState([]);
      assert Written() == old(Written()) + [];
    }

    /** A new channel sends its version at once. */
    constructor (version: nat, maxWriteSize: nat, results: seq<SendResult>)
      requires Supported(version) && maxWriteSize > 0
      ensures Valid() && Written() == LittleEndian(version)
      ensures View() == FRESH || instate == ERROR
    {
      msgbuf := new byte[128](_ => 0);
      inbuf := new byte[128](_ => 0);
      msgofs, msgtogo, inofs, intogo := 0, 0, 0, 0;
      eof, instate, protocol, maximumRemoteProtocol, inmsglen := false, NEED_PROTO, -1, -1, 0;
      wire := [];
      this.version, this.maxWriteSize := version, maxWriteSize;
      new;
      WriteFull(LittleEndian(version));
      assert Written() == LittleEndian(version);
      var ok := FlushWritebuf(true, results);
    }
  }
}
