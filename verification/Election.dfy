/** Which of several schedulers a daemon chooses, when a scheduler gives way to another, and the packets that carry
    what this is decided by (services/comm.cpp, scheduler/scheduler.cpp). */
module Election {
  import opened Common
  import opened Wire

  /** What a scheduler tells about itself; a scheduler that does not know the version field counts as 32. */
  datatype Candidate = Candidate(version: int, start: nat, netname: Text, address: nat)

  /** The newer version, or the same version running for longer. */
  predicate Outranks(a: Candidate, b: Candidate) {
    a.version > b.version || (a.version == b.version && a.start < b.start)
  }

  /** Lower case as strcasecmp sees it. */
  function Lower(c: byte): byte {
    if 65 <= c <= 90 then c + 32 else c
  }

  predicate SameName(a: Text, b: Text) {
    |a| == |b| && forall i :: 0 <= i < |a| ==> Lower(a[i]) == Lower(b[i])
  }

  /** An answer a daemon of that net takes seriously. */
  predicate Suitable(c: Candidate, netname: Text) {
    SameName(netname, c.netname) && 1 <= c.version < 128
  }

  /** Names are compared up to the case of the 26 letters, and versions from 1 to 127 are taken seriously. */
  lemma SuitableMeans(x: byte, y: byte, c: Candidate, netname: Text)
    ensures SameName([x], [y]) <==> x == y || (65 <= x <= 90 && y == x + 32) || (65 <= y <= 90 && x == y + 32)
    ensures Suitable(c, netname) ==> |netname| == |c.netname| && 0 < c.version <= 127
    ensures Suitable(c, netname) ==> forall i :: 0 <= i < |netname| ==> SameName([netname[i]], [c.netname[i]])
    ensures netname == c.netname && 0 < c.version <= 127 ==> Suitable(c, netname)
  {
    assert SameName([x], [y]) <==> Lower([x][0]) == Lower([y][0]);
  }

  /** try_get_scheduler reads the answers in the order they come and keeps the best so far. The choice is one of the
      suitable answers: no other has a larger version, none of the same version started earlier, and those that started
      at the same time came later. */
  method ChooseScheduler(answers: seq<Candidate>, netname: Text) returns (best: Option<nat>, multiple: bool)
    ensures best == None <==> forall i :: 0 <= i < |answers| ==> !Suitable(answers[i], netname)
    ensures best.Some? ==> best.value < |answers| && Suitable(answers[best.value], netname)
    ensures best.Some? ==> forall i | 0 <= i < |answers| && Suitable(answers[i], netname) ::
      answers[i].version <= answers[best.value].version
    ensures best.Some? ==> forall i | 0 <= i < |answers| && Suitable(answers[i], netname) ::
      answers[i].version == answers[best.value].version ==> answers[best.value].start <= answers[i].start
    ensures best.Some? ==> forall i | 0 <= i < best.value && Suitable(answers[i], netname) ::
      answers[i].version == answers[best.value].version ==> answers[best.value].start < answers[i].start
    ensures multiple <==> exists i, j :: 0 <= i < j < |answers| && Suitable(answers[i], netname) && Suitable(answers[j], netname)
  {
    best, multiple := None, false;
    var bestVersion, bestStart := 0, 0;
    for k := 0 to |answers|
      invariant best == None <==> bestVersion == 0
      invariant best == None <==> forall i :: 0 <= i < k ==> !Suitable(answers[i], netname)
      invariant best.Some? ==> best.value < k && Suitable(answers[best.value], netname)
      invariant best.Some? ==> bestVersion == answers[best.value].version && bestStart == answers[best.value].start
      invariant best.Some? ==> forall i | 0 <= i < k && Suitable(answers[i], netname) ::
        answers[i].version <= bestVersion && (answers[i].version == bestVersion ==> bestStart <= answers[i].start)
      invariant best.Some? ==> forall i | 0 <= i < best.value && Suitable(answers[i], netname) ::
        answers[i].version == bestVersion ==> bestStart < answers[i].start
      invariant multiple <==> exists i, j :: 0 <= i < j < k && Suitable(answers[i], netname) && Suitable(answers[j], netname)
    {
      var c := answers[k];
      if SameName(netname, c.netname) {
        if c.version >= 128 || c.version < 1 {
          continue;
        }
        if bestVersion != 0 {
          multiple := true;
        }
        if bestVersion < c.version || (bestVersion == c.version && bestStart > c.start) {
          best := Some(k);
          bestVersion := c.version;
          bestStart := c.start;
        }
      }
    }
  }

  /** handle_scheduler_announce: the scheduler `mine` drops its connections when `other` announces itself. */
  predicate GivesWay(mine: Candidate, other: Candidate) {
    other.version >= 36 && other.netname == mine.netname && Outranks(other, mine)
  }

  /** It does so exactly for one of its own net, version 36 or later, that is newer, or of the same version and running
      for longer. */
  lemma GivesWayMeans(mine: Candidate, other: Candidate)
    ensures GivesWay(mine, other) <==>
      && other.version >= 36 && other.netname == mine.netname && other.version >= mine.version
      && (other.version == mine.version ==> other.start < mine.start)
  {
  }

  /** The test is a strict order, so that two schedulers never both give way to each other, and among those that
      announce themselves giving way follows the order. */
  lemma StrictOrder(a: Candidate, b: Candidate, c: Candidate)
    ensures !GivesWay(a, a)
    ensures GivesWay(a, b) ==> !GivesWay(b, a)
    ensures GivesWay(a, b) && GivesWay(b, c) ==> GivesWay(a, c)
    ensures Outranks(a, b) ==> !Outranks(b, a)
    ensures !Outranks(a, b) && !Outranks(b, a) <==> a.version == b.version && a.start == b.start
  {
  }

  /** Daemons and schedulers agree: the scheduler a daemon chose does not give way to any other that answered and
      has the same net name; and every such other one of version 36 or later gives way to it, unless version and
      start time are the same. */
  lemma ChoiceStands(answers: seq<Candidate>, netname: Text, best: nat, i: nat)
    requires best < |answers| && i < |answers|
    requires Suitable(answers[best], netname) && Suitable(answers[i], netname)
    requires forall j | 0 <= j < |answers| && Suitable(answers[j], netname) ::
      && answers[j].version <= answers[best].version
      && (answers[j].version == answers[best].version ==> answers[best].start <= answers[j].start)
    ensures !GivesWay(answers[best], answers[i])
    ensures answers[i].netname == answers[best].netname && answers[best].version >= 36
      && (answers[i].version, answers[i].start) != (answers[best].version, answers[best].start)
      ==> GivesWay(answers[i], answers[best])
  {
    StrictOrder(answers[i], answers[best], answers[best]);
  }

  // ---------------------------------------------------------------- packets

  const BUFLEN := 268

  const TIMES := 0x1_0000_0000_0000_0000

  function Zeros(n: nat): (z: seq<byte>)
    ensures |z| == n
  {
    if n == 0 then [] else [0] + Zeros(n - 1)
  }

  /** snprintf of a name into the rest of the buffer: cut so that a NUL fits. */
  function NameField(netname: Text, room: nat): (f: seq<byte>)
    requires room > 0
    ensures |f| == room
  {
    var n := if |netname| < room then |netname| else room - 1;
    netname[..n] + Zeros(room - n)
  }

  /** The fields of a packet: high and low word of the start time in network order. */
  function TimeField(start: nat): (f: seq<byte>)
    ensures |f| == 8
  {
    BigEndian(start / WORD % WORD) + BigEndian(start % WORD)
  }

  /** The announcement of a new scheduler. */
  function Announcement(version: byte, start: nat, netname: Text): (p: seq<byte>)
    ensures |p| == BUFLEN
  {
    [73, 67, 70, version] + TimeField(start) + NameField(netname, BUFLEN - 12)
  }

  /** The answer to the broadcast of a daemon of version `asker`, 38 or later. */
  function Reply(asker: byte, version: nat, start: nat, netname: Text): (p: seq<byte>)
    requires 38 <= asker < 125
    ensures |p| == BUFLEN
  {
    [asker + 3] + BigEndian(version) + TimeField(start) + NameField(netname, BUFLEN - 13)
  }

  function TimeAt(p: seq<byte>): nat
    requires |p| >= 8
  {
    FromBigEndian(p) * WORD + FromBigEndian(p[4..])
  }

  function ReadAnnouncement(p: seq<byte>): (nat, nat, Text)
    requires |p| == BUFLEN
  {
    (p[3], TimeAt(p[4..]), UpToNul(p[12..]))
  }

  function ReadReply(p: seq<byte>): (nat, nat, Text)
    requires |p| == BUFLEN
  {
    (FromBigEndian(p[1..]), TimeAt(p[5..]), UpToNul(p[13..]))
  }

  /** The name as far as it fits. */
  function Fitting(netname: Text, room: nat): Text
    requires room > 0
  {
    if |netname| < room then netname else netname[..room - 1]
  }

  lemma {:induction false} NameInverse(s: Text, n: nat)
    requires NulFree(s) && n > 0
    ensures UpToNul(s + Zeros(n)) == s
  {
    if s == [] {
      assert [] + Zeros(n) == Zeros(n) && Zeros(n)[0] == 0;
    } else {
      assert s[0] in s;
      NameInverse(s[1..], n);
      assert (s + Zeros(n))[0] == s[0] && (s + Zeros(n))[1..] == s[1..] + Zeros(n);
    }
  }

  lemma FieldInverse(netname: Text, room: nat)
    requires NulFree(netname) && room > 0
    ensures UpToNul(NameField(netname, room)) == Fitting(netname, room)
  {
    var n := if |netname| < room then |netname| else room - 1;
    NameInverse(netname[..n], room - n);
  }

  lemma FirstFour(n: nat, rest: seq<byte>)
    requires n < WORD
    ensures FromBigEndian(BigEndian(n) + rest) == n
  {
    BigEndianInverse(n);
    hide BigEndian;
    var b, p := BigEndian(n), BigEndian(n) + rest;
    assert p[0] == b[0] && p[1] == b[1] && p[2] == b[2] && p[3] == b[3];
  }

  lemma TimeInverse(start: nat, rest: seq<byte>)
    requires start < TIMES
    ensures TimeAt(TimeField(start) + rest) == start
  {
    hide BigEndian, FromBigEndian;
    var high, low := start / WORD % WORD, start % WORD;
    assert TimeField(start) + rest == BigEndian(high) + (BigEndian(low) + rest);
    FirstFour(high, BigEndian(low) + rest);
    FirstFour(low, rest);
    assert (TimeField(start) + rest)[4..] == BigEndian(low) + rest;
  }

  /** Version, start time and, as far as it fits, the net name survive the announcement. */
  lemma AnnouncementRoundTrip(version: byte, start: nat, netname: Text)
    requires start < TIMES && NulFree(netname)
    ensures ReadAnnouncement(Announcement(version, start, netname)) == (version, start, Fitting(netname, BUFLEN - 12))
  {
    hide TimeField, NameField, TimeAt, UpToNul;
    var p := Announcement(version, start, netname);
    var head: seq<byte> := [73, 67, 70, version];
    TimeInverse(start, NameField(netname, BUFLEN - 12));
    FieldInverse(netname, BUFLEN - 12);
    assert p == head + (TimeField(start) + NameField(netname, BUFLEN - 12));
    assert p[4..] == TimeField(start) + NameField(netname, BUFLEN - 12);
    assert p[12..] == NameField(netname, BUFLEN - 12);
  }

  /** And so they do in the answer to a daemon's question. */
  lemma ReplyRoundTrip(asker: byte, version: nat, start: nat, netname: Text)
    requires 38 <= asker < 125 && version < WORD && start < TIMES && NulFree(netname)
    ensures Reply(asker, version, start, netname)[0] == asker + 3
    ensures ReadReply(Reply(asker, version, start, netname)) == (version, start, Fitting(netname, BUFLEN - 13))
  {
    hide TimeField, NameField, TimeAt, UpToNul, BigEndian, FromBigEndian;
    var p := Reply(asker, version, start, netname);
    var name := NameField(netname, BUFLEN - 13);
    TimeInverse(start, name);
    FieldInverse(netname, BUFLEN - 13);
    FirstFour(version, TimeField(start) + name);
    assert p[1..] == BigEndian(version) + (TimeField(start) + name);
    assert p[5..] == TimeField(start) + name;
    assert p[13..] == name;
  }

  lemma StartBytes()
    ensures TimeField(0x0102030405060708) == [1, 2, 3, 4, 5, 6, 7, 8]
    ensures BigEndian(44) == [0, 0, 0, 44]
  {
  }

  /** The first bytes of an announcement of version 39: the start time comes most significant byte first. A packet has 268
      bytes. */
  lemma AnnouncementBytes(version: byte, start: nat, netname: Text)
    ensures |Announcement(version, start, netname)| == 268
    ensures Announcement(39, 0x0102030405060708, [65])[..14] == [73, 67, 70, 39, 1, 2, 3, 4, 5, 6, 7, 8, 65, 0]
  {
    hide TimeField, BigEndian, NameField;
    StartBytes();
    NameBytes(BUFLEN - 12);
    var name := NameField([65], BUFLEN - 12);
    assert Announcement(39, 0x0102030405060708, [65]) == [73, 67, 70, 39, 1, 2, 3, 4, 5, 6, 7, 8] + name;
    FrontOf([73, 67, 70, 39, 1, 2, 3, 4, 5, 6, 7, 8], name);
  }

  /** And of the answer of version 44 to a daemon of version 39. */
  lemma ReplyBytes(asker: byte, version: nat, start: nat, netname: Text)
    requires 38 <= asker < 125
    ensures |Reply(asker, version, start, netname)| == 268
    ensures Reply(39, 44, 0x0102030405060708, [65])[..15] == [42, 0, 0, 0, 44, 1, 2, 3, 4, 5, 6, 7, 8, 65, 0]
  {
    hide TimeField, BigEndian, NameField;
    StartBytes();
    NameBytes(BUFLEN - 13);
    var name := NameField([65], BUFLEN - 13);
    assert Reply(39, 44, 0x0102030405060708, [65]) == [42, 0, 0, 0, 44, 1, 2, 3, 4, 5, 6, 7, 8] + name;
    FrontOf([42, 0, 0, 0, 44, 1, 2, 3, 4, 5, 6, 7, 8], name);
  }

  lemma FrontOf(head: seq<byte>, name: seq<byte>)
    requires |name| > 2
    ensures (head + name)[..|head| + 2] == head + name[..2]
  {
  }

  lemma NameBytes(room: nat)
    requires room > 2
    ensures NameField([65], room)[..2] == [65, 0]
  {
    assert Zeros(room - 1)[0] == 0;
    assert [65][..1] == [65];
  }
}
