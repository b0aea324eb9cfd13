/** Whole runs of the daemon: which environments are finalized, and whom the daemon starts next. */
module DaemonRuns {
  import opened Common
  import opened DaemonSpec

  // ---------------------------------------------------------------- finding other clients

  lemma {:induction false} PutMembers(cs: Clients, c: Client)
    requires c.id in Ids(cs)
    ensures forall x :: x in cs && x.id != c.id ==> x in Put(cs, c)
  {
    if cs[0].id != c.id { PutMembers(cs[1..], c); }
  }

  lemma {:induction false} EraseMembers(cs: Clients, id: nat)
    requires id in Ids(cs)
    ensures forall x :: x in cs && x.id != id ==> x in Erase(cs, id)
  {
    if cs[0].id != id { EraseMembers(cs[1..], id); }
  }

  lemma {:induction false} InsertMembers(cs: Clients, at: nat, c: Client)
    ensures c in Insert(cs, at, c) && forall x :: x in cs ==> x in Insert(cs, at, c)
  {
    if at != 0 && cs != [] { InsertMembers(cs[1..], at - 1, c); }
  }

  lemma GetPut(cs: Clients, c: Client, id: nat)
    requires Distinct(cs) && c.id in Ids(cs) && id in Ids(cs) && id != c.id
    ensures id in Ids(Put(cs, c)) && Get(Put(cs, c), id) == Get(cs, id)
  {
    hide Distinct, Ids, Get, Put;
    PutMembers(cs, c);
    PutFacts(KIDS, 1, cs, c, 0);
    GetMember(Put(cs, c), Get(cs, id));
  }

  lemma GetErase(cs: Clients, gone: nat, id: nat)
    requires Distinct(cs) && gone in Ids(cs) && id in Ids(cs) && id != gone
    ensures id in Ids(Erase(cs, gone)) && Get(Erase(cs, gone), id) == Get(cs, id)
  {
    hide Distinct, Ids, Get, Erase;
    EraseMembers(cs, gone);
    EraseFacts(KIDS, 1, cs, gone, 0);
    GetMember(Erase(cs, gone), Get(cs, id));
  }

  lemma GetInsert(cs: Clients, at: nat, c: Client, id: nat)
    requires Distinct(cs) && c.id !in Ids(cs) && id in Ids(cs) + {c.id}
    ensures Ids(Insert(cs, at, c)) == Ids(cs) + {c.id}
    ensures Get(Insert(cs, at, c), id) == if id == c.id then c else Get(cs, id)
  {
    hide Distinct, Ids, Get, Insert;
    InsertMembers(cs, at, c);
    InsertFacts(KIDS, 1, cs, at, c, 0);
    GetMember(Insert(cs, at, c), if id == c.id then c else Get(cs, id));
  }

  lemma OthersAccept(s: State, at: nat, id: nat)
    requires Inv(s) && id in Ids(s.clients)
    ensures (StepKeeps(s, Accept(at)); id in Ids(Step(s, Accept(at)).clients) && Get(Step(s, Accept(at)).clients, id) == Get(s.clients, id))
  {
    hide Inv, Insert, Get, Distinct, Ids, NewClient, Recorded, Recount, Changed;
    Newer(s);
    InvDistinct(s);
    NewId(s.newId + 1);
    StepKeeps(s, Accept(at));
    GetInsert(s.clients, at, NewClient(s.newId + 1), id);
  }

  lemma OthersGone(s: State, e: Event, id: nat)
    requires Inv(s) && Enabled(s, e) && id in Ids(s.clients) && (e.CompileDone? || e.End?) && e.id != id
    ensures (StepKeeps(s, e); id in Ids(Step(s, e).clients) && Get(Step(s, e).clients, id) == Get(s.clients, id))
  {
    hide Inv, Erase, Get, Ids, Distinct, ClientEnabled, Recount, Changed, Recorded;
    InvDistinct(s);
    StepKeeps(s, e);
    GetErase(s.clients, e.id, id);
  }

  lemma OthersChanged(s: State, e: Event, id: nat)
    requires Inv(s) && Enabled(s, e) && id in Ids(s.clients) && OfClient(e) && !e.CompileDone? && !e.End? && e.id != id
    ensures (StepKeeps(s, e); id in Ids(Step(s, e).clients) && Get(Step(s, e).clients, id) == Get(s.clients, id))
  {
    hide Inv, Put, Get, Ids, Distinct, ClientEnabled, Recount, Changed, Recorded;
    InvDistinct(s);
    StepKeeps(s, e);
    ChangedId(s, e);
    GetPut(s.clients, Changed(s, Get(s.clients, e.id), e), id);
  }

  lemma OthersConnected(s: State, e: Event)
    requires Inv(s) && Enabled(s, e) && (e.Connected? || e.Lost?)
    ensures (StepKeeps(s, e); Step(s, e).clients == s.clients && Step(s, e).finalized == s.finalized)
  {
    hide InvBut;
    StepKeeps(s, e);
  }

  /** An event leaves all other clients as they are, unless it is the end of all. */
  lemma OthersStay(s: State, e: Event, id: nat)
    requires Inv(s) && Enabled(s, e) && id in Ids(s.clients) && !e.Cleared? && (OfClient(e) ==> e.id != id)
    ensures (StepKeeps(s, e); id in Ids(Step(s, e).clients) && Get(Step(s, e).clients, id) == Get(s.clients, id))
  {
    StepKeeps(s, e);
    hide Inv, Enabled, Step, Ids, Get;
    if e.Accept? {
      OthersAccept(s, e.at, id);
    } else if e.Connected? || e.Lost? {
      OthersConnected(s, e);
    } else if e.CompileDone? || e.End? {
      OthersGone(s, e, id);
    } else {
      OthersChanged(s, e, id);
    }
  }

  lemma NewId(id: nat)
    ensures NewClient(id).id == id
  {
  }

  lemma Newer(s: State)
    requires Inv(s)
    ensures s.newId + 1 !in Ids(s.clients)
  {
    NewerOk(s.clients, s.newId);
  }

  // ---------------------------------------------------------------- finalized environments

  datatype Transfer = Transfer(outfile: string, events: seq<InstallEvent>)

  /** The latest transfer of a client in a history: its name, and what happened since it started. When all clients
      have ended, ids are used again, and their transfers are forgotten. */
  function Latest(h: seq<Event>, id: nat): Option<Transfer> {
    if h == [] then None
    else
      var before, e := Latest(h[..|h| - 1], id), h[|h| - 1];
      if e.Cleared? then None
      else if e.StartInstall? && e.id == id then Some(Transfer(e.outfile, []))
      else if e.Install? && e.id == id && before.Some? then Some(before.value.(events := before.value.events + [e.event]))
      else before
  }

  /** Both the end of the transfer and the success of the child, and no failure. */
  predicate Succeeded(es: seq<InstallEvent>) {
    EndOfTransfer in es && ChildDone(true) in es && forall e :: e in es ==> !Fails(e)
  }

  /** The transfers that succeeded, in the order in which they did, told from the history alone. */
  function Successes(h: seq<Event>): seq<Finalization> {
    if h == [] then []
    else
      var e, t := h[|h| - 1], if h[|h| - 1].Install? then Latest(h, h[|h| - 1].id) else None;
      if t.Some? && Succeeded(t.value.events) then Successes(h[..|h| - 1]) + [Finalization(e.id, t.value.outfile)]
      else Successes(h[..|h| - 1])
  }

  /** What a client holds is what the history says. */
  predicate Tracked(c: Client, t: Option<Transfer>) {
    && t.Some? && c.outfile == t.value.outfile && (c.pipeTo || c.child)
    && (c.pipeTo <==> EndOfTransfer !in t.value.events) && (c.child <==> ChildDone(true) !in t.value.events)
    && forall e :: e in t.value.events ==> !Fails(e)
  }

  ghost predicate Tracks(s: State, h: seq<Event>) {
    forall id :: id in Ids(s.clients) && Installing(Get(s.clients, id)) ==> Tracked(Get(s.clients, id), Latest(h, id))
  }

  lemma InstallTracked(c: Client, t: Transfer, e: InstallEvent)
    requires InstallEnabled(c, e) && Tracked(c, Some(t))
    ensures InstallOutcome(c, e) == Finalized <==> Succeeded(t.events + [e])
    ensures InstallOutcome(c, e) == Going ==> Tracked(Installed(c, e), Some(t.(events := t.events + [e])))
    ensures InstallOutcome(c, e) != Going ==> !Installing(Installed(c, e))
  {
    var es := t.events + [e];
    assert es[|t.events|] == e;
    assert forall x :: x in es <==> x == e || x in t.events;
  }

  lemma ChangedInstalls(s: State, c: Client, e: Event)
    requires ClientEnabled(s, c, e) && OfClient(e) && !e.End? && !e.CompileDone? && !e.Install?
    ensures Installing(Changed(s, c, e)) <==> e.StartInstall?
    ensures e.StartInstall? ==> Tracked(Changed(s, c, e), Some(Transfer(e.outfile, [])))
  {
  }

  lemma LatestThen(h: seq<Event>, e: Event, id: nat)
    ensures !e.Cleared? && (!OfClient(e) || e.id != id) ==> Latest(h + [e], id) == Latest(h, id)
    ensures e.StartInstall? && e.id == id ==> Latest(h + [e], id) == Some(Transfer(e.outfile, []))
    ensures e.Install? && e.id == id && Latest(h, id).Some? ==>
      Latest(h + [e], id) == Some(Transfer(Latest(h, id).value.outfile, Latest(h, id).value.events + [e.event]))
  {
    assert (h + [e])[..|h|] == h;
  }

  lemma SuccessesThen(h: seq<Event>, e: Event)
    ensures Successes(h + [e]) ==
      if e.Install? && Latest(h + [e], e.id).Some? && Succeeded(Latest(h + [e], e.id).value.events)
      then Successes(h) + [Finalization(e.id, Latest(h + [e], e.id).value.outfile)] else Successes(h)
  {
    assert (h + [e])[..|h|] == h;
  }

  /** The client an event is about. */
  lemma SelfTracked(s: State, h: seq<Event>, e: Event)
    requires Inv(s) && Enabled(s, e) && OfClient(e) && Tracks(s, h)
    ensures (StepKeeps(s, e);
      var t := Step(s, e);
      && (e.id in Ids(t.clients) && Installing(Get(t.clients, e.id)) ==> Tracked(Get(t.clients, e.id), Latest(h + [e], e.id)))
      && t.finalized == if e.Install? && Succeeded(Latest(h + [e], e.id).value.events)
                        then s.finalized + [Finalization(e.id, Latest(h + [e], e.id).value.outfile)] else s.finalized)
  {
    StepKeeps(s, e);
    hide InvBut, Value, Tracked, Latest, Succeeded;
    var c := Get(s.clients, e.id);
    LatestThen(h, e, e.id);
    if e.End? || e.CompileDone? {
      InvDistinct(s);
      EraseFacts(KIDS, 1, s.clients, e.id, s.newId);
    } else {
      ChangedId(s, e);
      PutGet(s.clients, Changed(s, c, e));
      if e.Install? {
        TrackedSome(c, Latest(h, e.id));
        InstallTracked(c, Latest(h, e.id).value, e.event);
      } else {
        ChangedInstalls(s, c, e);
      }
    }
  }

  lemma TrackedSome(c: Client, t: Option<Transfer>)
    requires Tracked(c, t)
    ensures t.Some? && t.value.outfile == c.outfile && t == Some(t.value)
  {
  }

  lemma InvDistinct(s: State)
    requires Inv(s)
    ensures Distinct(s.clients)
  {
  }

  /** No client is left after the end of all. */
  lemma NobodyAfter(s: State)
    requires Inv(s)
    ensures (StepKeeps(s, Cleared); Step(s, Cleared).clients == [] && Ids(Step(s, Cleared).clients) == {})
  {
    hide InvBut;
    StepKeeps(s, Cleared);
  }

  /** Only an accepted client is new. */
  lemma IdsAfter(s: State, e: Event, id: nat)
    requires Inv(s) && Enabled(s, e)
    ensures (StepKeeps(s, e);
      var t := Step(s, e);
      id in Ids(t.clients) && id !in Ids(s.clients) ==> e.Accept? && Get(t.clients, id) == NewClient(id))
  {
    StepKeeps(s, e);
    if e.Accept? {
      AcceptedIds(s, e.at, id);
    } else if e.Connected? || e.Lost? {
      OthersConnected(s, e);
    } else if e.Cleared? {
      NobodyAfter(s);
    } else if e.CompileDone? || e.End? {
      GoneIds(s, e);
    } else {
      ChangedIds(s, e);
    }
  }

  lemma AcceptedIds(s: State, at: nat, id: nat)
    requires Inv(s)
    ensures (StepKeeps(s, Accept(at));
      var t := Step(s, Accept(at));
      id in Ids(t.clients) && id !in Ids(s.clients) ==> Get(t.clients, id) == NewClient(id))
  {
    hide Inv, Insert, Get, Distinct, Ids, NewClient, Recorded, Recount, Changed;
    Newer(s);
    InvDistinct(s);
    StepKeeps(s, Accept(at));
    NewId(s.newId + 1);
    GetInsert(s.clients, at, NewClient(s.newId + 1), s.newId + 1);
  }

  lemma GoneIds(s: State, e: Event)
    requires Inv(s) && Enabled(s, e) && (e.CompileDone? || e.End?)
    ensures (StepKeeps(s, e); Ids(Step(s, e).clients) <= Ids(s.clients))
  {
    hide Inv, Erase, Get, Ids, Distinct, ClientEnabled, Recount, Changed, Recorded;
    StepKeeps(s, e);
    EraseFacts(KIDS, 1, s.clients, e.id, s.newId);
  }

  lemma ChangedIds(s: State, e: Event)
    requires Inv(s) && Enabled(s, e) && OfClient(e) && !e.CompileDone? && !e.End?
    ensures (StepKeeps(s, e); Ids(Step(s, e).clients) == Ids(s.clients))
  {
    hide Inv, Put, Changed, Get, Ids, Distinct, ClientEnabled, Recount, Recorded;
    StepKeeps(s, e);
    ChangedId(s, e);
    PutFacts(KIDS, 1, s.clients, Changed(s, Get(s.clients, e.id), e), s.newId);
  }

  lemma StepTracks(s: State, h: seq<Event>, e: Event)
    requires Inv(s) && Enabled(s, e) && Tracks(s, h) && s.finalized == Successes(h)
    ensures (StepKeeps(s, e); Tracks(Step(s, e), h + [e]) && Step(s, e).finalized == Successes(h + [e]))
  {
    StepKeeps(s, e);
    var t := Step(s, e);
    AcceptRecord(s, e);
    hide InvBut, Step, Latest, Successes, Tracked, Succeeded, ClientEnabled;
    if OfClient(e) { SelfTracked(s, h, e); }
    if e.Cleared? { NobodyAfter(s); }
    SuccessesThen(h, e);
    if e.Install? { LatestSome(s, h, e); }
    forall id | id in Ids(t.clients) && Installing(Get(t.clients, id)) ensures Tracked(Get(t.clients, id), Latest(h + [e], id)) {
      IdsAfter(s, e, id);
      LatestThen(h, e, id);
      if !OfClient(e) || e.id != id {
        if id in Ids(s.clients) && !e.Cleared? { OthersStay(s, e, id); }
      }
    }
  }

  lemma AcceptRecord(s: State, e: Event)
    requires Inv(s) && Enabled(s, e)
    ensures (StepKeeps(s, e); !OfClient(e) ==> Step(s, e).finalized == s.finalized)
  {
    StepKeeps(s, e);
    hide InvBut;
  }

  lemma LatestSome(s: State, h: seq<Event>, e: Event)
    requires Inv(s) && Enabled(s, e) && Tracks(s, h) && e.Install?
    ensures Latest(h + [e], e.id).Some?
  {
    hide InvBut, Latest;
    TrackedSome(Get(s.clients, e.id), Latest(h, e.id));
    LatestThen(h, e, e.id);
  }

  /** Over any run, the environments finalized are exactly the transfers that succeeded: those for which both the
      end of the transfer and the success of the child were seen since the transfer started, and no failure, each
      at the moment the later of the two came. Once it succeeded, nothing more can happen to a transfer. */
  lemma FinalizedExactly(maxKids: nat, es: seq<Event>)
    requires (InitialInv(maxKids); EnabledAll(Initial(maxKids), es))
    ensures (InitialInv(maxKids);
      var s := Run(Initial(maxKids), es);
      && s.finalized == Successes(es)
      && forall id, e :: Latest(es, id).Some? && Succeeded(Latest(es, id).value.events) ==> !Enabled(s, Install(id, e)))
  {
    hide InvBut, EnabledAll, Run, Successes, Latest, Succeeded;
    InitialInv(maxKids);
    StartsEmpty(maxKids);
    RunTracks(Initial(maxKids), [], es);
    assert [] + es == es;
    Over(Run(Initial(maxKids), es), es);
  }

  lemma Over(s: State, h: seq<Event>)
    requires Tracks(s, h)
    ensures forall id, e :: Latest(h, id).Some? && Succeeded(Latest(h, id).value.events) ==> !Enabled(s, Install(id, e))
  {
    hide Latest;
    forall id, e | Latest(h, id).Some? && Succeeded(Latest(h, id).value.events) ensures !Enabled(s, Install(id, e)) {
      assert Enabled(s, Install(id, e)) ==> Tracked(Get(s.clients, id), Latest(h, id));
    }
  }

  lemma StartsEmpty(maxKids: nat)
    ensures Tracks(Initial(maxKids), []) && Successes([]) == []
  {
  }

  lemma {:induction false} RunTracks(s: State, h: seq<Event>, es: seq<Event>)
    requires Inv(s) && EnabledAll(s, es) && Tracks(s, h) && s.finalized == Successes(h)
    ensures Tracks(Run(s, es), h + es) && Run(s, es).finalized == Successes(h + es)
    decreases |es|
  {
    hide Inv, Tracks, Successes, Enabled, Step, Latest;
    if es == [] {
      assert h + es == h;
    } else {
      StepTracks(s, h, es[0]);
      StepKeeps(s, es[0]);
      RunTracks(Step(s, es[0]), h + [es[0]], es[1..]);
      assert h + [es[0]] + es[1..] == h + es;
    }
  }

  // ---------------------------------------------------------------- a run with a scheduler

  /** A single client of that kind, and nothing else. */
  function Alone(maxKids: nat, c: Client): State {
    State([c], 0, 0, maxKids, c.id, true, [])
  }

  lemma AloneIs(c: Client)
    ensures Get([c], c.id) == c && c.id in Ids([c]) && forall d: Client :: d.id == c.id ==> Put([c], d) == [d]
  {
    assert [c][1..] == [];
    assert forall d: Client :: d.id == c.id ==> [d] + [c][1..] == [d];
  }

  lemma FirstSteps(maxKids: nat)
    ensures Step(Step(Initial(maxKids), Connected), Accept(0)) == Alone(maxKids, NewClient(1))
  {
    assert [NewClient(1)] + [] == [NewClient(1)];
  }

  lemma AskStep(maxKids: nat, c: Client)
    requires c == NewClient(1)
    ensures var s := Alone(maxKids, c);
      && Enabled(s, GetCS(1, 5)) && Counted(s, Get(s.clients, 1))
      && Step(s, GetCS(1, 5)) == Alone(maxKids, c.(status := WAITFORCS, niceness := 5))
  {
    AloneIs(c);
    hide Get, Put, Ids;
  }

  lemma ToldStep(maxKids: nat, c: Client)
    requires c == NewClient(1).(status := WAITFORCS, niceness := 5)
    ensures var s := Alone(maxKids, c);
      && Enabled(s, UseCS(1, 7, false)) && Counted(s, Get(s.clients, 1))
      && Step(s, UseCS(1, 7, false)) == Alone(maxKids, c.(status := WAITCOMPILE, jobId := 7))
  {
    AloneIs(c);
    hide Get, Put, Ids;
  }

  /** Clients do wait for the scheduler and for other nodes; and after the scheduler was lost and all clients ended, an
      id is used again. */
  lemma WithScheduler(maxKids: nat)
    ensures var c := NewClient(1);
      var asked := [Connected, Accept(0), GetCS(1, 5)];
      var told := asked + [UseCS(1, 7, false)];
      var again := told + [Lost, Cleared, Connected, Accept(0)];
      (InitialInv(maxKids);
       && EnabledAll(Initial(maxKids), asked)
       && Run(Initial(maxKids), asked) == Alone(maxKids, c.(status := WAITFORCS, niceness := 5))
       && EnabledAll(Initial(maxKids), told)
       && Run(Initial(maxKids), told) == Alone(maxKids, c.(status := WAITCOMPILE, niceness := 5, jobId := 7))
       && EnabledAll(Initial(maxKids), again) && Run(Initial(maxKids), again) == Alone(maxKids, c))
  {
    InitialInv(maxKids);
    FirstSteps(maxKids);
    AskStep(maxKids, NewClient(1));
    ToldStep(maxKids, NewClient(1).(status := WAITFORCS, niceness := 5));
    hide Inv, Step, ClientEnabled;
    var s := Initial(maxKids);
    FirstRun(s);
    var h2 := [Connected, Accept(0)];
    RunThen(s, h2, GetCS(1, 5));
    var h3 := h2 + [GetCS(1, 5)];
    assert h3 == [Connected, Accept(0), GetCS(1, 5)];
    RunThen(s, h3, UseCS(1, 7, false));
    var h4 := h3 + [UseCS(1, 7, false)];
    StartOver(s, h4);
    assert h4 + [Lost] + [Cleared] + [Connected] + [Accept(0)] == h4 + [Lost, Cleared, Connected, Accept(0)];
  }

  lemma FirstRun(s: State)
    requires Inv(s) && !s.scheduler
    ensures EnabledAll(s, [Connected, Accept(0)])
    ensures (StepKeeps(s, Connected); StepKeeps(Step(s, Connected), Accept(0));
      Run(s, [Connected, Accept(0)]) == Step(Step(s, Connected), Accept(0)))
  {
    hide Inv, Insert;
    StepKeeps(s, Connected);
    StepKeeps(Step(s, Connected), Accept(0));
    RunOne(s, Connected);
    RunThen(s, [Connected], Accept(0));
    assert [Connected] + [Accept(0)] == [Connected, Accept(0)];
  }

  /** After any run with a scheduler it can be lost and found again, and the first client is number 1 again. */
  lemma StartOver(s: State, h: seq<Event>)
    requires Inv(s) && EnabledAll(s, h) && Run(s, h).scheduler
    ensures var again := h + [Lost] + [Cleared] + [Connected] + [Accept(0)];
      EnabledAll(s, again) && Run(s, again) == State([NewClient(1)], 0, 0, Run(s, h).maxKids, 1, true, Run(s, h).finalized)
  {
    hide Inv, Run;
    var r := Run(s, h);
    RunThen(s, h, Lost);
    RunThen(s, h + [Lost], Cleared);
    RunThen(s, h + [Lost] + [Cleared], Connected);
    RunThen(s, h + [Lost] + [Cleared] + [Connected], Accept(0));
    assert [NewClient(1)] + [] == [NewClient(1)];
  }

  // ---------------------------------------------------------------- who is next

  /** A client is taken over the best so far if it has both a smaller id and a smaller niceness. */
  predicate Beats(c: Client, best: Option<Client>) {
    match best
    case None => c.niceness < 0xffff_ffff
    case Some(b) => c.id < b.id && c.niceness < b.niceness
  }

  function EarliestOf(cs: Clients, st: Status, best: Option<Client>): Option<Client> {
    if cs == [] then best
    else EarliestOf(cs[1..], st, if cs[0].status == st && Beats(cs[0], best) then Some(cs[0]) else best)
  }

  /** get_earliest_client, for the order in which the map has its clients. */
  function Earliest(cs: Clients, st: Status): Option<Client> {
    EarliestOf(cs, st, None)
  }

  lemma {:induction false} EarliestMember(cs: Clients, st: Status, best: Option<Client>)
    ensures var r := EarliestOf(cs, st, best);
      && (r == best || (r.Some? && r.value in cs && r.value.status == st))
      && (best.Some? ==> r.Some? && (r == best || (r.value.id < best.value.id && r.value.niceness < best.value.niceness)))
  {
    if cs != [] {
      EarliestMember(cs[1..], st, if cs[0].status == st && Beats(cs[0], best) then Some(cs[0]) else best);
    }
  }

  /** Somebody is chosen exactly if somebody waits, and nobody beats the chosen one on both id and niceness. */
  lemma {:induction false} EarliestUnbeaten(cs: Clients, st: Status, best: Option<Client>, newId: nat)
    requires AllOk(cs, newId)
    ensures var r := EarliestOf(cs, st, best);
      && (r == None <==> best == None && forall c :: c in cs ==> c.status != st)
      && (r.Some? ==> forall d :: d in cs && d.status == st ==> r.value.id <= d.id || r.value.niceness <= d.niceness)
  {
    if cs != [] {
      assert ClientOk(cs[0], newId);
      hide ClientOk;
      var best' := if cs[0].status == st && Beats(cs[0], best) then Some(cs[0]) else best;
      EarliestUnbeaten(cs[1..], st, best', newId);
      EarliestMember(cs[1..], st, best');
      assert forall c :: c in cs <==> c == cs[0] || c in cs[1..];
    }
  }

  lemma ChosenUnbeaten(cs: Clients, st: Status, newId: nat)
    requires AllOk(cs, newId)
    ensures Earliest(cs, st) == None <==> forall c :: c in cs ==> c.status != st
    ensures Earliest(cs, st).Some? ==> Unbeaten(cs, st, Earliest(cs, st).value)
  {
    EarliestUnbeaten(cs, st, None, newId);
    EarliestMember(cs, st, None);
  }

  lemma {:induction false} OneOk(cs: Clients, i: nat, newId: nat)
    requires AllOk(cs, newId) && i < |cs|
    ensures ClientOk(cs[i], newId)
  {
    if i > 0 { OneOk(cs[1..], i - 1, newId); }
  }

  /** Strictly ahead of everybody else who waits. */
  ghost predicate Ahead(c: Client, cs: Clients, st: Status) {
    forall d :: d in cs && d.status == st && d != c ==> c.id < d.id && c.niceness < d.niceness
  }

  lemma {:induction false} AheadChosen(cs: Clients, st: Status, best: Option<Client>, c: Client)
    requires c.status == st && c.niceness < 0xffff_ffff && Ahead(c, cs, st)
    requires c in cs || best == Some(c)
    requires best.Some? && best != Some(c) ==> c.id < best.value.id && c.niceness < best.value.niceness
    ensures EarliestOf(cs, st, best) == Some(c)
  {
    if cs != [] {
      var best' := if cs[0].status == st && Beats(cs[0], best) then Some(cs[0]) else best;
      assert forall d :: d in cs <==> d == cs[0] || d in cs[1..];
      AheadChosen(cs[1..], st, best', c);
    }
  }

  lemma {:induction false} EraseMultiset(cs: Clients, id: nat)
    requires id in Ids(cs)
    ensures multiset(Erase(cs, id)) + multiset{Get(cs, id)} == multiset(cs)
  {
    assert multiset(cs) == multiset{cs[0]} + multiset(cs[1..]) by { assert cs == [cs[0]] + cs[1..]; }
    if cs[0].id != id {
      EraseMultiset(cs[1..], id);
      assert Erase(cs, id) == [cs[0]] + Erase(cs[1..], id);
    }
  }

  lemma {:induction false} IdsMember(cs: Clients)
    ensures forall c :: c in cs ==> c.id in Ids(cs)
  {
    if cs != [] { IdsMember(cs[1..]); }
  }

  /** Everybody but two. */
  lemma Rest(cs: Clients, c: Client, d: Client) returns (rest: Clients)
    requires Distinct(cs) && c in cs && d in cs && c != d
    ensures multiset([d, c] + rest) == multiset(cs) && c !in rest
  {
    GetMember(cs, c);
    GetMember(cs, d);
    EraseMultiset(cs, d.id);
    EraseFacts(KIDS, 1, cs, d.id, 0);
    hide Erase, Get, Ids, Distinct;
    assert c.id != d.id;
    GetErase(cs, d.id, c.id);
    var others := Erase(cs, d.id);
    EraseMultiset(others, c.id);
    EraseFacts(KIDS, 1, others, c.id, 0);
    rest := Erase(others, c.id);
    IdsMember(rest);
  }

  /** The other first, then the client: it is not chosen. */
  lemma SecondNotChosen(st: Status, c: Client, d: Client, rest: Clients)
    requires c != d && c.status == d.status == st && d.niceness < 0xffff_ffff && c !in rest
    requires !(c.id < d.id && c.niceness < d.niceness)
    ensures Earliest([d, c] + rest, st) != Some(c)
  {
    var p := [d, c] + rest;
    assert p[1..] == [c] + rest && ([c] + rest)[1..] == rest;
    EarliestMember(rest, st, Some(d));
    assert EarliestOf([c] + rest, st, Some(d)) == EarliestOf(rest, st, Some(d));
    assert EarliestOf(p, st, None) == EarliestOf(p[1..], st, Some(d));
  }

  /** The map's order decides: a client is chosen whatever the order is if and only if it is ahead of every other
      waiting client on both id and niceness. */
  lemma ChosenInEveryOrder(cs: Clients, st: Status, c: Client, newId: nat)
    requires Distinct(cs) && AllOk(cs, newId) && c in cs && c.status == st
    ensures (forall p: Clients :: multiset(p) == multiset(cs) ==> Earliest(p, st) == Some(c)) <==> Ahead(c, cs, st)
  {
    hide Distinct, AllOk, EarliestOf;
    if Ahead(c, cs, st) {
      forall p: Clients | multiset(p) == multiset(cs) ensures Earliest(p, st) == Some(c) {
        SameMembers(p, cs);
        MembersOk(cs, newId);
        AheadChosen(p, st, None, c);
      }
    } else {
      var d :| d in cs && d.status == st && d != c && !(c.id < d.id && c.niceness < d.niceness);
      MembersOk(cs, newId);
      var rest := Rest(cs, c, d);
      SecondNotChosen(st, c, d, rest);
    }
  }

  lemma SameMembers(p: Clients, cs: Clients)
    requires multiset(p) == multiset(cs)
    ensures forall c :: c in p <==> c in cs
  {
    assert forall c :: c in p <==> c in multiset(p);
    assert forall c :: c in cs <==> c in multiset(cs);
  }

  /** Two clients of the same niceness, the younger first in the map: it is chosen, not the earlier one. */
  lemma EarlierLoses()
    ensures var elder, young := NewClient(1).(status := LINKJOB), NewClient(2).(status := LINKJOB);
      Earliest([young, elder], LINKJOB) == Some(young) && Earliest([elder, young], LINKJOB) == Some(elder)
  {
    var elder, young := NewClient(1).(status := LINKJOB), NewClient(2).(status := LINKJOB);
    assert [young, elder][1..] == [elder] && [elder, young][1..] == [young];
    assert EarliestOf([elder], LINKJOB, Some(young)) == EarliestOf([], LINKJOB, Some(young));
    assert EarliestOf([young], LINKJOB, Some(elder)) == EarliestOf([], LINKJOB, Some(elder));
  }

  // ---------------------------------------------------------------- serving waiting clients

  /** handle_old_request looks at local jobs first, then at jobs for this node, and, unless the load is too high,
      at compile jobs. */
  function NextClient(cs: Clients, busy: bool): Option<Client> {
    var link, pending := Earliest(cs, LINKJOB), Earliest(cs, PENDING_USE_CS);
    if link.Some? then link
    else if pending.Some? then pending
    else if busy then None
    else Earliest(cs, TOCOMPILE)
  }

  /** It starts the client, or ends it if it cannot be reached or no child can be forked. */
  function Due(c: Client, reachable: set<nat>, forks: set<nat>): Event {
    match c.status
    case LINKJOB => if c.id in reachable then StartLocal(c.id) else End(c.id)
    case PENDING_USE_CS => if c.id in reachable then StartPending(c.id) else End(c.id)
    case _ => if c.id in forks then StartCompile(c.id) else End(c.id)
  }

  /** Each event serves the next client while there is a free slot. */
  ghost predicate Serves(s: State, es: seq<Event>, reachable: set<nat>, forks: set<nat>, busy: bool)
    requires Inv(s) && EnabledAll(s, es)
    decreases |es|
  {
    es != [] ==>
      var c := NextClient(s.clients, busy);
      && FreeSlot(s) && c.Some? && es[0] == Due(c.value, reachable, forks)
      && (StepKeeps(s, es[0]); Serves(Step(s, es[0]), es[1..], reachable, forks, busy))
  }

  /** `t` is what those events make of `s`; the scheduler may have been lost meanwhile. */
  ghost predicate Served(s: State, es: seq<Event>, t: State, reachable: set<nat>, forks: set<nat>, busy: bool) {
    && Inv(s) && EnabledAll(s, es) && Serves(s, es, reachable, forks, busy)
    && OrLost(Run(s, es), t)
  }

  lemma {:induction false} RunThen(s: State, es: seq<Event>, e: Event)
    requires Inv(s) && EnabledAll(s, es) && Enabled(Run(s, es), e)
    ensures EnabledAll(s, es + [e]) && (StepKeeps(Run(s, es), e); Run(s, es + [e]) == Step(Run(s, es), e))
    decreases |es|
  {
    hide Inv, Enabled, Step;
    StepKeeps(Run(s, es), e);
    if es == [] {
      assert [] + [e] == [e];
      RunOne(s, e);
    } else {
      StepKeeps(s, es[0]);
      RunThen(Step(s, es[0]), es[1..], e);
      assert (es + [e])[1..] == es[1..] + [e];
    }
  }

  lemma RunOne(s: State, e: Event)
    requires Inv(s) && Enabled(s, e)
    ensures EnabledAll(s, [e]) && (StepKeeps(s, e); Run(s, [e]) == Step(s, e))
  {
    hide Inv, Enabled, Step;
    StepKeeps(s, e);
    assert [e][1..] == [];
  }

  lemma {:induction false} ServesThen(s: State, es: seq<Event>, e: Event, reachable: set<nat>, forks: set<nat>, busy: bool)
    requires Inv(s) && EnabledAll(s, es) && Serves(s, es, reachable, forks, busy) && Enabled(Run(s, es), e)
    requires FreeSlot(Run(s, es)) && NextClient(Run(s, es).clients, busy).Some?
    requires e == Due(NextClient(Run(s, es).clients, busy).value, reachable, forks)
    ensures (RunThen(s, es, e); Serves(s, es + [e], reachable, forks, busy))
    decreases |es|
  {
    hide Inv, Enabled, Step, NextClient, Due, FreeSlot;
    RunThen(s, es, e);
    if es == [] {
      assert [] + [e] == [e] && [e][1..] == [];
    } else {
      StepKeeps(s, es[0]);
      ServesThen(Step(s, es[0]), es[1..], e, reachable, forks, busy);
      RunThen(Step(s, es[0]), es[1..], e);
      assert (es + [e])[1..] == es[1..] + [e];
    }
  }

  lemma RecountApart(s: State, scheduler: bool, c: Client, d: Client)
    requires Value(SLOTS, Slots(s), c) <= s.active && Value(KIDS, Slots(s), c) <= s.kids
    ensures Slots(s.(scheduler := scheduler)) == Slots(s)
    ensures Recount(s.(scheduler := scheduler), c, d) == Recount(s, c, d).(scheduler := scheduler)
  {
  }

  predicate Serving(e: Event) {
    e.StartLocal? || e.StartPending? || e.StartCompile? || e.End?
  }

  lemma StepApart(s: State, scheduler: bool, e: Event)
    requires Serving(e) && Enabled(s, e) && Counted(s, Get(s.clients, e.id))
    ensures Enabled(s.(scheduler := scheduler), e) && Counted(s.(scheduler := scheduler), Get(s.clients, e.id))
    ensures Step(s.(scheduler := scheduler), e) == Step(s, e).(scheduler := scheduler)
  {
    hide Value, Ids, Get, Put, Erase, Recount, Slots, Finished;
    var c := Get(s.clients, e.id);
    SlotsApart(s, scheduler);
    RecountApart(s, scheduler, c, Gone(c));
    RecountApart(s, scheduler, c, Changed(s, c, e));
  }

  lemma SlotsApart(s: State, scheduler: bool)
    ensures Slots(s.(scheduler := scheduler)) == Slots(s)
  {
  }

  /** Starting and ending clients does not depend on the scheduler. */
  lemma SchedulerApart(s: State, scheduler: bool, e: Event, t: State)
    requires Inv(s) && Stepped(s.(scheduler := scheduler), e, t.(scheduler := scheduler)) && Serving(e)
    ensures Stepped(s, e, t.(scheduler := s.scheduler))
  {
    hide InvBut, Step, Enabled, Serving, Counted;
    var s' := s.(scheduler := scheduler);
    StepKeeps(s', e);
    ServingClient(e);
    StepApart(s', s.scheduler, e);
    assert s'.(scheduler := s.scheduler) == s;
    OtherScheduler(t.(scheduler := scheduler), s.scheduler, 0);
    StepKeeps(s, e);
  }

  lemma ServingClient(e: Event)
    requires Serving(e)
    ensures OfClient(e)
  {
  }

  /** One more event of the loop. */
  lemma ServedThen(s: State, es: seq<Event>, t: State, e: Event, u: State, reachable: set<nat>, forks: set<nat>, busy: bool)
    requires Served(s, es, t, reachable, forks, busy) && FreeSlot(t) && NextClient(t.clients, busy).Some?
    requires e == Due(NextClient(t.clients, busy).value, reachable, forks) && Happened(t, e, u) && Serving(e)
    ensures Served(s, es + [e], u, reachable, forks, busy)
  {
    hide InvBut, Step, NextClient, Due, FreeSlot, Enabled, Serves, OrLost;
    var r := Run(s, es);
    OrLostIs(r, t);
    FreeApart(r, t.scheduler);
    ServingClient(e);
    HappenedIs(t, e, u);
    assert t == r.(scheduler := t.scheduler);
    SchedulerApart(r, t.scheduler, e, u);
    LostLater(r, e, u);
    RunThen(s, es, e);
    ServesThen(s, es, e, reachable, forks, busy);
  }

  lemma FreeApart(s: State, scheduler: bool)
    ensures FreeSlot(s.(scheduler := scheduler)) <==> FreeSlot(s)
  {
  }

  function Rank(c: Client): nat {
    if c.status == LINKJOB then 0 else if c.status == PENDING_USE_CS then 1 else 2
  }

  /** The next client waits, and nobody who waits goes before it in rank. */
  lemma NextRank(s: State, busy: bool)
    requires Inv(s) && NextClient(s.clients, busy).Some?
    ensures var c := NextClient(s.clients, busy).value;
      && c.id in Ids(s.clients) && Get(s.clients, c.id) == c && Waits(c) && (busy ==> c.status != TOCOMPILE)
      && forall id :: id in Ids(s.clients) && Waits(Get(s.clients, id)) ==> Rank(c) <= Rank(Get(s.clients, id))
  {
    InvDistinct(s);
    InvAllOk(s);
    var cs := s.clients;
    hide InvBut, Ids, Distinct, AllOk, EarliestOf;
    EarliestUnbeaten(cs, LINKJOB, None, s.newId);
    EarliestUnbeaten(cs, PENDING_USE_CS, None, s.newId);
    EarliestMember(cs, LINKJOB, None);
    EarliestMember(cs, PENDING_USE_CS, None);
    EarliestMember(cs, TOCOMPILE, None);
    GetMember(cs, NextClient(cs, busy).value);
  }

  /** Every client is served at most once, as is due to it, in the order of ranks. */
  ghost predicate OnceEach(s: State, es: seq<Event>, reachable: set<nat>, forks: set<nat>) {
    && (forall k :: 0 <= k < |es| ==>
          && OfClient(es[k]) && es[k].id in Ids(s.clients) && Waits(Get(s.clients, es[k].id))
          && es[k] == Due(Get(s.clients, es[k].id), reachable, forks))
    && (forall i, k :: 0 <= i < k < |es| ==>
          es[i].id != es[k].id && Rank(Get(s.clients, es[i].id)) <= Rank(Get(s.clients, es[k].id)))
  }

  ghost predicate Named(es: seq<Event>, id: nat) {
    exists k :: 0 <= k < |es| && OfClient(es[k]) && es[k].id == id
  }

  /** Who was served works or is gone; everybody else is as before. */
  ghost predicate OnlyServed(s: State, es: seq<Event>, t: State) {
    && Ids(t.clients) <= Ids(s.clients)
    && (forall id :: id in Ids(s.clients) && !Named(es, id) ==> id in Ids(t.clients) && Get(t.clients, id) == Get(s.clients, id))
    && (forall k :: 0 <= k < |es| && OfClient(es[k]) && es[k].id in Ids(s.clients) ==>
          if es[k].End? then es[k].id !in Ids(t.clients)
          else es[k].id in Ids(t.clients) && Get(t.clients, es[k].id) == Changed(s, Get(s.clients, es[k].id), es[k]))
  }

  lemma SelfChanged(s: State, e: Event)
    requires Inv(s) && Enabled(s, e) && OfClient(e) && !e.CompileDone? && !e.End?
    ensures (StepKeeps(s, e);
      e.id in Ids(Step(s, e).clients) && Get(Step(s, e).clients, e.id) == Changed(s, Get(s.clients, e.id), e))
  {
    hide Inv, Put, Changed, Get, Ids, Distinct, ClientEnabled, Recount, Recorded;
    StepKeeps(s, e);
    ChangedId(s, e);
    PutGet(s.clients, Changed(s, Get(s.clients, e.id), e));
  }

  lemma SelfGone(s: State, e: Event)
    requires Inv(s) && Enabled(s, e) && e.End?
    ensures (StepKeeps(s, e); e.id !in Ids(Step(s, e).clients))
  {
    InvDistinct(s);
    hide Inv, Erase, Get, Ids, Distinct, ClientEnabled, Recount, Changed, Recorded;
    StepKeeps(s, e);
    EraseFacts(KIDS, 1, s.clients, e.id, s.newId);
  }

  lemma DueShape(s: State, c: Client, reachable: set<nat>, forks: set<nat>)
    requires Waits(c)
    ensures var e := Due(c, reachable, forks);
      && (e.StartLocal? || e.StartPending? || e.StartCompile? || e.End?) && e.id == c.id
      && (!e.End? ==> !Waits(Changed(s, c, e)))
      && forall t: State :: Changed(t, c, e) == Changed(s, c, e)
  {
  }

  /** One event of the loop, for one client. */
  lemma ServeOne(s: State, c: Client, reachable: set<nat>, forks: set<nat>)
    requires Inv(s) && c.id in Ids(s.clients) && Get(s.clients, c.id) == c && Waits(c) && Enabled(s, Due(c, reachable, forks))
    ensures var e := Due(c, reachable, forks);
      (StepKeeps(s, e);
       var t := Step(s, e);
       && OfClient(e) && e.id == c.id && Ids(t.clients) <= Ids(s.clients)
       && if e.End? then c.id !in Ids(t.clients)
          else c.id in Ids(t.clients) && Get(t.clients, c.id) == Changed(s, c, e) && !Waits(Changed(s, c, e)))
  {
    var e := Due(c, reachable, forks);
    DueShape(s, c, reachable, forks);
    StepKeeps(s, e);
    hide Inv, Step, Due, Enabled, Changed, Waits;
    if e.End? {
      SelfGone(s, e);
      GoneIds(s, e);
    } else {
      SelfChanged(s, e);
      ChangedIds(s, e);
    }
  }

  /** Only that client was served. */
  ghost predicate OneServed(s: State, t: State, c: Client, e: Event) {
    && c.id in Ids(s.clients) && Get(s.clients, c.id) == c && Waits(c) && OfClient(e) && e.id == c.id
    && Ids(t.clients) <= Ids(s.clients)
    && (forall id :: id in Ids(s.clients) && id != c.id ==> id in Ids(t.clients) && Get(t.clients, id) == Get(s.clients, id))
    && if e.End? then c.id !in Ids(t.clients)
       else c.id in Ids(t.clients) && Get(t.clients, c.id) == Changed(s, c, e) && !Waits(Changed(s, c, e))
  }

  lemma OnceMore(s: State, t: State, c: Client, e: Event, rest: seq<Event>, reachable: set<nat>, forks: set<nat>)
    requires OneServed(s, t, c, e) && e == Due(c, reachable, forks) && OnceEach(t, rest, reachable, forks)
    requires forall id :: id in Ids(s.clients) && Waits(Get(s.clients, id)) ==> Rank(c) <= Rank(Get(s.clients, id))
    ensures OnceEach(s, [e] + rest, reachable, forks)
  {
    hide Due, Ids, Get, Changed, Waits, Rank;
    var es := [e] + rest;
    forall k | 0 < k < |es|
      ensures OfClient(es[k]) && es[k].id in Ids(s.clients) && es[k].id != c.id && Get(s.clients, es[k].id) == Get(t.clients, es[k].id)
    {
      assert es[k] == rest[k - 1];
    }
    forall i, k | 0 <= i < k < |es| ensures es[i].id != es[k].id && Rank(Get(s.clients, es[i].id)) <= Rank(Get(s.clients, es[k].id)) {
      assert es[k] == rest[k - 1];
      assert i > 0 ==> es[i] == rest[i - 1];
    }
  }

  lemma NotAgain(s: State, t: State, c: Client, e: Event, rest: seq<Event>, reachable: set<nat>, forks: set<nat>)
    requires OneServed(s, t, c, e) && OnceEach(t, rest, reachable, forks)
    ensures !Named(rest, c.id)
  {
    hide Due, Ids, Get, Changed, Waits, Rank;
  }

  lemma UnnamedMore(e: Event, rest: seq<Event>, id: nat)
    requires !Named([e] + rest, id)
    ensures !Named(rest, id) && (OfClient(e) ==> e.id != id)
  {
    var es := [e] + rest;
    assert es[0] == e;
    assert forall k :: 0 <= k < |rest| ==> rest[k] == es[k + 1];
  }

  lemma OnlyMore(s: State, t: State, c: Client, e: Event, rest: seq<Event>, u: State)
    requires OneServed(s, t, c, e) && !Named(rest, c.id) && OnlyServed(t, rest, u)
    requires forall k :: 0 <= k < |rest| ==> SameChange(s, t, rest[k])
    ensures OnlyServed(s, [e] + rest, u)
  {
    hide Ids, Get, Changed, Waits, SameChange, Named;
    var es := [e] + rest;
    forall id | id in Ids(s.clients) && !Named(es, id) ensures id in Ids(u.clients) && Get(u.clients, id) == Get(s.clients, id) {
      UnnamedMore(e, rest, id);
    }
    forall k | 0 <= k < |es| && OfClient(es[k]) && es[k].id in Ids(s.clients)
      ensures if es[k].End? then es[k].id !in Ids(u.clients)
              else es[k].id in Ids(u.clients) && Get(u.clients, es[k].id) == Changed(s, Get(s.clients, es[k].id), es[k])
    {
      if k > 0 {
        assert es[k] == rest[k - 1];
        NamedAt(rest, k - 1);
        OnlyLater(s, t, c, e, rest, u, k - 1);
      }
    }
  }

  lemma NamedAt(es: seq<Event>, k: nat)
    requires k < |es| && OfClient(es[k])
    ensures Named(es, es[k].id)
  {
  }

  lemma OnlyLater(s: State, t: State, c: Client, e: Event, rest: seq<Event>, u: State, k: nat)
    requires OneServed(s, t, c, e) && OnlyServed(t, rest, u) && k < |rest| && SameChange(s, t, rest[k])
    requires OfClient(rest[k]) && rest[k].id in Ids(s.clients) && rest[k].id != c.id
    ensures if rest[k].End? then rest[k].id !in Ids(u.clients)
            else rest[k].id in Ids(u.clients) && Get(u.clients, rest[k].id) == Changed(s, Get(s.clients, rest[k].id), rest[k])
  {
    hide Ids, Get, Changed, Waits, Named;
  }

  ghost predicate SameChange(s: State, t: State, e: Event) {
    forall c: Client :: Changed(s, c, e) == Changed(t, c, e)
  }

  lemma StartsAlike(s: State, t: State, es: seq<Event>, reachable: set<nat>, forks: set<nat>)
    requires OnceEach(t, es, reachable, forks)
    ensures forall k :: 0 <= k < |es| ==> SameChange(s, t, es[k])
  {
    hide Ids, Get, Rank, Waits;
  }

  /** The run of the loop, told from the state before it: every client that waits is served at most once, started
      if it can be and ended if not, local jobs before jobs for this node before compile jobs; nobody else changes. */
  lemma {:induction false} ServedOnce(s: State, es: seq<Event>, reachable: set<nat>, forks: set<nat>, busy: bool)
    requires Inv(s) && EnabledAll(s, es) && Serves(s, es, reachable, forks, busy)
    ensures OnceEach(s, es, reachable, forks) && OnlyServed(s, es, Run(s, es))
    ensures busy ==> forall k :: 0 <= k < |es| ==> !es[k].StartCompile?
    decreases |es|
  {
    hide InvBut, Enabled, Step, NextClient, Due, Ids, Get, FreeSlot, Changed, Waits, Rank, OnceEach, OnlyServed, OneServed, Named, SameChange;
    if es == [] {
      NobodyServed(s, reachable, forks);
    } else {
      var e, rest, c := es[0], es[1..], NextClient(s.clients, busy).value;
      StepKeeps(s, e);
      var t := Step(s, e);
      NextRank(s, busy);
      ServedFirst(s, c, e, reachable, forks);
      if c.status != TOCOMPILE { NotCompile(c, reachable, forks); }
      ServedOnce(t, rest, reachable, forks, busy);
      OnceMore(s, t, c, e, rest, reachable, forks);
      StartsAlike(s, t, rest, reachable, forks);
      NotAgain(s, t, c, e, rest, reachable, forks);
      OnlyMore(s, t, c, e, rest, Run(t, rest));
      assert [e] + rest == es;
      assert forall k :: 0 < k < |es| ==> es[k] == rest[k - 1];
    }
  }

  lemma NobodyServed(s: State, reachable: set<nat>, forks: set<nat>)
    ensures OnceEach(s, [], reachable, forks) && OnlyServed(s, [], s)
  {
  }

  lemma NotCompile(c: Client, reachable: set<nat>, forks: set<nat>)
    requires Waits(c) && c.status != TOCOMPILE
    ensures !Due(c, reachable, forks).StartCompile?
  {
  }

  lemma ServedFirst(s: State, c: Client, e: Event, reachable: set<nat>, forks: set<nat>)
    requires Inv(s) && c.id in Ids(s.clients) && Get(s.clients, c.id) == c && Waits(c)
    requires e == Due(c, reachable, forks) && Enabled(s, e)
    ensures (StepKeeps(s, e); OneServed(s, Step(s, e), c, e))
  {
    StepKeeps(s, e);
    hide InvBut, Enabled, Step, Due, Ids, Get, Changed, Waits;
    ServeOne(s, c, reachable, forks);
    forall id | id in Ids(s.clients) && id != c.id
      ensures id in Ids(Step(s, e).clients) && Get(Step(s, e).clients, id) == Get(s.clients, id)
    {
      OthersStay(s, e, id);
    }
  }

  lemma NothingServed(s: State, reachable: set<nat>, forks: set<nat>, busy: bool)
    requires Inv(s)
    ensures Served(s, [], s, reachable, forks, busy)
  {
  }

  lemma FreeHere(s: State)
    requires s.kids + s.active < Max(1, s.maxKids)
    ensures FreeSlot(s)
  {
  }

  lemma LostCleared(s: State)
    requires Inv(s) && s.scheduler
    ensures EnabledAll(s, [Lost, Cleared])
    ensures Run(s, [Lost, Cleared]) == s.(clients := [], kids := 0, active := 0, newId := 0, scheduler := false)
  {
    hide Inv;
    StepKeeps(s, Lost);
    RunOne(Step(s, Lost), Cleared);
    assert [Lost, Cleared][1..] == [Cleared];
  }
}
