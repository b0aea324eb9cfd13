/** The daemon's clients, the slots and children they hold, and what each message does to them (daemon/main.cpp). */
module DaemonSpec {
  import opened Common

  datatype Status = UNKNOWN | GOTNATIVE | PENDING_USE_CS | JOBDONE | LINKJOB | TOINSTALL | WAITINSTALL | TOCOMPILE
                  | WAITFORCS | WAITCOMPILE | CLIENTWORK | WAITFORCHILD | WAITCREATEENV

  /** `child`, `pipeFrom` and `pipeTo` say whether the child process is alive and the pipes are open; `env` is the
      environment of the job to compile, once there is a job. */
  datatype Client = Client(
    id: nat, status: Status, jobId: nat, niceness: nat, fulljob: bool, child: bool, pipeFrom: bool, pipeTo: bool,
    outfile: string, env: Option<string>, pendingEnv: string)

  function NewClient(id: nat): Client {
    Client(id, UNKNOWN, 0, 0, false, false, false, false, "", None, "")
  }

  type Clients = seq<Client>

  /** A call of finalize_install_environment, by client and name of the environment. */
  datatype Finalization = Finalization(id: nat, outfile: string)

  /** The clients in the order the daemon's map has them (the order of their addresses: any order), the counters,
      the number of slots, whether the scheduler is connected, and the environments finalized so far. */
  datatype State = State(clients: Clients, kids: nat, active: nat, maxKids: nat, newId: nat, scheduler: bool,
                         finalized: seq<Finalization>)

  function Slots(s: State): nat { Max(1, s.maxKids) }

  // ---------------------------------------------------------------- what clients hold

  datatype Measure = SLOTS | KIDS | FULL | COMPILING | WAITING

  predicate Installing(c: Client) {
    c.status == TOINSTALL || c.status == WAITINSTALL
  }

  /** Does the client's job need the environment? */
  predicate Uses(c: Client, env: string) {
    && c.env == Some(env)
    && (c.status == TOCOMPILE || c.status == TOINSTALL || c.status == WAITINSTALL || c.status == WAITFORCHILD)
  }

  function Bit(b: bool): nat { if b then 1 else 0 }

  /** Of one client: slots (a full job takes all `m`), live children, running full jobs, compile children,
      requests that wait for a slot. */
  function Value(k: Measure, m: nat, c: Client): nat {
    match k
    case SLOTS => if c.status == CLIENTWORK then (if c.fulljob then m else 1) else 0
    case KIDS => Bit(c.status == WAITFORCHILD || (Installing(c) && c.child))
    case FULL => Bit(c.status == CLIENTWORK && c.fulljob)
    case COMPILING => Bit(c.status == WAITFORCHILD)
    case WAITING => Bit(c.status == LINKJOB || c.status == PENDING_USE_CS || c.status == TOCOMPILE)
  }

  /** Environments that some client's job needs. */
  function UsedBy(cs: Clients): set<string> {
    if cs == [] then {} else (if cs[0].env.Some? && Uses(cs[0], cs[0].env.value) then {cs[0].env.value} else {}) + UsedBy(cs[1..])
  }

  function Sum(k: Measure, m: nat, cs: Clients): nat {
    if cs == [] then 0 else Value(k, m, cs[0]) + Sum(k, m, cs[1..])
  }

  // ---------------------------------------------------------------- finding and changing clients

  function Ids(cs: Clients): set<nat> {
    if cs == [] then {} else {cs[0].id} + Ids(cs[1..])
  }

  ghost predicate Distinct(cs: Clients) {
    cs == [] || (cs[0].id !in Ids(cs[1..]) && Distinct(cs[1..]))
  }

  function Index(cs: Clients, id: nat): (k: nat)
    ensures k <= |cs| && (k < |cs| ==> cs[k].id == id)
    ensures k < |cs| <==> id in Ids(cs)
    ensures forall i :: 0 <= i < k ==> cs[i].id != id
  {
    if cs == [] || cs[0].id == id then 0 else 1 + Index(cs[1..], id)
  }

  function Get(cs: Clients, id: nat): (c: Client)
    requires id in Ids(cs)
    ensures c in cs && c.id == id
  {
    cs[Index(cs, id)]
  }

  function Put(cs: Clients, c: Client): (r: Clients)
    requires c.id in Ids(cs)
    ensures |r| == |cs|
  {
    if cs[0].id == c.id then [c] + cs[1..] else [cs[0]] + Put(cs[1..], c)
  }

  function Erase(cs: Clients, id: nat): (r: Clients)
    requires id in Ids(cs)
    ensures |r| + 1 == |cs|
  {
    if cs[0].id == id then cs[1..] else [cs[0]] + Erase(cs[1..], id)
  }

  function Insert(cs: Clients, at: nat, c: Client): Clients {
    if at == 0 || cs == [] then [c] + cs else [cs[0]] + Insert(cs[1..], at - 1, c)
  }

  // ---------------------------------------------------------------- the invariant

  /** What a client in each status holds and owes. */
  predicate ClientOk(c: Client, newId: nat) {
    && 0 < c.id <= newId && c.niceness <= 20
    && (c.fulljob ==> c.status == LINKJOB || c.status == CLIENTWORK)
    && (c.jobId > 0 ==> c.status == PENDING_USE_CS || c.status == WAITCOMPILE || c.status == CLIENTWORK)
    && (c.status == TOCOMPILE || c.status == WAITFORCHILD ==> c.env.Some?)
    && (c.env.Some? ==> c.env.value != "")
    && (c.pendingEnv != "" ==> c.status == WAITCREATEENV)
    && match c.status
       case TOINSTALL => c.pipeTo && c.pipeFrom == c.child && c.outfile != ""
       case WAITINSTALL => !c.pipeTo && c.pipeFrom && c.child && c.outfile != ""
       case WAITFORCHILD => !c.pipeTo && c.pipeFrom && c.child
       case _ => !c.pipeTo && !c.pipeFrom && !c.child
  }

  predicate AllOk(cs: Clients, newId: nat) {
    cs == [] || (ClientOk(cs[0], newId) && AllOk(cs[1..], newId))
  }

  /** At most one full job runs. Beside compile children, running jobs fit the slots; with a full job, which
      may start while others run, twice the slots less one bound them. */
  predicate BoundOk(compiling: int, active: int, full: int, m: nat) {
    full <= 1 && compiling + active <= if full == 0 then m else 2 * m - 1
  }

  /** The counters are exact; `orphans` counts the children whose client is gone or, if negative, the clients
      whose child is. */
  ghost predicate InvBut(s: State, orphans: int) {
    && Distinct(s.clients) && AllOk(s.clients, s.newId)
    && s.active == Sum(SLOTS, Slots(s), s.clients)
    && s.kids == Sum(KIDS, Slots(s), s.clients) + orphans
    && BoundOk(Sum(COMPILING, Slots(s), s.clients), s.active, Sum(FULL, Slots(s), s.clients), Slots(s))
  }

  ghost predicate Inv(s: State) {
    InvBut(s, 0)
  }

  function Initial(maxKids: nat): State {
    State([], 0, 0, maxKids, 0, false, [])
  }

  // ---------------------------------------------------------------- installing an environment

  datatype InstallEvent = Chunk(written: bool) | EndOfTransfer | BadMessage | ChildDone(success: bool) | Cancelled

  datatype Outcome = Going | Finalized | Failed

  /** What happens to the transfer of a client: messages are read only while it is not over, and the child ends
      only once. */
  predicate InstallEnabled(c: Client, e: InstallEvent) {
    && Installing(c)
    && match e
       case Chunk(_) => c.pipeTo
       case EndOfTransfer => c.pipeTo
       case BadMessage => c.pipeTo
       case ChildDone(_) => c.child
       case Cancelled => true
  }

  /** An environment is finalized when both its transfer has ended and its child has succeeded. */
  function InstallOutcome(c: Client, e: InstallEvent): Outcome {
    match e
    case Chunk(written) => if written then Going else Failed
    case EndOfTransfer => if c.child then Going else Finalized
    case BadMessage => Failed
    case ChildDone(success) => if !success then Failed else if c.pipeTo then Going else Finalized
    case Cancelled => Failed
  }

  /** A transfer that is over leaves nothing behind. */
  function Finished(c: Client): Client {
    c.(status := UNKNOWN, outfile := "", child := false, pipeFrom := false, pipeTo := false)
  }

  function Installed(c: Client, e: InstallEvent): Client {
    if InstallOutcome(c, e) != Going then Finished(c)
    else
      match e
      case EndOfTransfer => c.(status := WAITINSTALL, pipeTo := false)
      case ChildDone(_) => c.(child := false, pipeFrom := false)
      case _ => c
  }

  // ---------------------------------------------------------------- events

  datatype Event =
    | Accept(at: nat)
    | AskNative(id: nat, key: string)
    | NativeReady(id: nat)
    | GetCS(id: nat, niceness: nat)
    | LocalJob(id: nat, niceness: nat, full: bool, outfile: string)
    | UseCS(id: nat, jobId: nat, mine: bool)
    | JobDone(id: nat)
    | CompileFile(id: nat, platform: string, version: string)
    | StartInstall(id: nat, outfile: string)
    | Install(id: nat, event: InstallEvent)
    | StartLocal(id: nat)
    | StartPending(id: nat)
    | StartCompile(id: nat)
    | CompileDone(id: nat)
    | End(id: nat)
    | Connected
    | Lost
    | Cleared

  /** Is the event one of a client? The others are a new client, the scheduler found or lost, and the end of all
      clients. */
  predicate OfClient(e: Event) {
    !e.Accept? && !e.Connected? && !e.Lost? && !e.Cleared?
  }

  /** The environment of a job, as the received ones are named. */
  function EnvOf(platform: string, version: string): (env: string)
    ensures env != ""
  {
    platform + "/" + version
  }

  /** The version of a job whose client works on it itself. */
  const CLIENT_ENV := "__client"

  predicate FreeSlot(s: State) {
    s.kids + s.active < Slots(s)
  }

  /** In which status a client sends what, and when the daemon starts a job. */
  predicate ClientEnabled(s: State, c: Client, e: Event) {
    match e
    case AskNative(_, key) => c.status == UNKNOWN && key != ""
    case NativeReady(_) => c.status == WAITCREATEENV
    case GetCS(_, niceness) => (c.status == UNKNOWN || c.status == GOTNATIVE) && niceness <= 20
    case LocalJob(_, niceness, _, _) => (c.status == UNKNOWN || c.status == GOTNATIVE) && niceness <= 20
    case UseCS(_, _, _) => c.status == WAITFORCS
    case JobDone(_) => c.status == CLIENTWORK || c.status == WAITCOMPILE
    case CompileFile(_, _, version) => c.status == UNKNOWN || (c.status == CLIENTWORK && version == CLIENT_ENV)
    case StartInstall(_, outfile) => c.status == UNKNOWN && outfile != ""
    case Install(_, ev) => InstallEnabled(c, ev)
    case StartLocal(_) => c.status == LINKJOB && FreeSlot(s)
    case StartPending(_) => c.status == PENDING_USE_CS && FreeSlot(s)
    case StartCompile(_) => c.status == TOCOMPILE && FreeSlot(s)
    case CompileDone(_) => c.status == WAITFORCHILD
    case End(_) => c.status != WAITFORCHILD
    case _ => false
  }

  predicate Enabled(s: State, e: Event) {
    match e
    case Accept(_) => true
    case Connected => !s.scheduler
    case Lost => s.scheduler
    case Cleared => true
    case _ => e.id in Ids(s.clients) && ClientEnabled(s, Get(s.clients, e.id), e)
  }

  /** The client after an event that it survives. */
  function Changed(s: State, c: Client, e: Event): Client {
    match e
    case AskNative(_, key) => c.(status := WAITCREATEENV, pendingEnv := key)
    case NativeReady(_) => c.(status := GOTNATIVE, pendingEnv := "")
    case GetCS(id, niceness) =>
      if s.scheduler then c.(status := WAITFORCS, niceness := niceness)
      else c.(status := PENDING_USE_CS, niceness := niceness, jobId := id)
    case LocalJob(_, niceness, full, outfile) => c.(status := LINKJOB, niceness := niceness, fulljob := full, outfile := outfile)
    case UseCS(_, jobId, mine) => c.(status := if mine then PENDING_USE_CS else WAITCOMPILE, jobId := jobId)
    case JobDone(_) => c.(status := JOBDONE, fulljob := false, jobId := 0)
    case CompileFile(_, platform, version) =>
      c.(env := Some(EnvOf(platform, version)), status := if c.status == CLIENTWORK then CLIENTWORK else TOCOMPILE)
    case StartInstall(_, outfile) => c.(status := TOINSTALL, outfile := outfile, child := true, pipeFrom := true, pipeTo := true)
    case Install(_, ev) => Installed(c, ev)
    case StartLocal(_) => c.(status := CLIENTWORK)
    case StartPending(_) => c.(status := CLIENTWORK)
    case StartCompile(_) => c.(status := WAITFORCHILD, child := true, pipeFrom := true)
    case _ => c
  }

  /** The counters follow: a slot or child that a client takes or gives back is counted once. */
  function Recount(s: State, c: Client, c': Client): State
    requires s.active + Value(SLOTS, Slots(s), c') >= Value(SLOTS, Slots(s), c)
    requires s.kids + Value(KIDS, Slots(s), c') >= Value(KIDS, Slots(s), c)
  {
    s.(active := s.active + Value(SLOTS, Slots(s), c') - Value(SLOTS, Slots(s), c),
       kids := s.kids + Value(KIDS, Slots(s), c') - Value(KIDS, Slots(s), c))
  }

  /** A client whose counters are given back. */
  function Gone(c: Client): Client {
    Finished(c).(fulljob := false)
  }

  /** The record after an event of the client. */
  function Recorded(record: seq<Finalization>, c: Client, e: Event): seq<Finalization> {
    if e.Install? && InstallOutcome(c, e.event) == Finalized then record + [Finalization(c.id, c.outfile)] else record
  }

  predicate Counted(s: State, c: Client) {
    Value(SLOTS, Slots(s), c) <= s.active && Value(KIDS, Slots(s), c) <= s.kids
  }

  /** What an event of a client does. */
  function ClientStep(s: State, c: Client, e: Event): State
    requires OfClient(e) && c.id in Ids(s.clients) && Changed(s, c, e).id == c.id && Counted(s, c)
  {
    if e.CompileDone? || e.End? then Recount(s, c, Gone(c)).(clients := Erase(s.clients, c.id))
    else
      Recount(s, c, Changed(s, c, e)).(clients := Put(s.clients, Changed(s, c, e)), finalized := Recorded(s.finalized, c, e))
  }

  function Step(s: State, e: Event): State
    requires Enabled(s, e) && (OfClient(e) ==> Counted(s, Get(s.clients, e.id)))
  {
    match e
    case Accept(at) => s.(newId := s.newId + 1, clients := Insert(s.clients, at, NewClient(s.newId + 1)))
    case Connected => s.(scheduler := true)
    case Lost => s.(scheduler := false)
    case Cleared => s.(clients := [], kids := 0, active := 0, newId := 0)
    case _ => ClientStep(s, Get(s.clients, e.id), e)
  }

  // ---------------------------------------------------------------- facts about the list

  lemma {:induction false} PutFacts(k: Measure, m: nat, cs: Clients, c: Client, newId: nat)
    requires c.id in Ids(cs)
    ensures Sum(k, m, Put(cs, c)) == Sum(k, m, cs) - Value(k, m, Get(cs, c.id)) + Value(k, m, c)
    ensures Value(k, m, Get(cs, c.id)) <= Sum(k, m, cs)
    ensures Ids(Put(cs, c)) == Ids(cs) && (Distinct(cs) ==> Distinct(Put(cs, c)))
    ensures AllOk(cs, newId) && ClientOk(c, newId) ==> AllOk(Put(cs, c), newId)
  {
    hide Value, ClientOk;
    if cs[0].id != c.id {
      PutFacts(k, m, cs[1..], c, newId);
      var r := Put(cs[1..], c);
      assert ([cs[0]] + r)[1..] == r;
    } else {
      assert ([c] + cs[1..])[1..] == cs[1..];
    }
  }

  lemma {:induction false} EraseFacts(k: Measure, m: nat, cs: Clients, id: nat, newId: nat)
    requires id in Ids(cs)
    ensures Sum(k, m, Erase(cs, id)) == Sum(k, m, cs) - Value(k, m, Get(cs, id))
    ensures Value(k, m, Get(cs, id)) <= Sum(k, m, cs)
    ensures Ids(Erase(cs, id)) <= Ids(cs) && (Distinct(cs) ==> Distinct(Erase(cs, id)) && Ids(Erase(cs, id)) == Ids(cs) - {id})
    ensures AllOk(cs, newId) ==> AllOk(Erase(cs, id), newId)
  {
    hide Value, ClientOk;
    if cs[0].id != id {
      EraseFacts(k, m, cs[1..], id, newId);
      var r := Erase(cs[1..], id);
      assert ([cs[0]] + r)[1..] == r;
    }
  }

  /** Whoever needs no environment can as well be gone. */
  lemma {:induction false} UsedWithout(cs: Clients, c: Client)
    requires c.id in Ids(cs) && c.status == UNKNOWN
    ensures UsedBy(Put(cs, c)) == UsedBy(Erase(cs, c.id))
  {
    if cs[0].id != c.id {
      UsedWithout(cs[1..], c);
      var p, r := Put(cs[1..], c), Erase(cs[1..], c.id);
      assert ([cs[0]] + p)[1..] == p && ([cs[0]] + r)[1..] == r;
    } else {
      assert ([c] + cs[1..])[1..] == cs[1..];
    }
  }

  lemma {:induction false} UsedIs(cs: Clients, env: string)
    ensures env in UsedBy(cs) <==> exists c :: c in cs && Uses(c, env)
  {
    if cs != [] {
      UsedIs(cs[1..], env);
      assert forall c :: c in cs <==> c == cs[0] || c in cs[1..];
    }
  }

  lemma {:induction false} InsertFacts(k: Measure, m: nat, cs: Clients, at: nat, c: Client, newId: nat)
    ensures Sum(k, m, Insert(cs, at, c)) == Sum(k, m, cs) + Value(k, m, c)
    ensures Ids(Insert(cs, at, c)) == Ids(cs) + {c.id}
    ensures Distinct(cs) && c.id !in Ids(cs) ==> Distinct(Insert(cs, at, c))
    ensures AllOk(cs, newId) && ClientOk(c, newId) ==> AllOk(Insert(cs, at, c), newId)
  {
    hide Value, ClientOk;
    if at == 0 || cs == [] {
      assert ([c] + cs)[1..] == cs;
    } else {
      InsertFacts(k, m, cs[1..], at - 1, c, newId);
      var r := Insert(cs[1..], at - 1, c);
      assert ([cs[0]] + r)[1..] == r;
    }
  }

  lemma {:induction false} MemberOk(cs: Clients, id: nat, newId: nat)
    requires AllOk(cs, newId) && id in Ids(cs)
    ensures ClientOk(Get(cs, id), newId)
  {
    hide ClientOk;
    if cs[0].id != id { MemberOk(cs[1..], id, newId); }
  }

  lemma {:induction false} NewerOk(cs: Clients, newId: nat)
    requires AllOk(cs, newId)
    ensures AllOk(cs, newId + 1) && newId + 1 !in Ids(cs)
  {
    if cs != [] { NewerOk(cs[1..], newId); }
  }

  lemma {:induction false} FullTakesAll(m: nat, cs: Clients)
    requires m > 0
    ensures Sum(SLOTS, m, cs) >= m * Sum(FULL, m, cs)
    ensures Sum(COMPILING, m, cs) <= Sum(KIDS, m, cs)
  {
    if cs != [] {
      FullTakesAll(m, cs[1..]);
      assert m * (Value(FULL, m, cs[0]) + Sum(FULL, m, cs[1..])) == m * Value(FULL, m, cs[0]) + m * Sum(FULL, m, cs[1..]);
    }
  }

  // ---------------------------------------------------------------- every event keeps the invariant

  /** The counters cover what any client holds, so that no subtraction underflows. */
  lemma CountersCover(s: State, id: nat)
    requires Inv(s) && id in Ids(s.clients)
    ensures Counted(s, Get(s.clients, id))
  {
    hide Value, AllOk, Distinct, BoundOk;
    var c := Get(s.clients, id);
    PutFacts(SLOTS, Slots(s), s.clients, c, s.newId);
    PutFacts(KIDS, Slots(s), s.clients, c, s.newId);
  }

  /** What an event does to one client. */
  lemma ChangedOk(s: State, c: Client, e: Event)
    requires ClientOk(c, s.newId) && ClientEnabled(s, c, e) && OfClient(e) && e.id == c.id
    ensures ClientOk(Changed(s, c, e), s.newId) && Changed(s, c, e).id == c.id
  {
  }

  /** Only starting a job takes slots, a full job all of them and none beside one; and only starting to compile
      adds a compile child. */
  lemma ChangedBound(s: State, c: Client, e: Event, compiling: nat, full: nat)
    requires ClientOk(c, s.newId) && ClientEnabled(s, c, e) && OfClient(e)
    requires BoundOk(compiling, s.active, full, Slots(s)) && compiling <= s.kids && full * Slots(s) <= s.active
    requires Value(SLOTS, Slots(s), c) <= s.active && Value(COMPILING, Slots(s), c) <= compiling && Value(FULL, Slots(s), c) <= full
    ensures var c', m := Changed(s, c, e), Slots(s);
      BoundOk(compiling - Value(COMPILING, m, c) + Value(COMPILING, m, c'), s.active - Value(SLOTS, m, c) + Value(SLOTS, m, c'),
              full - Value(FULL, m, c) + Value(FULL, m, c'), m)
  {
    if full == 1 { assert full * Slots(s) == Slots(s); }
  }

  lemma PutKeeps(s: State, c': Client)
    requires Inv(s) && c'.id in Ids(s.clients) && ClientOk(c', s.newId)
    requires Counted(s, Get(s.clients, c'.id))
    requires var c, m := Get(s.clients, c'.id), Slots(s);
      BoundOk(Sum(COMPILING, m, s.clients) - Value(COMPILING, m, c) + Value(COMPILING, m, c'),
              s.active - Value(SLOTS, m, c) + Value(SLOTS, m, c'),
              Sum(FULL, m, s.clients) - Value(FULL, m, c) + Value(FULL, m, c'), m)
    ensures Inv(Recount(s, Get(s.clients, c'.id), c').(clients := Put(s.clients, c')))
  {
    hide Value, AllOk, Distinct, BoundOk, ClientOk, Slots;
    var m := Slots(s);
    SameSlots(s, Recount(s, Get(s.clients, c'.id), c').(clients := Put(s.clients, c')));
    PutFacts(SLOTS, m, s.clients, c', s.newId);
    PutFacts(KIDS, m, s.clients, c', s.newId);
    PutFacts(FULL, m, s.clients, c', s.newId);
    PutFacts(COMPILING, m, s.clients, c', s.newId);
  }

  lemma SameSlots(s: State, t: State)
    requires s.maxKids == t.maxKids
    ensures Slots(s) == Slots(t)
  {
  }

  lemma GoneBound(c: Client, m: nat, compiling: nat, active: nat, full: nat)
    requires BoundOk(compiling, active, full, m) && m > 0
    requires Value(SLOTS, m, c) <= active && Value(COMPILING, m, c) <= compiling && Value(FULL, m, c) <= full
    ensures BoundOk(compiling - Value(COMPILING, m, c), active - Value(SLOTS, m, c), full - Value(FULL, m, c), m)
    ensures Value(SLOTS, m, Gone(c)) == 0 && Value(KIDS, m, Gone(c)) == 0
  {
  }

  /** The client goes; its child may live on (`orphan`) for a while. */
  lemma EraseKeeps(s: State, id: nat, kids: nat, orphans: int)
    requires InvBut(s, orphans) && id in Ids(s.clients)
    requires kids == s.kids || kids + Value(KIDS, Slots(s), Get(s.clients, id)) == s.kids
    ensures Value(SLOTS, Slots(s), Get(s.clients, id)) <= s.active
    ensures var c, m := Get(s.clients, id), Slots(s);
      InvBut(s.(active := s.active - Value(SLOTS, m, c), kids := kids, clients := Erase(s.clients, id)),
             if kids == s.kids then orphans + Value(KIDS, m, c) else orphans)
  {
    hide Value, AllOk, Distinct, BoundOk, ClientOk, Slots;
    var c, m := Get(s.clients, id), Slots(s);
    SameSlots(s, s.(active := 0, kids := kids, clients := Erase(s.clients, id)));
    EraseFacts(SLOTS, m, s.clients, id, s.newId);
    EraseFacts(KIDS, m, s.clients, id, s.newId);
    EraseFacts(FULL, m, s.clients, id, s.newId);
    EraseFacts(COMPILING, m, s.clients, id, s.newId);
    SlotsPositive(s);
    GoneBound(c, m, Sum(COMPILING, m, s.clients), s.active, Sum(FULL, m, s.clients));
    SameSlots(s, s.(active := s.active - Value(SLOTS, m, c), kids := kids, clients := Erase(s.clients, id)));
  }

  lemma SlotsPositive(s: State)
    ensures Slots(s) > 0
  {
  }

  lemma AcceptKeeps(s: State, at: nat)
    requires Inv(s)
    ensures Inv(s.(newId := s.newId + 1, clients := Insert(s.clients, at, NewClient(s.newId + 1))))
  {
    hide AllOk, Distinct, BoundOk, Slots, Value, ClientOk, NewClient, Insert;
    var c, m := NewClient(s.newId + 1), Slots(s);
    NewClientOk(s.newId + 1, m);
    SameSlots(s, s.(newId := s.newId + 1, clients := Insert(s.clients, at, c)));
    NewerOk(s.clients, s.newId);
    InsertFacts(SLOTS, m, s.clients, at, c, s.newId + 1);
    InsertFacts(KIDS, m, s.clients, at, c, s.newId + 1);
    InsertFacts(FULL, m, s.clients, at, c, s.newId + 1);
    InsertFacts(COMPILING, m, s.clients, at, c, s.newId + 1);
  }

  lemma NewClientOk(id: nat, m: nat)
    requires id > 0
    ensures NewClient(id).id == id && ClientOk(NewClient(id), id)
    ensures Value(SLOTS, m, NewClient(id)) == 0 && Value(KIDS, m, NewClient(id)) == 0
    ensures Value(FULL, m, NewClient(id)) == 0 && Value(COMPILING, m, NewClient(id)) == 0
  {
  }

  lemma ChangeKeeps(s: State, e: Event)
    requires Inv(s) && Enabled(s, e) && OfClient(e) && !e.CompileDone? && !e.End?
    requires Counted(s, Get(s.clients, e.id))
    ensures Inv(Step(s, e))
  {
    hide Value, AllOk, Distinct, BoundOk, ClientOk, Changed, ClientEnabled, Slots;
    var c, m := Get(s.clients, e.id), Slots(s);
    MemberOk(s.clients, e.id, s.newId);
    ChangedOk(s, c, e);
    SlotsPositive(s);
    FullTakesAll(m, s.clients);
    PutFacts(COMPILING, m, s.clients, c, s.newId);
    PutFacts(FULL, m, s.clients, c, s.newId);
    Commute(m, Sum(FULL, m, s.clients));
    ChangedBound(s, c, e, Sum(COMPILING, m, s.clients), Sum(FULL, m, s.clients));
    PutKeeps(s, Changed(s, c, e));
    OtherRecord(Recount(s, c, Changed(s, c, e)).(clients := Put(s.clients, Changed(s, c, e))), Recorded(s.finalized, c, e));
  }

  lemma OtherRecord(s: State, record: seq<Finalization>)
    requires Inv(s)
    ensures Inv(s.(finalized := record))
  {
  }

  lemma Commute(a: nat, b: nat)
    ensures a * b == b * a
  {
  }

  lemma GoneCounts(s: State, id: nat)
    requires id in Ids(s.clients) && Counted(s, Get(s.clients, id))
    ensures var c, m := Get(s.clients, id), Slots(s);
      Recount(s, c, Gone(c)) == s.(active := s.active - Value(SLOTS, m, c), kids := s.kids - Value(KIDS, m, c))
  {
  }

  lemma StepKeeps(s: State, e: Event)
    requires Inv(s) && Enabled(s, e)
    ensures OfClient(e) ==> Counted(s, Get(s.clients, e.id))
    ensures Inv(Step(s, e))
  {
    hide InvBut, ClientEnabled, Value, Slots, Changed, Recount, Counted;
    if e.Accept? {
      AcceptKeeps(s, e.at);
    } else if e.Connected? || e.Lost? {
      OtherScheduler(s, e.Connected?, 0);
    } else if e.Cleared? {
      EmptyInv(Step(s, e));
    } else {
      CountersCover(s, e.id);
      if e.CompileDone? || e.End? {
        GoneCounts(s, e.id);
        CoveredKids(s, e.id);
        EraseKeeps(s, e.id, s.kids - Value(KIDS, Slots(s), Get(s.clients, e.id)), 0);
      } else {
        ChangeKeeps(s, e);
      }
    }
  }

  lemma CoveredKids(s: State, id: nat)
    requires id in Ids(s.clients) && Counted(s, Get(s.clients, id))
    ensures Value(KIDS, Slots(s), Get(s.clients, id)) <= s.kids
  {
  }

  ghost predicate EnabledAll(s: State, es: seq<Event>)
    requires Inv(s)
    decreases |es|
  {
    es != [] ==> Enabled(s, es[0]) && (StepKeeps(s, es[0]); EnabledAll(Step(s, es[0]), es[1..]))
  }

  ghost function Run(s: State, es: seq<Event>): (r: State)
    requires Inv(s) && EnabledAll(s, es)
    ensures Inv(r)
    decreases |es|
  {
    if es == [] then s else (StepKeeps(s, es[0]); Run(Step(s, es[0]), es[1..]))
  }

  lemma InitialInv(maxKids: nat)
    ensures Inv(Initial(maxKids))
  {
  }

  /** In every reachable state the counters are exactly what the clients hold, at most one full job runs, and the
      slots bound compile children and running jobs. */
  lemma Reachable(maxKids: nat, es: seq<Event>)
    requires (InitialInv(maxKids); EnabledAll(Initial(maxKids), es))
    ensures (InitialInv(maxKids);
      var s, m := Run(Initial(maxKids), es), Max(1, maxKids);
      && s.active == Sum(SLOTS, m, s.clients) && s.kids == Sum(KIDS, m, s.clients)
      && Sum(FULL, m, s.clients) <= 1
      && Sum(COMPILING, m, s.clients) + s.active <= if Sum(FULL, m, s.clients) == 0 then m else 2 * m - 1)
  {
    InitialInv(maxKids);
    RunSlots(Initial(maxKids), es);
  }

  lemma {:induction false} RunSlots(s: State, es: seq<Event>)
    requires Inv(s) && EnabledAll(s, es)
    ensures Run(s, es).maxKids == s.maxKids
    decreases |es|
  {
    hide Inv, Enabled;
    if es != [] {
      StepKeeps(s, es[0]);
      StepSlots(s, es[0]);
      RunSlots(Step(s, es[0]), es[1..]);
    }
  }

  lemma StepSlots(s: State, e: Event)
    requires Enabled(s, e) && (OfClient(e) ==> Counted(s, Get(s.clients, e.id)))
    ensures Step(s, e).maxKids == s.maxKids
  {
  }

  // ---------------------------------------------------------------- a finished transfer

  /** The steps of one transfer, from the first chunk on. */
  predicate Transfers(c: Client, es: seq<InstallEvent>)
    decreases es
  {
    es != [] ==> InstallEnabled(c, es[0]) && (es[1..] == [] || InstallOutcome(c, es[0]) == Going) && Transfers(Installed(c, es[0]), es[1..])
  }

  function LastOutcome(c: Client, es: seq<InstallEvent>): Outcome
    decreases es
  {
    if es == [] then Going
    else if es[1..] == [] then InstallOutcome(c, es[0])
    else LastOutcome(Installed(c, es[0]), es[1..])
  }

  function AfterAll(c: Client, es: seq<InstallEvent>): Client
    decreases es
  {
    if es == [] then c else AfterAll(Installed(c, es[0]), es[1..])
  }

  predicate Fails(e: InstallEvent) {
    e == Chunk(false) || e == BadMessage || e == ChildDone(false) || e == Cancelled
  }

  /** Rendezvous: in whatever order the end of the transfer and the end of the child come, the environment is
      finalized exactly if both came, the child succeeded, and nothing failed; and the client then holds no child
      and no pipe. While the transfer goes on, the child is alive exactly until its end was seen, and the pipe to
      it open exactly until the transfer's end. */
  lemma {:induction false} Rendezvous(c: Client, es: seq<InstallEvent>)
    requires Installing(c) && (c.pipeTo || c.child) && Transfers(c, es)
    requires c.child == c.pipeFrom && (c.status == TOINSTALL <==> c.pipeTo)
    ensures LastOutcome(c, es) == Finalized <==>
      (c.pipeTo ==> EndOfTransfer in es) && (c.child ==> ChildDone(true) in es) && forall e :: e in es ==> !Fails(e)
    ensures LastOutcome(c, es) == Failed <==> exists e :: e in es && Fails(e)
    ensures LastOutcome(c, es) != Going ==> AfterAll(c, es) == Finished(c)
    ensures LastOutcome(c, es) == Going ==> Installing(AfterAll(c, es))
    ensures LastOutcome(c, es) == Going ==> (AfterAll(c, es).child <==> c.child && ChildDone(true) !in es)
    ensures LastOutcome(c, es) == Going ==> (AfterAll(c, es).pipeTo <==> c.pipeTo && EndOfTransfer !in es)
    decreases es
  {
    if es != [] {
      var e, rest := es[0], es[1..];
      assert es == [e] + rest;
      assert forall x :: x in es <==> x == e || x in rest;
      if rest == [] {
        assert e in es;
      } else {
        assert InstallOutcome(c, e) == Going;
        Rendezvous(Installed(c, e), rest);
      }
    }
  }

  /** An install child is counted once from its start to its end. */
  lemma InstallCountsOnce(s: State, id: nat, e: InstallEvent)
    requires Inv(s) && Enabled(s, Install(id, e))
    ensures (StepKeeps(s, Install(id, e));
      var c, s' := Get(s.clients, id), Step(s, Install(id, e));
      s'.kids == s.kids - Bit(c.child && (e.ChildDone? || InstallOutcome(c, e) != Going)))
  {
    StepKeeps(s, Install(id, e));
    hide InvBut;
  }

  // ---------------------------------------------------------------- the end of a client

  /** handle_end gives back slots and kills an install child; the child of a compile job is the caller's concern. */
  function EndState(s: State, id: nat): State
    requires id in Ids(s.clients)
    requires Value(SLOTS, Slots(s), Get(s.clients, id)) <= s.active
    requires Installing(Get(s.clients, id)) && Get(s.clients, id).child ==> s.kids > 0
  {
    var c := Get(s.clients, id);
    s.(active := s.active - Value(SLOTS, Slots(s), c),
       kids := s.kids - Bit(Installing(c) && c.child),
       clients := Erase(s.clients, id))
  }

  lemma EndCovered(s: State, id: nat, orphans: int)
    requires InvBut(s, orphans) && id in Ids(s.clients)
    requires orphans >= 0 || Get(s.clients, id).status == WAITFORCHILD
    ensures Value(SLOTS, Slots(s), Get(s.clients, id)) <= s.active && ClientOk(Get(s.clients, id), s.newId)
    ensures Installing(Get(s.clients, id)) && Get(s.clients, id).child ==> s.kids > 0
  {
    hide AllOk, Distinct, BoundOk, ClientOk;
    var c := Get(s.clients, id);
    PutFacts(SLOTS, Slots(s), s.clients, c, s.newId);
    PutFacts(KIDS, Slots(s), s.clients, c, s.newId);
    MemberOk(s.clients, id, s.newId);
  }

  lemma EndKeeps(s: State, id: nat, orphans: int)
    requires InvBut(s, orphans) && id in Ids(s.clients)
    requires orphans >= 0 || Get(s.clients, id).status == WAITFORCHILD
    ensures (EndCovered(s, id, orphans);
      InvBut(EndState(s, id), orphans + Value(COMPILING, Slots(s), Get(s.clients, id))))
  {
    EndCovered(s, id, orphans);
    hide InvBut, ClientOk, Slots;
    var c := Get(s.clients, id);
    EraseKeeps(s, id, s.kids - Bit(Installing(c) && c.child), orphans);
  }

  /** For a client without a compile child, handle_end is the End event. */
  lemma EndIsStep(s: State, id: nat)
    requires Inv(s) && id in Ids(s.clients) && Get(s.clients, id).status != WAITFORCHILD
    ensures (EndCovered(s, id, 0); CountersCover(s, id); EndState(s, id) == Step(s, End(id)))
  {
    EndCovered(s, id, 0);
    CountersCover(s, id);
    hide InvBut, ClientOk;
  }

  /** What the scheduler is told when a client goes: the job by its id, by the client's id if the id is not known
      yet, as the compiling side, or a local job. */
  datatype Notice = JobOver(jobId: nat) | RequestOver(clientId: nat) | CompileOver | LocalOver(clientId: nat)

  function EndNotice(c: Client, exitcode: int): Option<Notice> {
    match c.status
    case TOCOMPILE => Some(CompileOver)
    case WAITFORCS => Some(RequestOver(c.id))
    case WAITCOMPILE => if exitcode != 119 && c.jobId > 0 then Some(JobOver(c.jobId)) else None
    case PENDING_USE_CS => if c.jobId > 0 then Some(JobOver(c.jobId)) else None
    case CLIENTWORK => if c.jobId > 0 then Some(JobOver(c.jobId)) else Some(LocalOver(c.id))
    case _ => None
  }

  lemma NoNotice(c: Client, exitcode: int)
    ensures c.status == WAITFORCHILD || Installing(c) ==> EndNotice(c, exitcode) == None
    ensures EndNotice(Finished(c), exitcode) == None && Finished(c).status != WAITFORCHILD
  {
  }

  // ---------------------------------------------------------------- who is next

  /** No other client in that status beats it on both id and niceness. */
  ghost predicate Unbeaten(cs: Clients, st: Status, c: Client) {
    c in cs && c.status == st && forall d :: d in cs && d.status == st ==> c.id <= d.id || c.niceness <= d.niceness
  }

  lemma {:induction false} MembersOk(cs: Clients, newId: nat)
    requires AllOk(cs, newId)
    ensures forall c :: c in cs ==> ClientOk(c, newId) && c.id in Ids(cs)
  {
    if cs != [] { MembersOk(cs[1..], newId); }
  }

  lemma {:induction false} GetMember(cs: Clients, c: Client)
    requires Distinct(cs) && c in cs
    ensures c.id in Ids(cs) && Get(cs, c.id) == c
  {
    if cs[0] != c { GetMember(cs[1..], c); }
  }

  lemma InstallShape(s: State, id: nat)
    requires id in Ids(s.clients) && ClientOk(Get(s.clients, id), s.newId)
    ensures Installing(Get(s.clients, id)) ==> Get(s.clients, id).outfile != ""
    ensures Get(s.clients, id).child && !Installing(Get(s.clients, id)) ==> Get(s.clients, id).status == WAITFORCHILD
    ensures Installing(Get(s.clients, id)) ==> ClientOk(Finished(Get(s.clients, id)), s.newId)
  {
  }

  lemma {:induction false} PutGet(cs: Clients, c: Client)
    requires c.id in Ids(cs)
    ensures c.id in Ids(Put(cs, c)) && Get(Put(cs, c), c.id) == c
    ensures Erase(Put(cs, c), c.id) == Erase(cs, c.id)
  {
    if cs[0].id != c.id {
      PutGet(cs[1..], c);
      var r := Put(cs[1..], c);
      assert ([cs[0]] + r)[1..] == r;
    } else {
      assert ([c] + cs[1..])[1..] == cs[1..];
    }
  }

  lemma OtherScheduler(s: State, scheduler: bool, orphans: int)
    requires InvBut(s, orphans)
    ensures InvBut(s.(scheduler := scheduler), orphans)
  {
  }

  lemma EndShape(s: State, id: nat, orphans: int)
    requires InvBut(s, orphans) && id in Ids(s.clients)
    requires orphans >= 0 || Get(s.clients, id).status == WAITFORCHILD
    ensures (EndCovered(s, id, orphans);
      && EndState(s, id).clients == Erase(s.clients, id) && EndState(s, id).maxKids == s.maxKids
      && EndState(s, id).scheduler == s.scheduler && EndState(s, id).finalized == s.finalized)
  {
    EndCovered(s, id, orphans);
    hide InvBut, Slots;
  }

  lemma NobodyLeft(s: State, orphans: nat)
    requires InvBut(s, orphans) && s.clients == []
    ensures s.active == 0 && s.kids == orphans && forall m :: Sum(COMPILING, m, s.clients) == 0
  {
  }

  lemma EmptyInv(s: State)
    requires s.clients == [] && s.active == 0 && s.kids == 0
    ensures Inv(s)
  {
  }

  lemma ChangedId(s: State, e: Event)
    requires Inv(s) && Enabled(s, e) && OfClient(e)
    ensures Changed(s, Get(s.clients, e.id), e).id == e.id && e.id in Ids(s.clients)
  {
    hide AllOk, Distinct, BoundOk, ClientOk;
    MemberOk(s.clients, e.id, s.newId);
    ChangedOk(s, Get(s.clients, e.id), e);
  }

  /** `t` is what the event makes of `s`, and the invariant still holds. */
  ghost predicate Stepped(s: State, e: Event, t: State) {
    Inv(s) && Enabled(s, e) && (StepKeeps(s, e); t == Step(s, e)) && Inv(t)
  }

  /** `t` is `u`, or `u` after the scheduler was lost. */
  predicate OrLost(u: State, t: State) {
    t == u || (Enabled(u, Lost) && t == Step(u, Lost))
  }

  /** The event happened, and a message to the scheduler may have failed in its course. */
  ghost predicate Happened(s: State, e: Event, t: State) {
    Inv(s) && Enabled(s, e) && (StepKeeps(s, e); OrLost(Step(s, e), t)) && Inv(t)
  }

  lemma EndHappened(s: State, id: nat, t: State)
    requires Inv(s) && id in Ids(s.clients) && Get(s.clients, id).status != WAITFORCHILD && Inv(t)
    requires (EndCovered(s, id, 0); t == EndState(s, id).(scheduler := t.scheduler)) && (t.scheduler ==> s.scheduler)
    ensures Ended(s, id, t) && |t.clients| < |s.clients|
  {
    hide InvBut, EndState, Step, Value, ClientOk, Installing;
    NotCompiling(s, id);
    EndIsStep(s, id);
    EndShape(s, id, 0);
    StepKeeps(s, End(id));
    LostIs(Step(s, End(id)), t);
  }

  lemma ClearedIs(s: State, t: State)
    requires Inv(s) && Inv(t) && t == s.(clients := [], kids := 0, active := 0, newId := 0, scheduler := t.scheduler)
    requires t.scheduler ==> s.scheduler
    ensures Happened(s, Cleared, t)
  {
    hide InvBut;
    StepKeeps(s, Cleared);
  }

  /** A loss during an event that does not concern the scheduler is one behind it. */
  lemma LostLater(s: State, e: Event, t: State)
    requires Stepped(s, e, t.(scheduler := s.scheduler)) && (t.scheduler ==> s.scheduler)
    ensures Happened(s, e, t)
  {
    hide InvBut, Enabled;
    StepKeeps(s, e);
    OtherScheduler(t.(scheduler := s.scheduler), t.scheduler, 0);
    LostIs(Step(s, e), t);
  }

  lemma LostIs(u: State, t: State)
    requires t.(scheduler := u.scheduler) == u && (t.scheduler ==> u.scheduler)
    ensures OrLost(u, t)
  {
  }

  lemma HappenedIs(s: State, e: Event, t: State)
    requires Happened(s, e, t) && (OfClient(e) || e.Accept?)
    ensures Stepped(s, e, t.(scheduler := s.scheduler)) && (t.scheduler ==> s.scheduler) && Inv(t)
  {
    StepKeeps(s, e);
    StepScheduler(s, e);
    hide InvBut, Enabled, Step;
    OtherScheduler(t, s.scheduler, 0);
    OrLostIs(Step(s, e), t);
  }

  lemma OrLostIs(u: State, t: State)
    requires OrLost(u, t)
    ensures t.(scheduler := u.scheduler) == u && (t.scheduler ==> u.scheduler)
  {
  }

  lemma StepScheduler(s: State, e: Event)
    requires Enabled(s, e) && (OfClient(e) ==> Counted(s, Get(s.clients, e.id))) && (OfClient(e) || e.Accept?)
    ensures Step(s, e).scheduler == s.scheduler
  {
  }

  /** A client is gone; the scheduler may have been lost in the course. */
  ghost predicate Ended(s: State, id: nat, t: State) {
    Happened(s, End(id), t)
  }

  lemma SteppedInv(s: State, e: Event, t: State)
    requires Stepped(s, e, t)
    ensures Inv(t)
  {
  }

  lemma NotCompiling(s: State, id: nat)
    requires id in Ids(s.clients) && Get(s.clients, id).status != WAITFORCHILD
    ensures Value(COMPILING, Slots(s), Get(s.clients, id)) == 0 && Enabled(s, End(id))
  {
  }

  lemma {:induction false} PutTwice(cs: Clients, c: Client, d: Client)
    requires c.id == d.id && c.id in Ids(cs)
    ensures c.id in Ids(Put(cs, c)) && Put(Put(cs, c), d) == Put(cs, d)
  {
    PutGet(cs, c);
    if cs[0].id != c.id {
      PutTwice(cs[1..], c, d);
      var r := Put(cs[1..], c);
      assert ([cs[0]] + r)[1..] == r;
    } else {
      assert ([c] + cs[1..])[1..] == cs[1..];
    }
  }

  lemma InstallStarted(s: State, id: nat, outfile: string, t: State)
    requires Stepped(s, StartInstall(id, outfile), t)
    ensures id in Ids(t.clients) && Get(t.clients, id).outfile == outfile
    ensures forall written :: InstallEnabled(Get(t.clients, id), Chunk(written))
  {
    hide InvBut, Value, Ids, Get, Put, Recount, Slots, Distinct;
    StepKeeps(s, StartInstall(id, outfile));
    ChangedId(s, StartInstall(id, outfile));
    PutGet(s.clients, Changed(s, Get(s.clients, id), StartInstall(id, outfile)));
  }

  /** A step of a transfer, spelled out. */
  function InstallResult(s: State, id: nat, e: InstallEvent): State
    requires id in Ids(s.clients) && (Get(s.clients, id).child ==> s.kids > 0)
  {
    var c := Get(s.clients, id);
    s.(clients := Put(s.clients, Installed(c, e)), kids := s.kids - Bit(c.child && !Installed(c, e).child),
       finalized := Recorded(s.finalized, c, Install(id, e)))
  }

  lemma InstallStep(s: State, id: nat, e: InstallEvent)
    requires Inv(s) && Enabled(s, Install(id, e))
    ensures (EndCovered(s, id, 0); Stepped(s, Install(id, e), InstallResult(s, id, e)))
  {
    EndCovered(s, id, 0);
    StepKeeps(s, Install(id, e));
    InstallFacts(s, id);
    InstallCounts(s, Get(s.clients, id), e);
    hide InvBut, Ids, Get, Put, Recorded, ClientOk, Value, Recount, Installed, Slots, ClientEnabled, Counted;
  }

  lemma InstallCounts(s: State, c: Client, e: InstallEvent)
    requires InstallEnabled(c, e) && (c.child ==> s.kids > 0) && (!c.pipeTo ==> c.child) && (c.status == TOINSTALL <==> c.pipeTo)
    ensures Value(SLOTS, Slots(s), Installed(c, e)) == Value(SLOTS, Slots(s), c) == 0
    ensures Value(KIDS, Slots(s), c) == Bit(c.child) <= s.kids && Value(KIDS, Slots(s), Installed(c, e)) <= Bit(c.child)
    ensures Recount(s, c, Installed(c, e)) == s.(kids := s.kids - Bit(c.child && !Installed(c, e).child))
  {
  }

  function JobDoneResult(s: State, id: nat): State
    requires id in Ids(s.clients) && Value(SLOTS, Slots(s), Get(s.clients, id)) <= s.active
  {
    var c := Get(s.clients, id);
    s.(clients := Put(s.clients, c.(status := JOBDONE, fulljob := false, jobId := 0)),
       active := s.active - Value(SLOTS, Slots(s), c))
  }

  lemma JobDoneStep(s: State, id: nat)
    requires Inv(s) && Enabled(s, JobDone(id))
    ensures (EndCovered(s, id, 0); Stepped(s, JobDone(id), JobDoneResult(s, id)))
  {
    EndCovered(s, id, 0);
    StepKeeps(s, JobDone(id));
    hide InvBut;
  }

  /** What a transferring client holds, and that its child is counted. */
  lemma InstallFacts(s: State, id: nat)
    requires Inv(s) && id in Ids(s.clients) && Installing(Get(s.clients, id))
    ensures var c := Get(s.clients, id);
      && c.outfile != "" && c.pipeFrom == c.child && (c.status == TOINSTALL <==> c.pipeTo) && (!c.pipeTo ==> c.child)
      && (c.child ==> s.kids > 0)
      && Value(SLOTS, Slots(s), c) == 0 && Value(SLOTS, Slots(s), Finished(c)) == 0 && Value(KIDS, Slots(s), Finished(c)) == 0
      && Value(KIDS, Slots(s), c) == Bit(c.child)
  {
    EndCovered(s, id, 0);
    hide InvBut;
  }

  // ---------------------------------------------------------------- starting a job, spelled out

  function StartLocalResult(s: State, id: nat): State
    requires id in Ids(s.clients)
  {
    var c := Get(s.clients, id);
    s.(clients := Put(s.clients, c.(status := CLIENTWORK)), active := s.active + if c.fulljob then Slots(s) else 1)
  }

  function StartPendingResult(s: State, id: nat): State
    requires id in Ids(s.clients)
  {
    s.(clients := Put(s.clients, Get(s.clients, id).(status := CLIENTWORK)), active := s.active + 1)
  }

  function StartCompileResult(s: State, id: nat): State
    requires id in Ids(s.clients)
  {
    s.(clients := Put(s.clients, Get(s.clients, id).(status := WAITFORCHILD, child := true, pipeFrom := true)), kids := s.kids + 1)
  }

  /** What starting a job counts. */
  lemma StartCounts(s: State, c: Client)
    requires ClientOk(c, s.newId) && Waits(c)
    ensures Value(SLOTS, Slots(s), c) == 0 && Value(KIDS, Slots(s), c) == 0
    ensures Recount(s, c, c.(status := CLIENTWORK)) == s.(active := s.active + if c.fulljob then Slots(s) else 1)
    ensures c.status != LINKJOB ==> !c.fulljob
    ensures Recount(s, c, c.(status := WAITFORCHILD, child := true, pipeFrom := true)) == s.(kids := s.kids + 1)
  {
  }

  lemma StartLocalStep(s: State, id: nat)
    requires Inv(s) && Enabled(s, StartLocal(id))
    ensures Stepped(s, StartLocal(id), StartLocalResult(s, id))
  {
    EndCovered(s, id, 0);
    StartCounts(s, Get(s.clients, id));
    hide InvBut, Ids, Get, Put, ClientOk, Value, Recount, Slots, Waits;
    StepKeeps(s, StartLocal(id));
  }

  lemma StartPendingStep(s: State, id: nat)
    requires Inv(s) && Enabled(s, StartPending(id))
    ensures Stepped(s, StartPending(id), StartPendingResult(s, id))
  {
    EndCovered(s, id, 0);
    StartCounts(s, Get(s.clients, id));
    hide InvBut, Ids, Get, Put, ClientOk, Value, Recount, Slots, Waits;
    StepKeeps(s, StartPending(id));
  }

  lemma StartCompileStep(s: State, id: nat)
    requires Inv(s) && Enabled(s, StartCompile(id))
    ensures Stepped(s, StartCompile(id), StartCompileResult(s, id))
  {
    EndCovered(s, id, 0);
    StartCounts(s, Get(s.clients, id));
    hide InvBut, Ids, Get, Put, ClientOk, Value, Recount, Slots, Waits;
    StepKeeps(s, StartCompile(id));
  }

  lemma InvAllOk(s: State)
    requires Inv(s)
    ensures AllOk(s.clients, s.newId)
  {
  }

  /** A member is found under its id. */
  lemma Waiting(s: State, c: Client)
    requires Inv(s) && c in s.clients
    ensures c.id in Ids(s.clients) && Get(s.clients, c.id) == c && ClientOk(c, s.newId)
  {
    hide AllOk, BoundOk, ClientOk;
    GetMember(s.clients, c);
    MemberOk(s.clients, c.id, s.newId);
  }

  predicate Waits(c: Client) {
    c.status == LINKJOB || c.status == PENDING_USE_CS || c.status == TOCOMPILE
  }

  lemma EndedWaiting(s: State, c: Client, t: State)
    requires c.id in Ids(s.clients) && Get(s.clients, c.id) == c && Waits(c) && Ended(s, c.id, t)
    ensures Inv(t) && Sum(WAITING, Slots(s), t.clients) < Sum(WAITING, Slots(s), s.clients)
  {
    EndedClients(s, c.id, t);
    hide InvBut, Happened, Slots, Sum, Get, Erase, Ids;
    EraseFacts(WAITING, Slots(s), s.clients, c.id, s.newId);
  }

  lemma ServedClients(s: State, e: Event, t: State)
    requires Happened(s, e, t) && (e.StartLocal? || e.StartPending? || e.StartCompile?)
    ensures e.id in Ids(s.clients) && t.clients == Put(s.clients, Changed(s, Get(s.clients, e.id), e))
  {
    hide InvBut, Ids, Get, Put, Changed, Recount, ClientEnabled;
    StepKeeps(s, e);
  }

  lemma SteppedWaiting(s: State, c: Client, e: Event, t: State)
    requires c.id in Ids(s.clients) && Get(s.clients, c.id) == c && Waits(c) && ClientOk(c, s.newId)
    requires (e.StartLocal? || e.StartPending? || e.StartCompile?) && e.id == c.id
    requires Happened(s, e, t)
    ensures Sum(WAITING, Slots(s), t.clients) < Sum(WAITING, Slots(s), s.clients)
  {
    hide InvBut, Happened, Ids, Get, Put, Sum, ClientOk, Value, Changed, Waits, Slots;
    ServedClients(s, e, t);
    WaitsNoMore(s, c, e);
    PutFacts(WAITING, Slots(s), s.clients, Changed(s, c, e), s.newId);
  }

  lemma WaitsNoMore(s: State, c: Client, e: Event)
    requires Waits(c) && (e.StartLocal? || e.StartPending? || e.StartCompile?)
    ensures Changed(s, c, e).id == c.id && forall m :: Value(WAITING, m, c) == 1 && Value(WAITING, m, Changed(s, c, e)) == 0
  {
  }

  lemma CompileDoneFacts(s: State, id: nat)
    requires Inv(s) && Enabled(s, CompileDone(id))
    ensures s.kids > 0 && id in Ids(s.clients) && ClientOk(Get(s.clients, id), s.newId)
    ensures Get(s.clients, id).env.Some? && Get(s.clients, id).env.value != ""
    ensures Get(s.clients, id).status == WAITFORCHILD
  {
    hide AllOk, BoundOk, Distinct;
    MemberOk(s.clients, id, s.newId);
    CountersCover(s, id);
  }

  /** Counting the child off and then ending its client is the CompileDone event. */
  lemma CompileDoneStep(s: State, id: nat, scheduler: bool)
    requires Inv(s) && Enabled(s, CompileDone(id)) && s.kids > 0
    ensures var t := s.(kids := s.kids - 1, scheduler := scheduler);
      && id in Ids(t.clients) && Get(t.clients, id).status == WAITFORCHILD && InvBut(t, -1)
      && (EndCovered(t, id, -1); Stepped(s, CompileDone(id), EndState(t, id).(scheduler := s.scheduler)))
  {
    var t := s.(kids := s.kids - 1, scheduler := scheduler);
    OneChildLess(s, scheduler);
    EndCovered(t, id, -1);
    StepKeeps(s, CompileDone(id));
    CompileDoneCounts(s, id);
    hide InvBut, Ids, Get, Erase, Value, Finished, ClientEnabled;
  }

  lemma CompileDoneCounts(s: State, id: nat)
    requires id in Ids(s.clients) && Get(s.clients, id).status == WAITFORCHILD && Counted(s, Get(s.clients, id))
    ensures var c, m := Get(s.clients, id), Slots(s);
      && Recount(s, c, Gone(c)) == s.(active := s.active - Value(SLOTS, m, c), kids := s.kids - 1)
      && !Installing(c)
  {
  }

  lemma OneChildLess(s: State, scheduler: bool)
    requires Inv(s) && s.kids > 0
    ensures InvBut(s.(kids := s.kids - 1, scheduler := scheduler), -1)
  {
    hide AllOk, Distinct, BoundOk;
  }

  lemma NotInstalling(s: State, id: nat)
    requires id in Ids(s.clients) && Get(s.clients, id).status == WAITFORCHILD
    ensures !Installing(Get(s.clients, id))
  {
  }

  // ---------------------------------------------------------------- waiting for an environment

  /** The clients that wait for an environment are given it, or go if they cannot be reached. */
  function Told(cs: Clients, key: string, reachable: set<nat>): Clients {
    if cs == [] then []
    else if cs[0].pendingEnv != key then [cs[0]] + Told(cs[1..], key, reachable)
    else if cs[0].id in reachable then [cs[0].(status := GOTNATIVE, pendingEnv := "")] + Told(cs[1..], key, reachable)
    else Told(cs[1..], key, reachable)
  }

  lemma {:induction false} ToldNone(cs: Clients, key: string, reachable: set<nat>)
    requires key != ""
    ensures forall c :: c in Told(cs, key, reachable) ==> c.pendingEnv != key
    ensures (forall c :: c in cs ==> c.pendingEnv != key) ==> Told(cs, key, reachable) == cs
  {
    if cs != [] {
      ToldNone(cs[1..], key, reachable);
      assert cs == [cs[0]] + cs[1..];
    }
  }

  lemma {:induction false} ToldWithout(cs: Clients, key: string, c: Client)
    requires Distinct(cs) && c in cs && c.pendingEnv == key && c.id in Ids(cs)
    ensures Told(Erase(cs, c.id), key, {}) == Told(cs, key, {})
  {
    if cs[0].id != c.id {
      ToldWithout(cs[1..], key, c);
      var r := Erase(cs[1..], c.id);
      assert ([cs[0]] + r)[1..] == r;
    } else {
      GetMember(cs, c);
    }
  }

  /** Where a client stands in the list. */
  lemma {:induction false} PutPlace(cs: Clients, k: nat, c: Client)
    requires Distinct(cs) && k < |cs| && c.id == cs[k].id
    ensures c.id in Ids(cs) && Put(cs, c) == cs[..k] + [c] + cs[k + 1..]
  {
    if k > 0 {
      var t := cs[1..];
      PutPlace(t, k - 1, c);
      assert cs[1..k] == t[..k - 1] && cs[..k] == [cs[0]] + t[..k - 1] && t[k..] == cs[k + 1..];
      assert Put(cs, c) == [cs[0]] + Put(t, c);
    }
  }

  lemma {:induction false} ErasePlace(cs: Clients, k: nat)
    requires Distinct(cs) && k < |cs|
    ensures cs[k].id in Ids(cs) && Erase(cs, cs[k].id) == cs[..k] + cs[k + 1..]
  {
    if k > 0 {
      var t := cs[1..];
      ErasePlace(t, k - 1);
      assert cs[..k] == [cs[0]] + t[..k - 1] && t[k..] == cs[k + 1..];
      assert Erase(cs, cs[k].id) == [cs[0]] + Erase(t, cs[k].id);
    }
  }

  /** The walk tells one client and goes on behind it. */
  lemma TellOne(cs: Clients, i: nat, key: string, reachable: set<nat>)
    requires Distinct(cs) && i < |cs|
    ensures cs[i].id in Ids(cs)
    ensures cs[i].pendingEnv != key ==> cs[..i + 1] + Told(cs[i + 1..], key, reachable) == cs[..i] + Told(cs[i..], key, reachable)
    ensures var c := cs[i];
      c.pendingEnv == key && c.id in reachable ==>
        var r := Put(cs, c.(status := GOTNATIVE, pendingEnv := ""));
        |r| == |cs| && r[..i + 1] + Told(r[i + 1..], key, reachable) == cs[..i] + Told(cs[i..], key, reachable)
    ensures var c := cs[i];
      c.pendingEnv == key && c.id !in reachable ==>
        var r := Erase(cs, c.id);
        |r| == |cs| - 1 && r[..i] + Told(r[i..], key, reachable) == cs[..i] + Told(cs[i..], key, reachable)
  {
    var c, rest := cs[i], cs[i + 1..];
    var d := c.(status := GOTNATIVE, pendingEnv := "");
    PutPlace(cs, i, d);
    ErasePlace(cs, i);
    hide Put, Erase, Distinct, Ids;
    assert cs[i..][0] == c && cs[i..][1..] == rest;
    if c.pendingEnv != key {
      TellSplit(cs[..i], c, Told(rest, key, reachable));
      assert cs[..i] + [c] == cs[..i + 1];
    } else if c.id in reachable {
      TellSplit(cs[..i], d, Told(rest, key, reachable));
      var r := cs[..i] + [d] + rest;
      assert r[..i + 1] == cs[..i] + [d] && r[i + 1..] == rest;
    } else {
      var r := cs[..i] + rest;
      assert r[..i] == cs[..i] && r[i..] == rest;
    }
  }

  lemma TellSplit(a: Clients, c: Client, b: Clients)
    ensures a + ([c] + b) == a + [c] + b
  {
  }

  lemma NativeReadyClients(s: State, id: nat, t: State)
    requires Stepped(s, NativeReady(id), t)
    ensures id in Ids(s.clients) && t.clients == Put(s.clients, Get(s.clients, id).(status := GOTNATIVE, pendingEnv := ""))
  {
    StepKeeps(s, NativeReady(id));
    hide InvBut;
  }

  lemma EndedClients(s: State, id: nat, t: State)
    requires Ended(s, id, t)
    ensures id in Ids(s.clients) && t.clients == Erase(s.clients, id)
  {
    StepKeeps(s, End(id));
    hide InvBut;
  }

  lemma AskedNative(s: State, id: nat, key: string, t: State)
    requires Stepped(s, AskNative(id, key), t)
    ensures id in Ids(t.clients) && Get(t.clients, id).pendingEnv == key
  {
    StepKeeps(s, AskNative(id, key));
    ChangedId(s, AskNative(id, key));
    hide InvBut, Value;
    PutGet(s.clients, Changed(s, Get(s.clients, id), AskNative(id, key)));
  }

  lemma PendingWaits(s: State, id: nat)
    requires Inv(s) && id in Ids(s.clients) && Get(s.clients, id).pendingEnv != ""
    ensures Get(s.clients, id).status == WAITCREATEENV
  {
    hide AllOk, BoundOk, Distinct;
    MemberOk(s.clients, id, s.newId);
  }

  lemma SteppedLength(s: State, e: Event, t: State)
    requires Stepped(s, e, t) && OfClient(e) && !e.CompileDone? && !e.End?
    ensures |t.clients| == |s.clients|
  {
    StepKeeps(s, e);
    ChangedId(s, e);
    hide InvBut, Value, Changed;
  }
}
