/** Whole runs of the scheduler: the invariant holds in every reachable state, and no group of requests starves. */
module SchedulerRuns {
  import opened Common
  import opened CompileServers
  import opened SchedulerSpec
  import opened SchedulerInv
  import Q = JobQueue

  /** Messages from daemons, the scheduler's own timers, and rounds of empty_queue with the choice of
      pick_server and the outcome of the send. */
  datatype Event =
    | Login(node: CompileServer, blocked: bool)
    | GetCS(cs: nat, request: Request)
    | Serve(pick: Option<nat>, sent: bool, now: nat)
    | Begin(cs: nat, id: nat)
    | End(cs: nat, done: Done)
    | Gone(cs: nat)
    | Ping(cs: nat)
    | Pong(cs: nat)
    | Relogin(cs: nat, versions: seq<Env>)
    | LocalBegin(cs: nat, clientId: int, fulljob: bool)
    | LocalDone(cs: nat, clientId: int)
    | Stats(cs: nat, load: nat)
    | Connectivity(cs: nat, accepting: bool)
    | BlacklistEnv(cs: nat, hostname: string, env: Env)

  function Pinged(c: CompileServer): CompileServer {
    if c.maxJobs >= 0 then c.(maxJobs := -c.maxJobs) else c
  }

  function Ponged(c: CompileServer): CompileServer {
    if c.maxJobs < 0 then c.(maxJobs := -c.maxJobs) else c
  }

  function Blacklist(m: map<nat, seq<Env>>, hosts: seq<nat>, env: Env): map<nat, seq<Env>>
    decreases hosts
  {
    if hosts == [] then m
    else
      var h := hosts[0];
      Blacklist(m[h := (if h in m then m[h] else []) + [env]], hosts[1..], env)
  }

  /** The nodes of that name, in the order of the list. */
  function Called(servers: map<nat, CompileServer>, css: seq<nat>, hostname: string): seq<nat>
    decreases css
  {
    if css == [] then []
    else (if css[0] in servers && servers[css[0]].name == hostname then [css[0]] else []) + Called(servers, css[1..], hostname)
  }

  lemma BlacklistStep(servers: map<nat, CompileServer>, css: seq<nat>, hostname: string, m: map<nat, seq<Env>>, env: Env)
    requires css != []
    ensures Blacklist(m, Called(servers, css, hostname), env)
         == if css[0] in servers && servers[css[0]].name == hostname
            then Blacklist(m[css[0] := (if css[0] in m then m[css[0]] else []) + [env]], Called(servers, css[1..], hostname), env)
            else Blacklist(m, Called(servers, css[1..], hostname), env)
  {
    var rest := Called(servers, css[1..], hostname);
    assert ([css[0]] + rest)[1..] == rest;
    assert [] + rest == rest;
  }

  /** The messages that change only what one node can do; `hosts` are the nodes a blacklist message names. */
  function Touched(c: CompileServer, e: Event, newId: nat, hosts: seq<nat>): CompileServer {
    match e
    case Ping(_) => Pinged(c)
    case Pong(_) => Ponged(c)
    case Relogin(_, versions) => c.(compilerVersions := versions, busyInstalling := 0)
    case LocalBegin(_, clientId, full) => c.(clientLocalMap := InsertLocal(c.clientLocalMap, LocalJob(clientId, newId, full)))
    case LocalDone(_, clientId) => c.(clientLocalMap := EraseLocal(c.clientLocalMap, clientId))
    case Stats(_, load) => c.(load := load)
    case Connectivity(_, accepting) => c.(acceptingInConnection := accepting)
    case BlacklistEnv(_, _, env) => c.(blacklist := Blacklist(c.blacklist, hosts, env))
    case _ => c
  }

  ghost predicate Enabled(s: State, e: Event) {
    match e
    case Login(_, _) => true
    case GetCS(cs, r) => cs in s.servers && FreshClient(s.jobs, cs, r.clientId)
    case Serve(pick, _, _) => HasHead(s) && MayPick(s, Head(s), pick)
    case Begin(_, _) => true
    case End(_, m) => Honest(s, m)
    case Gone(_) => true
    case _ => e.cs in s.servers
  }

  ghost function Step(s: State, e: Event): State
    requires Enabled(s, e)
  {
    match e
    case Login(node, blocked) => SchedulerSpec.Login(s, node, blocked)
    case GetCS(cs, r) => Submit(s, cs, r)
    case Serve(pick, sent, now) => EmptyQueue(s, pick, sent, now)
    case Begin(cs, id) => JobBegin(s, cs, id)
    case End(cs, m) => JobDone(s, cs, m)
    case Gone(cs) => RemoveDaemon(s, cs)
    case LocalBegin(cs, _, _) =>
      s.(newJobId := s.newJobId + 1, servers := s.servers[cs := Touched(s.servers[cs], e, s.newJobId + 1, [])])
    case BlacklistEnv(cs, hostname, _) =>
      s.(servers := s.servers[cs := Touched(s.servers[cs], e, 0, Called(s.servers, s.css, hostname))])
    case _ => s.(servers := s.servers[e.cs := Touched(s.servers[e.cs], e, 0, [])])
  }

  lemma StepKeeps(s: State, e: Event)
    requires Inv(s) && Enabled(s, e)
    ensures Inv(Step(s, e))
  {
    hide Inv;
    match e
    case Login(node, blocked) => LoginKeeps(s, node, blocked);
    case GetCS(cs, r) => SubmitKeeps(s, cs, r);
    case Serve(pick, sent, now) => EmptyQueueKeeps(s, pick, sent, now);
    case Begin(cs, id) => JobBeginKeeps(s, cs, id);
    case End(cs, m) => JobDoneKeeps(s, cs, m);
    case Gone(cs) => DaemonGoneKeeps(s, cs);
    case LocalBegin(cs, _, _) =>
      LocalIdKeeps(s);
      TouchKeeps(s.(newJobId := s.newJobId + 1), cs, Touched(s.servers[cs], e, s.newJobId + 1, []));
    case BlacklistEnv(cs, hostname, _) => TouchKeeps(s, cs, Touched(s.servers[cs], e, 0, Called(s.servers, s.css, hostname)));
    case _ => TouchKeeps(s, e.cs, Touched(s.servers[e.cs], e, 0, []));
  }

  /** `t` is what the event makes of `s`, and the invariant still holds. */
  ghost predicate Stepped(s: State, e: Event, t: State) {
    Inv(s) && Enabled(s, e) && t == Step(s, e) && Inv(t)
  }

  /** The messages that touch one node only. */
  lemma TouchSteps(s: State, e: Event)
    requires Inv(s) && (e.Ping? || e.Pong? || e.Relogin? || e.LocalDone? || e.Stats? || e.Connectivity?) && e.cs in s.servers
    ensures Stepped(s, e, s.(servers := s.servers[e.cs := Touched(s.servers[e.cs], e, 0, [])]))
  {
    hide Inv, Touched, FreshClient, HasHead, MayPick, Honest;
    StepKeeps(s, e);
  }

  lemma LocalBeginSteps(s: State, e: Event)
    requires Inv(s) && e.LocalBegin? && e.cs in s.servers
    ensures Stepped(s, e, s.(newJobId := s.newJobId + 1,
                             servers := s.servers[e.cs := Touched(s.servers[e.cs], e, s.newJobId + 1, [])]))
  {
    hide Inv, Touched, FreshClient, HasHead, MayPick, Honest;
    StepKeeps(s, e);
  }

  lemma BlacklistSteps(s: State, e: Event)
    requires Inv(s) && e.BlacklistEnv? && e.cs in s.servers
    ensures Stepped(s, e, s.(servers := s.servers[e.cs :=
      Touched(s.servers[e.cs], e, 0, Called(s.servers, s.css, e.hostname))]))
  {
    hide Inv, Touched, FreshClient, HasHead, MayPick, Honest;
    StepKeeps(s, e);
  }

  lemma SteppedInv(s: State, e: Event, t: State)
    requires Stepped(s, e, t)
    ensures Inv(t)
  {
  }

  /** Is every message of the run one its sender may send at that point? */
  ghost predicate EnabledAll(s: State, es: seq<Event>)
    decreases |es|
  {
    es != [] ==> Enabled(s, es[0]) && EnabledAll(Step(s, es[0]), es[1..])
  }

  ghost function Run(s: State, es: seq<Event>): State
    requires EnabledAll(s, es)
    decreases |es|
  {
    if es == [] then s else Run(Step(s, es[0]), es[1..])
  }

  /** In every reachable state the structures agree. */
  lemma {:induction false} RunKeeps(s: State, es: seq<Event>)
    requires Inv(s) && EnabledAll(s, es)
    ensures Inv(Run(s, es))
    decreases |es|
  {
    if es != [] {
      StepKeeps(s, es[0]);
      RunKeeps(Step(s, es[0]), es[1..]);
    }
  }

  lemma ReachableInv(es: seq<Event>)
    requires EnabledAll(INITIAL, es)
    ensures Inv(Run(INITIAL, es))
  {
    InitialInv();
    RunKeeps(INITIAL, es);
  }

  /** In every reachable state, whatever local jobs came and went and however pings flipped the sign of the limit:
      a node's list holds at most |maxJobs| + 1 + |maxJobs| / 4 jobs of other nodes, each of its entries is a job
      assigned to it and listed once, and the jobs it submitted are counted exactly. */
  lemma ReachableNode(es: seq<Event>, h: nat)
    requires EnabledAll(INITIAL, es) && h in Run(INITIAL, es).servers
    ensures var s := Run(INITIAL, es);
      var c := s.servers[h];
      && Foreign(c.jobList, s.jobs, h) <= Abs(c.maxJobs) + 1 + Abs(c.maxJobs) / 4
      && NoDup(c.jobList) && (forall id :: id in c.jobList <==> id in s.jobs && s.jobs[id].server == Some(h))
      && c.submittedJobsCount == |By(s.jobs, h)|
  {
    ReachableInv(es);
    var s := Run(INITIAL, es);
    NodeFacts(s, h);
  }

  lemma NodeFacts(s: State, h: nat)
    requires Inv(s) && h in s.servers
    ensures var c := s.servers[h];
      && Foreign(c.jobList, s.jobs, h) <= Abs(c.maxJobs) + 1 + Abs(c.maxJobs) / 4
      && NoDup(c.jobList) && (forall id :: id in c.jobList <==> id in s.jobs && s.jobs[id].server == Some(h))
      && c.submittedJobsCount == |By(s.jobs, h)|
  {
    var c := s.servers[h];
    assert ServerOk(c, s.jobs, h, {});
    forall id ensures id in c.jobList <==> id in s.jobs && s.jobs[id].server == Some(h) {
      assert id in c.jobList <==> id in Q.Elements(c.jobList);
      assert id in Q.Elements(c.jobList) <==> id in On(s.jobs, h) - {};
    }
  }

  // ---------------------------------------------------------------- dispatch order

  lemma InvQueue(s: State)
    requires Inv(s)
    ensures Q.WellFormed(s.queue, s.newJobId + 1) && Q.Jobs(s.queue) == Pending(s.jobs) && OwnGroups(s.queue, s.jobs)
  {
  }

  /** A dispatch serves a job of the smallest niceness queued, and jobs of one submitter at one niceness
      leave in the order of submission. */
  lemma DispatchOrder(s: State, id: nat)
    requires Inv(s) && HasHead(s) && id in Pending(s.jobs)
    ensures Head(s).niceness <= s.jobs[id].niceness
    ensures s.jobs[id].submitter == Head(s).submitter && s.jobs[id].niceness == Head(s).niceness ==> Head(s).id <= id
  {
    hide Inv, Q.WellFormed, Pending, Known, InOwnGroup;
    InvQueue(s);
    var g := GroupOf(s.queue, s.jobs, id);
    assert s.queue[0] in s.queue && s.queue[0].l[0] in s.queue[0].l;
    assert InOwnGroup(s.jobs, s.queue[0], s.queue[0].l[0]);
    OwnGroup(s.jobs, s.queue[0], s.queue[0].l[0]);
    OwnGroup(s.jobs, g, id);
    Q.ServedNext(s.queue, s.newJobId + 1);
  }

  lemma OwnGroup(jobs: map<nat, Job>, g: Q.Group, id: nat)
    requires InOwnGroup(jobs, g, id)
    ensures id in jobs && g.submitter == jobs[id].submitter && g.niceness == jobs[id].niceness
  {
  }

  /** The group in which a queued job waits. */
  lemma GroupOf(q: Q.Queue, jobs: map<nat, Job>, id: nat) returns (g: Q.Group)
    requires id in Q.Jobs(q) && OwnGroups(q, jobs)
    ensures g in q && id in g.l && InOwnGroup(jobs, g, id)
  {
    Q.JobsMembers(q);
    g :| g in q && id in g.l;
  }

  // ---------------------------------------------------------------- bounded bypass

  /** Does this round of empty_queue hand out the head? */
  ghost predicate Dispatches(s: State, e: Event)
    requires Enabled(s, e)
  {
    e.Serve? && Target(s, Head(s), e.pick).Some?
  }

  predicate Overtakes(e: Event, niceness: int) {
    e.GetCS? && Clamp(e.request.niceness) < niceness
  }

  lemma {:induction false} RemoveStaleMoves(s: State, css: seq<nat>, node: CompileServer, submitter: nat, niceness: int)
    requires Q.Present(RemoveStale(s, css, node).queue, submitter, niceness)
    ensures Q.Present(s.queue, submitter, niceness)
    ensures Q.Ahead(RemoveStale(s, css, node).queue, submitter, niceness) <= Q.Ahead(s.queue, submitter, niceness)
    decreases css
  {
    if css != [] {
      if css[0] in s.servers && Stale(s.servers[css[0]], node) {
        RemoveStaleMoves(RemoveDaemon(s, css[0]), css[1..], node, submitter, niceness);
        LeaveMoves(s.queue, css[0], submitter, niceness);
      } else {
        RemoveStaleMoves(s, css[1..], node, submitter, niceness);
      }
    }
  }

  lemma LeaveMoves(q: Q.Queue, t: nat, submitter: nat, niceness: int)
    requires Q.Present(Q.DropSubmitter(q, t), submitter, niceness)
    ensures Q.Present(q, submitter, niceness) && t != submitter
    ensures Q.Ahead(Q.DropSubmitter(q, t), submitter, niceness) <= Q.Ahead(q, submitter, niceness)
  {
    Q.DropSubmitterMembers(q, t);
    Q.DropMoves(q, t, submitter, niceness);
  }

  /** What the end of a job does to the queue. */
  lemma JobDoneQueue(s: State, cs: nat, m: Done)
    ensures var n, q := Named(s, cs, m), JobDone(s, cs, m).queue;
      || q == s.queue
      || q == Q.DropSubmitter(s.queue, cs)
      || (n.Some? && n.value in s.jobs && q == Dequeue(s.queue, s.jobs[n.value]))
  {
    hide Named, Dequeue, Discount, Unlist, Relieve, Forget;
  }

  lemma DequeueMoves(q: Q.Queue, next: nat, job: Job, submitter: nat, niceness: int)
    requires Q.WellFormed(q, next) && Q.Present(q, submitter, niceness) && Q.Present(Dequeue(q, job), submitter, niceness)
    ensures Q.Ahead(Dequeue(q, job), submitter, niceness) <= Q.Ahead(q, submitter, niceness)
  {
    hide Q.WellFormed, Q.Present, Q.Ahead, Q.Cancel;
    var k := Q.Find(q, job.submitter, job.niceness);
    if k < |q| { Q.CancelMoves(q, next, k, job.id, submitter, niceness); }
  }

  lemma JobDoneMoves(s: State, cs: nat, m: Done, submitter: nat, niceness: int)
    requires Inv(s) && Q.Present(s.queue, submitter, niceness)
    requires Q.Present(JobDone(s, cs, m).queue, submitter, niceness)
    ensures Q.Ahead(JobDone(s, cs, m).queue, submitter, niceness) <= Q.Ahead(s.queue, submitter, niceness)
  {
    hide Inv, JobDone, Named, Dequeue, Q.Present, Q.Ahead, Q.WellFormed, Q.DropSubmitter;
    Shape(s);
    JobDoneQueue(s, cs, m);
    var n, q := Named(s, cs, m), JobDone(s, cs, m).queue;
    if q == Q.DropSubmitter(s.queue, cs) {
      LeaveMoves(s.queue, cs, submitter, niceness);
    } else if q != s.queue {
      DequeueMoves(s.queue, s.newJobId + 1, s.jobs[n.value], submitter, niceness);
    }
  }

  lemma ServeMoves(s: State, e: Event, submitter: nat, niceness: int)
    requires Inv(s) && Enabled(s, e) && Dispatches(s, e)
    requires Q.Present(s.queue, submitter, niceness) && Q.Present(Step(s, e).queue, submitter, niceness)
    requires !Q.HasKey(s.queue[0], submitter, niceness)
    ensures 1 + Q.Ahead(Step(s, e).queue, submitter, niceness) <= Q.Ahead(s.queue, submitter, niceness)
    ensures e.sent ==> 1 + Q.Ahead(Step(s, e).queue, submitter, niceness) == Q.Ahead(s.queue, submitter, niceness)
  {
    hide Inv, MayPick, Target, Q.Ahead, Q.Present, Q.HasKey, Q.WellFormed, Forget, Relieve, Involving;
    Shape(s);
    Q.DispatchAdvances(s.queue, s.newJobId + 1, submitter, niceness);
    if !e.sent { LeaveMoves(Q.Dispatch(s.queue), Head(s).submitter, submitter, niceness); }
  }

  lemma LoginMoves(s: State, e: Event, submitter: nat, niceness: int)
    requires e.Login? && Q.Present(Step(s, e).queue, submitter, niceness)
    ensures Q.Ahead(Step(s, e).queue, submitter, niceness) <= Q.Ahead(s.queue, submitter, niceness)
  {
    if !e.blocked { RemoveStaleMoves(s, s.css, e.node, submitter, niceness); }
  }

  /** A request moves a waiting group back, by one, exactly if its niceness is smaller. */
  lemma GetCSMoves(s: State, e: Event, submitter: nat, niceness: int)
    requires Inv(s) && Enabled(s, e) && e.GetCS? && Q.Present(s.queue, submitter, niceness)
    ensures Q.Ahead(Step(s, e).queue, submitter, niceness)
         == Q.Ahead(s.queue, submitter, niceness) + if Overtakes(e, niceness) then 1 else 0
  {
    Shape(s);
    hide Inv;
    Q.EnqueueMoves(s.queue, s.newJobId + 1, e.cs, Clamp(e.request.niceness), submitter, niceness);
  }

  lemma QuietMoves(s: State, e: Event)
    requires Enabled(s, e)
    requires !e.Login? && !e.GetCS? && !e.End? && !e.Gone? && (e.Serve? ==> !Dispatches(s, e))
    ensures Step(s, e).queue == s.queue
  {
    hide MayPick;
  }

  /** One step moves a waiting group at most as far back as smaller-niceness requests overtake it, and every
      dispatch of another group brings it one closer. */
  lemma StepMoves(s: State, e: Event, submitter: nat, niceness: int)
    requires Inv(s) && Enabled(s, e)
    requires Q.Present(s.queue, submitter, niceness) && Q.Present(Step(s, e).queue, submitter, niceness)
    requires Dispatches(s, e) ==> !Q.HasKey(s.queue[0], submitter, niceness)
    ensures (if Dispatches(s, e) then 1 else 0) + Q.Ahead(Step(s, e).queue, submitter, niceness)
         <= Q.Ahead(s.queue, submitter, niceness) + if Overtakes(e, niceness) then 1 else 0
  {
    hide Inv, MayPick, Enabled, Target, RemoveDaemon, Submit, EmptyQueue, SchedulerSpec.Login, JobDone, JobBegin, Touched;
    if e.Login? { LoginMoves(s, e, submitter, niceness); }
    else if e.GetCS? { GetCSMoves(s, e, submitter, niceness); }
    else if e.End? { JobDoneMoves(s, e.cs, e.done, submitter, niceness); }
    else if e.Gone? { GoneMoves(s, e.cs, submitter, niceness); }
    else if Dispatches(s, e) { ServeMoves(s, e, submitter, niceness); }
    else { QuietMoves(s, e); }
  }

  lemma GoneMoves(s: State, cs: nat, submitter: nat, niceness: int)
    requires Q.Present(RemoveDaemon(s, cs).queue, submitter, niceness)
    ensures Q.Ahead(RemoveDaemon(s, cs).queue, submitter, niceness) <= Q.Ahead(s.queue, submitter, niceness)
  {
    LeaveMoves(s.queue, cs, submitter, niceness);
  }

  /** The group has requests queued all through the run, and no dispatch of the run serves it. */
  ghost predicate Waits(s: State, es: seq<Event>, submitter: nat, niceness: int)
    decreases |es|
  {
    && Q.Present(s.queue, submitter, niceness)
    && (es != [] ==>
          && Enabled(s, es[0])
          && (Dispatches(s, es[0]) ==> !Q.HasKey(s.queue[0], submitter, niceness))
          && Waits(Step(s, es[0]), es[1..], submitter, niceness))
  }

  ghost function DispatchCount(s: State, es: seq<Event>, submitter: nat, niceness: int): nat
    requires Waits(s, es, submitter, niceness)
    decreases |es|
  {
    if es == [] then 0
    else (if Dispatches(s, es[0]) then 1 else 0) + DispatchCount(Step(s, es[0]), es[1..], submitter, niceness)
  }

  function OvertakeCount(es: seq<Event>, niceness: int): nat {
    if es == [] then 0 else (if Overtakes(es[0], niceness) then 1 else 0) + OvertakeCount(es[1..], niceness)
  }

  /** Bounded bypass over every run: while a group waits, the scheduler serves others at most as often as
      there were jobs and groups ahead of it, plus once for every request of a smaller niceness that came in. */
  lemma {:induction false} BoundedBypass(s: State, es: seq<Event>, submitter: nat, niceness: int)
    requires Inv(s) && Waits(s, es, submitter, niceness)
    ensures DispatchCount(s, es, submitter, niceness)
         <= Q.Ahead(s.queue, submitter, niceness) + OvertakeCount(es, niceness)
    decreases |es|
  {
    if es != [] {
      var s' := Step(s, es[0]);
      assert Waits(s', es[1..], submitter, niceness);
      StepMoves(s, es[0], submitter, niceness);
      StepKeeps(s, es[0]);
      BoundedBypass(s', es[1..], submitter, niceness);
    }
  }
}
