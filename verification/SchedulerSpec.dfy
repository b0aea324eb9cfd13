/** The scheduler's state, what each message does to it, and the invariant that ties its structures together
    (scheduler/scheduler.cpp). */
module SchedulerSpec {
  import opened Common
  import opened CompileServers
  import Q = JobQueue

  datatype State = State(
    jobs: map<nat, Job>,
    servers: map<nat, CompileServer>,
    css: seq<nat>,
    queue: Q.Queue,
    newJobId: nat,
    hostIdCounter: nat)

  const INITIAL := State(map[], map[], [], [], 0, 0)

  // ---------------------------------------------------------------- the invariant

  ghost predicate NoDup(l: seq<nat>) {
    l == [] || (l[0] !in l[1..] && NoDup(l[1..]))
  }

  ghost function Pending(jobs: map<nat, Job>): set<nat> {
    set id | id in jobs && jobs[id].server == None
  }

  ghost function By(jobs: map<nat, Job>, h: nat): set<nat> {
    set id | id in jobs && jobs[id].submitter == h
  }

  ghost function On(jobs: map<nat, Job>, h: nat): set<nat> {
    set id | id in jobs && jobs[id].server == Some(h)
  }

  /** Jobs in `l` that node `h` did not submit itself. */
  ghost function Foreign(l: seq<nat>, jobs: map<nat, Job>, h: nat): nat {
    if l == [] then 0
    else (if l[0] in jobs && jobs[l[0]].submitter == h then 0 else 1) + Foreign(l[1..], jobs, h)
  }

  /** All slots and all preload slots of a node. */
  function Capacity(maxJobs: int): nat {
    Abs(maxJobs) + 1 + Abs(maxJobs) / 4
  }

  ghost predicate JobOk(j: Job, id: nat, last: nat, nodes: set<nat>) {
    && j.id == id && 0 < id <= last
    && j.submitter in nodes
    && (j.server.Some? ==> j.server.value in nodes)
    && (j.state == PENDING <==> j.server == None)
  }

  /** Every stored job is stored under its id and names live nodes; pending means without a server. */
  ghost predicate JobsOk(jobs: map<nat, Job>, last: nat, nodes: set<nat>) {
    forall id :: id in jobs ==> JobOk(jobs[id], id, last, nodes)
  }

  ghost predicate InOwnGroup(jobs: map<nat, Job>, g: Q.Group, id: nat) {
    id in jobs && Q.HasKey(g, jobs[id].submitter, jobs[id].niceness)
  }

  ghost predicate OwnGroups(q: Q.Queue, jobs: map<nat, Job>) {
    forall g, id :: g in q && id in g.l ==> InOwnGroup(jobs, g, id)
  }

  /** Exactly the pending jobs are queued, each once, with its own submitter and niceness. */
  ghost predicate QueueOk(q: Q.Queue, jobs: map<nat, Job>, next: nat) {
    Q.WellFormed(q, next) && Q.Jobs(q) == Pending(jobs) && OwnGroups(q, jobs)
  }

  /** A node's list holds exactly the jobs assigned to it, each once; jobs in `limbo` are not listed yet. */
  ghost predicate ListOk(l: seq<nat>, jobs: map<nat, Job>, h: nat, limbo: set<nat>) {
    NoDup(l) && Q.Elements(l) == On(jobs, h) - limbo
  }

  ghost predicate CountOk(count: int, jobs: map<nat, Job>, h: nat) {
    count == |By(jobs, h)|
  }

  ghost predicate BoundOk(c: CompileServer, jobs: map<nat, Job>, h: nat) {
    Foreign(c.jobList, jobs, h) <= Capacity(c.maxJobs)
  }

  ghost predicate ServerOk(c: CompileServer, jobs: map<nat, Job>, h: nat, limbo: set<nat>) {
    && c.hostId == h
    && ListOk(c.jobList, jobs, h, limbo)
    && CountOk(c.submittedJobsCount, jobs, h)
    && BoundOk(c, jobs, h)
  }

  ghost predicate ServersOk(servers: map<nat, CompileServer>, jobs: map<nat, Job>, limbo: set<nat>) {
    forall h :: h in servers ==> ServerOk(servers[h], jobs, h, limbo)
  }

  /** The list of nodes names every stored node once. */
  ghost predicate CssOk(css: seq<nat>, nodes: set<nat>, counter: nat) {
    NoDup(css) && Q.Elements(css) == nodes && forall h :: h in nodes ==> h <= counter
  }

  ghost predicate SameClient(a: Job, b: Job) {
    a.submitter == b.submitter && a.localClientId == b.localClientId
  }

  /** A daemon has at most one pending request per client. */
  ghost predicate ClientsOk(jobs: map<nat, Job>) {
    forall a, b :: a in Pending(jobs) && b in Pending(jobs) && SameClient(jobs[a], jobs[b]) ==> a == b
  }

  ghost predicate InvBut(s: State, limbo: set<nat>) {
    && JobsOk(s.jobs, s.newJobId, s.servers.Keys)
    && QueueOk(s.queue, s.jobs, s.newJobId + 1)
    && ServersOk(s.servers, s.jobs, limbo)
    && CssOk(s.css, s.servers.Keys, s.hostIdCounter)
    && ClientsOk(s.jobs)
  }

  ghost predicate Inv(s: State) {
    InvBut(s, {})
  }

  lemma InitialInv()
    ensures Inv(INITIAL)
  {
    assert Q.Elements([]) == {};
    assert Pending(map[]) == {};
  }

  // ---------------------------------------------------------------- messages

  datatype Request = Request(
    clientId: nat,
    environments: seq<Env>,
    targetPlatform: string,
    preferredHost: string,
    minimalHostVersion: int,
    requiredFeatures: set<nat>,
    niceness: int)

  /** Negative niceness counts as 0, everything above 20 as 20. */
  function Clamp(niceness: int): int { Max(0, Min(20, niceness)) }

  function NewJob(id: nat, cs: nat, r: Request): Job {
    Job(id, cs, r.clientId, r.environments, r.targetPlatform, r.preferredHost, r.minimalHostVersion,
        r.requiredFeatures, Clamp(r.niceness), PENDING, None)
  }

  /** A request of node `cs` (count 1) becomes a pending job. */
  function Submit(s: State, cs: nat, r: Request): State
    requires cs in s.servers
  {
    var id := s.newJobId + 1;
    var c := s.servers[cs];
    s.(newJobId := id,
       jobs := s.jobs[id := NewJob(id, cs, r)],
       servers := s.servers[cs := c.(submittedJobsCount := c.submittedJobsCount + 1)],
       queue := Q.Enqueue(s.queue, id, cs, Clamp(r.niceness)))
  }

  /** Members of `l` outside `dead`, in order. */
  function Keep(l: seq<nat>, dead: set<nat>): seq<nat> {
    if l == [] then []
    else if l[0] in dead then Keep(l[1..], dead)
    else [l[0]] + Keep(l[1..], dead)
  }

  /** A node after the jobs `dead` were deleted: they left its list, those it had submitted left its counter,
      and it is no longer busy installing for a job that was on it. */
  ghost function Relieved(c: CompileServer, h: nat, jobs: map<nat, Job>, dead: set<nat>): CompileServer {
    c.(jobList := Keep(c.jobList, dead),
       submittedJobsCount := c.submittedJobsCount - |By(jobs, h)| + |By(jobs - dead, h)|,
       busyInstalling := if dead !! On(jobs, h) then c.busyInstalling else 0)
  }

  ghost function Relieve(servers: map<nat, CompileServer>, jobs: map<nat, Job>, dead: set<nat>): map<nat, CompileServer> {
    map h | h in servers :: Relieved(servers[h], h, jobs, dead)
  }

  function Forget(servers: map<nat, CompileServer>, t: nat): map<nat, CompileServer> {
    map h | h in servers && h != t :: servers[h].(blacklist := servers[h].blacklist - {t})
  }

  /** The jobs a node submitted or is to compile. */
  ghost function Involving(jobs: map<nat, Job>, t: nat): set<nat> {
    By(jobs, t) + On(jobs, t)
  }

  /** A daemon is gone: its requests, the jobs it submitted and the jobs it was compiling go with it. */
  ghost function RemoveDaemon(s: State, t: nat): State {
    var dead := Involving(s.jobs, t);
    s.(jobs := s.jobs - dead,
       servers := Forget(Relieve(s.servers, s.jobs, dead), t),
       css := Keep(s.css, {t}),
       queue := Q.DropSubmitter(s.queue, t))
  }

  // ---------------------------------------------------------------- dispatching

  /** Every listed node is stored, and so is the submitter of `job`. */
  ghost predicate Known(s: State, job: Job) {
    job.submitter in s.servers && forall h :: h in s.css ==> h in s.servers
  }

  /** First node of `css` that matches the preferred host and may take the job now. */
  ghost function FirstPreferred(s: State, job: Job, css: seq<nat>): (r: Option<nat>)
    requires Known(s, job) && forall h :: h in css ==> h in s.css
    ensures r.Some? ==> r.value in css && EligibleNow(s.servers[r.value], s.servers[job.submitter], job)
  {
    if css == [] then None
    else if Matches(s.servers[css[0]], job.preferredHost) && EligibleNow(s.servers[css[0]], s.servers[job.submitter], job)
    then Some(css[0])
    else FirstPreferred(s, job, css[1..])
  }

  /** What pick_server may return: the preferred host if there is one, else some node of the eligible pool,
      and none only if the pool is empty. */
  ghost predicate MayPick(s: State, job: Job, r: Option<nat>)
    requires Known(s, job)
  {
    if job.preferredHost != "" then r == FirstPreferred(s, job, s.css)
    else
      match r
      case Some(c) => c in s.css && Offered(s.servers[c], s.servers[job.submitter], job)
      case None => forall h :: h in s.css ==> !Offered(s.servers[h], s.servers[job.submitter], job)
  }

  /** The submitter may work on its own job while it has a slot, whatever its load. */
  predicate SubmitterCan(submitter: CompileServer, job: Job) {
    && CurrentJobCount(submitter) < submitter.maxJobs
    && job.preferredHost == ""
    && InstallPlatform(submitter, submitter, job, false) != ""
  }

  /** A node worth waiting for. */
  predicate WorthWaiting(c: CompileServer, submitter: CompileServer, job: Job) {
    (job.preferredHost == "" || Matches(c, job.preferredHost)) && EligibleEver(c, submitter, job)
  }

  /** The node the job goes to when pick_server returned `r`; none means the job is delayed. */
  ghost function Target(s: State, job: Job, r: Option<nat>): (t: Option<nat>)
    requires Known(s, job) && MayPick(s, job, r)
    ensures t.Some? ==> t.value in s.servers
  {
    var submitter := s.servers[job.submitter];
    if r.Some? then r
    else if SubmitterCan(submitter, job) then Some(job.submitter)
    else if exists h :: h in s.css && WorthWaiting(s.servers[h], submitter, job) then None
    else Some(job.submitter)
  }

  ghost predicate HasHead(s: State) {
    && s.queue != [] && s.queue[0].l != []
    && s.queue[0].l[0] in s.jobs
    && Known(s, s.jobs[s.queue[0].l[0]])
    && s.jobs[s.queue[0].l[0]].id == s.queue[0].l[0]
  }

  function Head(s: State): Job
    requires HasHead(s)
  {
    s.jobs[s.queue[0].l[0]]
  }

  /** The head of the queue leaves it for node `c`. */
  function Assign(s: State, c: nat): State
    requires HasHead(s)
  {
    s.(jobs := s.jobs[Head(s).id := Head(s).(state := WAITINGFORCS, server := Some(c))],
       queue := Q.Dispatch(s.queue))
  }

  /** The answer reached the submitter: the job joins the list of node `c`, which is busy installing
      from `now` on if it lacks the environment. */
  function Deliver(s: State, id: nat, c: nat, now: nat): State
    requires id in s.jobs && c in s.servers
  {
    var n := s.servers[c];
    s.(servers := s.servers[c := n.(
      lastPickId := id,
      jobList := n.jobList + [id],
      busyInstalling := if InstalledPlatform(n, s.jobs[id]) == "" then now else n.busyInstalling)])
  }

  /** One round of empty_queue over a non-empty queue: `r` is pick_server's choice for the head, `sent`
      whether the answer reached the submitter; if not, the submitter's daemon is removed. */
  ghost function EmptyQueue(s: State, r: Option<nat>, sent: bool, now: nat): State
    requires HasHead(s) && MayPick(s, Head(s), r)
  {
    match Target(s, Head(s), r)
    case None => s
    case Some(c) =>
      if sent then Deliver(Assign(s, c), Head(s).id, c, now) else RemoveDaemon(Assign(s, c), Head(s).submitter)
  }

  // ---------------------------------------------------------------- compiling

  /** The node starts to compile; a message about a job that is not on that node is ignored. */
  function JobBegin(s: State, cs: nat, id: nat): State {
    if id in s.jobs && s.jobs[id].server == Some(cs) then s.(jobs := s.jobs[id := s.jobs[id].(state := COMPILING)])
    else s
  }

  /** A job is over: by id, or by client id if the daemon never learnt the id. */
  datatype Done = Done(jobId: nat, unknown: bool, fromServer: bool, exitcode: int)

  function UnknownClient(m: Done): nat { if m.unknown then m.jobId else 0 }

  predicate PendingOf(jobs: map<nat, Job>, cs: nat, clientId: nat, id: nat) {
    id in jobs && jobs[id].server == None && jobs[id].submitter == cs && jobs[id].localClientId == clientId
  }

  /** The largest id up to `last` of a pending job of that client. */
  function FindPending(jobs: map<nat, Job>, cs: nat, clientId: nat, last: nat): (r: Option<nat>)
    ensures r.Some? ==> 0 < r.value <= last && PendingOf(jobs, cs, clientId, r.value)
  {
    if last == 0 then None
    else if PendingOf(jobs, cs, clientId, last) then Some(last)
    else FindPending(jobs, cs, clientId, last - 1)
  }

  function Named(s: State, cs: nat, m: Done): Option<nat> {
    if UnknownClient(m) != 0 then FindPending(s.jobs, cs, UnknownClient(m), s.newJobId)
    else if m.jobId in s.jobs then Some(m.jobId)
    else None
  }

  /** A daemon uses a job id only once it was told (the job then has a server), and a client id only for
      a job of its own that failed. */
  ghost predicate Honest(s: State, m: Done) {
    if UnknownClient(m) != 0 then !m.fromServer && m.exitcode != 0
    else m.jobId in s.jobs ==> s.jobs[m.jobId].server.Some?
  }

  /** Does the log read the name of the job's node? For a daemon that is not that node and for a job that ended
      well it does. */
  predicate ReadsNode(job: Job, cs: nat, m: Done) {
    if m.fromServer then job.server != Some(cs) || m.exitcode == 0 else job.submitter == cs && m.exitcode == 0
  }

  /** The node whose name is read is there. */
  ghost predicate NodeThere(s: State, cs: nat, m: Done) {
    var n := Named(s, cs, m);
    n.Some? && n.value in s.jobs && ReadsNode(s.jobs[n.value], cs, m) ==> s.jobs[n.value].server.Some?
  }

  function Dequeue(q: Q.Queue, job: Job): Q.Queue {
    var k := Q.Find(q, job.submitter, job.niceness);
    if k < |q| then Q.Cancel(q, k, job.id) else q
  }

  function Unlist(servers: map<nat, CompileServer>, job: Job): map<nat, CompileServer> {
    if job.server.Some? && job.server.value in servers
    then servers[job.server.value := servers[job.server.value].(jobList := Keep(servers[job.server.value].jobList, {job.id}))]
    else servers
  }

  function Discount(servers: map<nat, CompileServer>, cs: nat): map<nat, CompileServer> {
    if cs in servers then servers[cs := servers[cs].(submittedJobsCount := servers[cs].submittedJobsCount - 1)] else servers
  }

  /** The job is deleted; only a job found by its client id is also taken out of the queue. */
  function EndJob(s: State, id: nat, byClient: bool): State
    requires id in s.jobs
  {
    var job := s.jobs[id];
    s.(jobs := s.jobs - {id},
       servers := Discount(Unlist(s.servers, job), job.submitter),
       queue := if byClient then Dequeue(s.queue, job) else s.queue)
  }

  /** Daemons that claim a job of others are removed. */
  ghost function JobDone(s: State, cs: nat, m: Done): State {
    match Named(s, cs, m)
    case None => s
    case Some(id) =>
      if id !in s.jobs then s
      else if if m.fromServer then s.jobs[id].server != Some(cs) else s.jobs[id].submitter != cs then RemoveDaemon(s, cs)
      else EndJob(s, id, UnknownClient(m) != 0)
  }

  // ---------------------------------------------------------------- logging in

  /** A node that replaces the others of the same address and name. */
  predicate Stale(c: CompileServer, node: CompileServer) {
    c.address == node.address && c.nodeName == node.nodeName
  }

  /** Removes the stale nodes among `css`, in order. */
  ghost function RemoveStale(s: State, css: seq<nat>, node: CompileServer): State
    decreases css
  {
    if css == [] then s
    else if css[0] in s.servers && Stale(s.servers[css[0]], node) then RemoveStale(RemoveDaemon(s, css[0]), css[1..], node)
    else RemoveStale(s, css[1..], node)
  }

  function NewNode(node: CompileServer, hostId: nat): CompileServer {
    node.(hostId := hostId, busyInstalling := 0, jobList := [], submittedJobsCount := 0, lastPickId := 0,
          clientLocalMap := [], blacklist := map[])
  }

  /** A blocked daemon only uses up a host id. */
  ghost function Login(s: State, node: CompileServer, blocked: bool): State {
    var h := s.hostIdCounter + 1;
    if blocked then s.(hostIdCounter := h)
    else
      var r := RemoveStale(s, s.css, node);
      r.(hostIdCounter := h, css := r.css + [h], servers := r.servers[h := NewNode(node, h)])
  }

  // ---------------------------------------------------------------- list and count facts

  lemma {:induction false} KeepMembers(l: seq<nat>, dead: set<nat>)
    ensures forall x :: x in Keep(l, dead) <==> x in l && x !in dead
    ensures Q.Elements(Keep(l, dead)) == Q.Elements(l) - dead
    ensures NoDup(l) ==> NoDup(Keep(l, dead))
  {
    if l != [] {
      KeepMembers(l[1..], dead);
      var k := Keep(l[1..], dead);
      assert ([l[0]] + k)[1..] == k;
    }
  }

  lemma {:induction false} KeepAll(l: seq<nat>, dead: set<nat>)
    requires Q.Elements(l) !! dead
    ensures Keep(l, dead) == l
  {
    if l != [] {
      assert l[0] in Q.Elements(l) && Q.Elements(l[1..]) <= Q.Elements(l);
      KeepAll(l[1..], dead);
    }
  }

  lemma {:induction false} KeepKeep(l: seq<nat>, a: set<nat>, b: set<nat>)
    ensures Keep(Keep(l, a), b) == Keep(l, a + b)
  {
    if l != [] {
      KeepKeep(l[1..], a, b);
      var k := Keep(l[1..], a);
      assert ([l[0]] + k)[1..] == k;
    }
  }

  lemma {:induction false} NoDupAppend(l: seq<nat>, x: nat)
    requires NoDup(l) && x !in l
    ensures NoDup(l + [x])
  {
    if l == [] {
      assert [x][1..] == [];
    } else {
      NoDupAppend(l[1..], x);
      assert (l + [x])[1..] == l[1..] + [x];
    }
  }

  lemma {:induction false} ForeignKeep(l: seq<nat>, jobs: map<nat, Job>, jobs': map<nat, Job>, dead: set<nat>, h: nat)
    requires forall id :: id in l && id !in dead ==>
      ((id in jobs && jobs[id].submitter == h) ==> (id in jobs' && jobs'[id].submitter == h))
    ensures Foreign(Keep(l, dead), jobs', h) <= Foreign(l, jobs, h)
  {
    if l != [] {
      ForeignKeep(l[1..], jobs, jobs', dead, h);
      var k := Keep(l[1..], dead);
      assert ([l[0]] + k)[1..] == k;
    }
  }

  lemma {:induction false} ForeignAppend(l: seq<nat>, x: nat, jobs: map<nat, Job>, h: nat)
    ensures Foreign(l + [x], jobs, h) == Foreign(l, jobs, h) + if x in jobs && jobs[x].submitter == h then 0 else 1
    ensures Foreign(l, jobs, h) <= |l|
  {
    if l == [] {
      assert [x][1..] == [];
      assert l + [x] == [x];
    } else {
      ForeignAppend(l[1..], x, jobs, h);
      assert (l + [x])[1..] == l[1..] + [x];
    }
  }

  lemma {:induction false} ForeignSame(l: seq<nat>, jobs: map<nat, Job>, jobs': map<nat, Job>, h: nat)
    requires forall id :: id in l ==> id in jobs && id in jobs' && jobs[id].submitter == jobs'[id].submitter
    ensures Foreign(l, jobs', h) == Foreign(l, jobs, h)
  {
    if l != [] { ForeignSame(l[1..], jobs, jobs', h); }
  }
}
