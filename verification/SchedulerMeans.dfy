/** What each message does to the scheduler's jobs and nodes, told by what is stored about them alone. */
module SchedulerMeans {
  import opened Common
  import opened CompileServers
  import opened SchedulerSpec
  import opened SchedulerInv
  import opened SchedulerRuns
  import Algo = SchedulingAlgo
  import Q = JobQueue

  // ---------------------------------------------------------------- requests

  /** A niceness between 0 and 20 is kept, and any other becomes the nearer of the two. */
  lemma ClampMeans(niceness: int)
    ensures Clamp(niceness) == if niceness < 0 then 0 else if niceness > 20 then 20 else niceness
  {
  }

  lemma Unused(s: State)
    requires Inv(s)
    ensures forall id :: id in s.jobs ==> 0 < id <= s.newJobId
  {
    forall id | id in s.jobs ensures 0 < id <= s.newJobId { assert JobOk(s.jobs[id], id, s.newJobId, s.servers.Keys); }
  }

  /** A request becomes one more job, with all that was asked for, pending, and queued at its niceness. */
  lemma RequestRecorded(s: State, cs: nat, r: Request)
    requires Inv(s) && cs in s.servers && FreshClient(s.jobs, cs, r.clientId)
    ensures var t, id := Submit(s, cs, r), s.newJobId + 1;
      && id !in s.jobs && t.jobs.Keys == s.jobs.Keys + {id} && (forall k :: k in s.jobs ==> t.jobs[k] == s.jobs[k])
      && var j := t.jobs[id];
      && j.submitter == cs && j.localClientId == r.clientId && j.environments == r.environments
      && j.targetPlatform == r.targetPlatform && j.preferredHost == r.preferredHost
      && j.minimalHostVersion == r.minimalHostVersion && j.requiredFeatures == r.requiredFeatures
      && j.niceness == (if r.niceness < 0 then 0 else if r.niceness > 20 then 20 else r.niceness)
      && j.state == PENDING && j.server == None && id in Q.Jobs(t.queue)
  {
    hide Inv, Q.Enqueue;
    Unused(s);
    SubmitKeeps(s, cs, r);
    var t, id := Submit(s, cs, r), s.newJobId + 1;
    InvQueue(t);
    assert id in Pending(t.jobs);
  }

  // ---------------------------------------------------------------- compiling

  /** The begin of a compilation marks the job of that id, if it is on that node, and changes nothing else. */
  lemma BeginMeans(s: State, cs: nat, id: nat)
    ensures var t := JobBegin(s, cs, id);
      && t == s.(jobs := t.jobs) && t.jobs.Keys == s.jobs.Keys
      && forall k :: k in s.jobs ==>
           t.jobs[k] == if k == id && s.jobs[k].server == Some(cs) then s.jobs[k].(state := COMPILING) else s.jobs[k]
  {
  }

  /** With a daemon go the jobs it submitted and the jobs it was to compile, and no others. */
  lemma GoneMeans(s: State, h: nat)
    ensures var t := RemoveDaemon(s, h);
      && (forall id :: id in t.jobs <==> id in s.jobs && s.jobs[id].submitter != h && s.jobs[id].server != Some(h))
      && (forall id :: id in t.jobs ==> t.jobs[id] == s.jobs[id])
      && (forall k :: k in t.servers <==> k in s.servers && k != h)
      && (forall k :: k in t.css <==> k in s.css && k != h)
  {
    KeepMembers(s.css, {h});
    hide Keep, Relieved;
  }

  /** What is left of another node `k`: the jobs the daemon had submitted leave its list, and if there were any, it is no
      longer busy installing; it forgets what it had blacklisted on the daemon. */
  lemma GoneNode(s: State, h: nat, k: nat, id: nat)
    requires Inv(s) && k in s.servers && k != h
    ensures k in RemoveDaemon(s, h).servers
    ensures var c, c' := s.servers[k], RemoveDaemon(s, h).servers[k];
      && c' == c.(jobList := c'.jobList, submittedJobsCount := c'.submittedJobsCount, busyInstalling := c'.busyInstalling,
                  blacklist := c'.blacklist)
      && (id in c'.jobList <==> id in c.jobList && !(id in s.jobs && s.jobs[id].submitter == h))
      && (id in c.jobList && id !in c'.jobList ==> c'.busyInstalling == 0)
      && (c'.jobList == c.jobList ==> c'.busyInstalling == c.busyInstalling)
      && c'.blacklist == c.blacklist - {h}
  {
    NodeFacts(s, k);
    RemainsOf(s, h, k);
    Remains(s.servers[k], k, s.jobs, h, id);
    hide Inv, RemoveDaemon, Keep, Relieved, Involving;
  }

  lemma Remains(c: CompileServer, k: nat, jobs: map<nat, Job>, h: nat, id: nat)
    requires k != h && forall x :: x in c.jobList <==> x in jobs && jobs[x].server == Some(k)
    ensures var c' := Relieved(c, k, jobs, Involving(jobs, h));
      && (id in c'.jobList <==> id in c.jobList && !(id in jobs && jobs[id].submitter == h))
      && (id in c.jobList && id !in c'.jobList ==> c'.busyInstalling == 0)
      && (c'.jobList == c.jobList ==> c'.busyInstalling == c.busyInstalling)
  {
    hide Keep;
    var dead := Involving(jobs, h);
    KeepMembers(c.jobList, dead);
    assert forall x :: x in dead && x in On(jobs, k) ==> x in c.jobList && x !in Keep(c.jobList, dead);
    assert id in c.jobList ==> id in On(jobs, k);
  }

  lemma RemainsOf(s: State, h: nat, k: nat)
    requires k in s.servers && k != h
    ensures k in RemoveDaemon(s, h).servers
    ensures RemoveDaemon(s, h).servers[k]
         == Relieved(s.servers[k], k, s.jobs, Involving(s.jobs, h)).(blacklist := s.servers[k].blacklist - {h})
  {
    hide Involving, Keep, By, On;
  }

  // ---------------------------------------------------------------- the end of a job

  /** A daemon that names a client of its own ends that client's pending job, which leaves the queue. */
  lemma EndByClient(s: State, cs: nat, m: Done, id: nat)
    requires Inv(s) && m.unknown && m.jobId != 0 && Honest(s, m)
    ensures var t := JobDone(s, cs, m);
      && (id in t.jobs <==>
            && id in s.jobs
            && !(s.jobs[id].server == None && s.jobs[id].submitter == cs && s.jobs[id].localClientId == m.jobId))
      && (id in t.jobs ==> t.jobs[id] == s.jobs[id])
      && t.servers.Keys == s.servers.Keys
  {
    hide Inv, FindPending;
    ClientFound(s, cs, m.jobId);
    assert PendingOf(s.jobs, cs, m.jobId, id) <==> FindPending(s.jobs, cs, m.jobId, s.newJobId) == Some(id);
  }

  /** The pending job of a client is found, and it is the only one. */
  lemma ClientFound(s: State, cs: nat, clientId: nat)
    requires Inv(s)
    ensures var r := FindPending(s.jobs, cs, clientId, s.newJobId);
      forall id: nat :: PendingOf(s.jobs, cs, clientId, id) <==> r == Some(id)
  {
    Unused(s);
    FindsLast(s.jobs, cs, clientId, s.newJobId);
    forall a, b | PendingOf(s.jobs, cs, clientId, a) && PendingOf(s.jobs, cs, clientId, b) ensures a == b {
      assert a in Pending(s.jobs) && b in Pending(s.jobs) && SameClient(s.jobs[a], s.jobs[b]);
    }
  }

  lemma {:induction false} FindsLast(jobs: map<nat, Job>, cs: nat, clientId: nat, last: nat)
    ensures FindPending(jobs, cs, clientId, last) == None ==> forall id: nat :: 0 < id <= last ==> !PendingOf(jobs, cs, clientId, id)
  {
    if last > 0 { FindsLast(jobs, cs, clientId, last - 1); }
  }

  /** A daemon that names a job ends it, if it compiled it or, speaking for the submitter, submitted it; otherwise the
      daemon is removed, and an unknown job changes nothing. */
  lemma EndById(s: State, cs: nat, m: Done)
    requires !m.unknown || m.jobId == 0
    ensures m.jobId !in s.jobs ==> JobDone(s, cs, m) == s
    ensures m.jobId in s.jobs ==>
      var job, t := s.jobs[m.jobId], JobDone(s, cs, m);
      if (m.fromServer && job.server == Some(cs)) || (!m.fromServer && job.submitter == cs)
      then t.jobs == s.jobs - {m.jobId} && t.servers.Keys == s.servers.Keys && t.queue == s.queue
      else t == RemoveDaemon(s, cs)
  {
    hide RemoveDaemon;
  }

  // ---------------------------------------------------------------- a login

  /** Every job's submitter and every job's node is there. */
  ghost predicate Housed(s: State) {
    forall id :: id in s.jobs ==> JobHoused(s.jobs[id], s.servers)
  }

  ghost predicate JobHoused(job: Job, servers: map<nat, CompileServer>) {
    job.submitter in servers && (job.server.Some? ==> job.server.value in servers)
  }

  lemma InvHoused(s: State)
    requires Inv(s)
    ensures Housed(s) && forall k :: k in s.css <==> k in s.servers
  {
    forall id | id in s.jobs ensures JobHoused(s.jobs[id], s.servers) {
      assert JobOk(s.jobs[id], id, s.newJobId, s.servers.Keys);
    }
    assert forall k :: k in s.css <==> k in Q.Elements(s.css);
  }

  /** `t` is `s` without the nodes `gone` and the jobs that they submitted or were to compile. */
  ghost predicate Left(s: State, t: State, gone: set<nat>) {
    && t.servers.Keys == s.servers.Keys - gone
    && (forall k :: k in t.css <==> k in s.css && k !in gone)
    && (forall id :: id in t.jobs <==> id in s.jobs && JobHoused(s.jobs[id], t.servers))
    && (forall id :: id in t.jobs ==> t.jobs[id] == s.jobs[id])
    && (forall k :: k in t.servers ==> SameNode(t.servers[k], s.servers[k]))
  }

  /** They differ at most in their jobs, in being busy, and in what they have blacklisted. */
  predicate SameNode(c: CompileServer, d: CompileServer) {
    c == d.(jobList := c.jobList, submittedJobsCount := c.submittedJobsCount, busyInstalling := c.busyInstalling,
            blacklist := c.blacklist)
  }

  lemma LeftOne(s: State, h: nat)
    requires Housed(s) && h in s.servers
    ensures Left(s, RemoveDaemon(s, h), {h}) && Housed(RemoveDaemon(s, h))
  {
    hide RemoveDaemon;
    GoneMeans(s, h);
    var t := RemoveDaemon(s, h);
    forall k | k in t.servers ensures SameNode(t.servers[k], s.servers[k]) { RemainsOf(s, h, k); }
    assert forall id :: id in s.jobs ==> JobHoused(s.jobs[id], s.servers);
  }

  lemma LeftBoth(s: State, t: State, u: State, a: set<nat>, b: set<nat>)
    requires Left(s, t, a) && Left(t, u, b)
    ensures Left(s, u, a + b)
  {
    assert u.servers.Keys == s.servers.Keys - (a + b);
    forall id ensures id in u.jobs <==> id in s.jobs && JobHoused(s.jobs[id], u.servers) {
    }
    forall k | k in u.servers ensures SameNode(u.servers[k], s.servers[k]) {
      assert SameNode(u.servers[k], t.servers[k]) && SameNode(t.servers[k], s.servers[k]);
    }
  }

  ghost function StaleOnes(servers: map<nat, CompileServer>, css: seq<nat>, node: CompileServer): set<nat> {
    set k | k in servers && k in css && servers[k].address == node.address && servers[k].nodeName == node.nodeName
  }

  lemma {:induction false} RemoveStaleMeans(s: State, css: seq<nat>, node: CompileServer)
    requires Housed(s)
    ensures Left(s, RemoveStale(s, css, node), StaleOnes(s.servers, css, node))
    decreases css
  {
    hide Left, RemoveDaemon, Housed;
    if css == [] {
      NoneLeft(s);
      assert StaleOnes(s.servers, css, node) == {};
    } else if css[0] in s.servers && Stale(s.servers[css[0]], node) {
      var t := RemoveDaemon(s, css[0]);
      LeftOne(s, css[0]);
      RemoveStaleMeans(t, css[1..], node);
      LeftBoth(s, t, RemoveStale(t, css[1..], node), {css[0]}, StaleOnes(t.servers, css[1..], node));
      StaleNext(s, t, css, node);
    } else {
      RemoveStaleMeans(s, css[1..], node);
      assert StaleOnes(s.servers, css, node) == StaleOnes(s.servers, css[1..], node);
    }
  }

  lemma NoneLeft(s: State)
    requires Housed(s)
    ensures Left(s, s, {})
  {
    assert forall id :: id in s.jobs ==> JobHoused(s.jobs[id], s.servers);
  }

  lemma StaleNext(s: State, t: State, css: seq<nat>, node: CompileServer)
    requires css != [] && css[0] in s.servers && Stale(s.servers[css[0]], node) && Left(s, t, {css[0]})
    ensures {css[0]} + StaleOnes(t.servers, css[1..], node) == StaleOnes(s.servers, css, node)
  {
    forall k ensures k in {css[0]} + StaleOnes(t.servers, css[1..], node) <==> k in StaleOnes(s.servers, css, node) {
      if k in t.servers { assert SameNode(t.servers[k], s.servers[k]); }
    }
  }

  /** With a login go all nodes of the same address and name, and their jobs; the new node comes last, with nothing to
      do, nothing blacklisted, and a fresh id. */
  lemma LoginMeans(s: State, node: CompileServer)
    requires Inv(s)
    ensures var t, h := SchedulerSpec.Login(s, node, false), s.hostIdCounter + 1;
      && h !in s.servers && t.css != [] && t.css[|t.css| - 1] == h
      && (forall k :: k in t.servers <==>
            || k == h
            || (k in s.servers && !(s.servers[k].address == node.address && s.servers[k].nodeName == node.nodeName)))
      && (forall id :: id in t.jobs <==> id in s.jobs && JobHoused(s.jobs[id], t.servers))
      && (forall id :: id in t.jobs ==> t.jobs[id] == s.jobs[id])
      && t.servers[h] == node.(hostId := h, busyInstalling := 0, jobList := [], submittedJobsCount := 0, lastPickId := 0,
                               clientLocalMap := [], blacklist := map[])
  {
    InvHoused(s);
    Counted(s);
    hide Inv, Housed, Left;
    RemoveStaleMeans(s, s.css, node);
    LoginFrom(s, RemoveStale(s, s.css, node), node);
  }

  lemma Counted(s: State)
    requires Inv(s)
    ensures forall k :: k in s.servers ==> k <= s.hostIdCounter
  {
  }

  lemma LoginFrom(s: State, r: State, node: CompileServer)
    requires Housed(s) && Left(s, r, StaleOnes(s.servers, s.css, node)) && r == RemoveStale(s, s.css, node)
    requires forall k :: k in s.servers ==> k <= s.hostIdCounter && k in s.css
    ensures var t, h := SchedulerSpec.Login(s, node, false), s.hostIdCounter + 1;
      && h !in s.servers && t.css != [] && t.css[|t.css| - 1] == h
      && (forall k :: k in t.servers <==>
            || k == h
            || (k in s.servers && !(s.servers[k].address == node.address && s.servers[k].nodeName == node.nodeName)))
      && (forall id :: id in t.jobs <==> id in s.jobs && JobHoused(s.jobs[id], t.servers))
      && (forall id :: id in t.jobs ==> t.jobs[id] == s.jobs[id])
      && t.servers[h] == NewNode(node, h)
  {
    hide RemoveStale, NewNode;
    var t := SchedulerSpec.Login(s, node, false);
    forall id | id in s.jobs ensures JobHoused(s.jobs[id], r.servers) <==> JobHoused(s.jobs[id], t.servers) {
      assert JobHoused(s.jobs[id], s.servers);
    }
  }

  // ---------------------------------------------------------------- messages about one node

  /** A node that was sent a ping gets no jobs of others until it answers, and then has its limit back. */
  lemma PingMeans(c: CompileServer, submitter: CompileServer, job: Job)
    ensures !EligibleEver(Touched(c, Ping(c.hostId), 0, []), submitter, job)
    ensures Touched(Touched(c, Ping(c.hostId), 0, []), Pong(c.hostId), 0, []) == c.(maxJobs := Abs(c.maxJobs))
  {
  }

  /** The other messages change one thing each. */
  lemma TouchMeans(c: CompileServer, load: nat, accepting: bool, versions: seq<Env>)
    ensures Touched(c, Stats(c.hostId, load), 0, []) == c.(load := load)
    ensures Touched(c, Connectivity(c.hostId, accepting), 0, []) == c.(acceptingInConnection := accepting)
    ensures Touched(c, Relogin(c.hostId, versions), 0, []) == c.(compilerVersions := versions, busyInstalling := 0)
  {
  }

  /** A map from client ids, in its order. */
  ghost predicate Ascending(m: seq<LocalJob>) {
    m == [] || ((forall e :: e in m[1..] ==> m[0].clientId < e.clientId) && Ascending(m[1..]))
  }

  /** The announcement of a local job replaces what was announced for that client. */
  lemma {:induction false} InsertMeans(m: seq<LocalJob>, job: LocalJob)
    requires Ascending(m)
    ensures Ascending(InsertLocal(m, job))
    ensures forall e :: e in InsertLocal(m, job) <==> e == job || (e in m && e.clientId != job.clientId)
  {
    if m != [] && m[0].clientId < job.clientId {
      InsertMeans(m[1..], job);
      assert InsertLocal(m, job)[1..] == InsertLocal(m[1..], job);
    }
  }

  /** Its end removes it. */
  lemma {:induction false} EraseMeans(m: seq<LocalJob>, clientId: int)
    requires Ascending(m)
    ensures Ascending(EraseLocal(m, clientId))
    ensures forall e :: e in EraseLocal(m, clientId) <==> e in m && e.clientId != clientId
  {
    if m != [] && m[0].clientId != clientId {
      EraseMeans(m[1..], clientId);
      assert EraseLocal(m, clientId)[1..] == EraseLocal(m[1..], clientId);
    }
  }

  lemma {:induction false} CalledMeans(servers: map<nat, CompileServer>, css: seq<nat>, hostname: string)
    ensures forall h :: h in Called(servers, css, hostname) <==> h in css && h in servers && servers[h].name == hostname
  {
    if css != [] { CalledMeans(servers, css[1..], hostname); }
  }

  lemma {:induction false} BlacklistMeans(m: map<nat, seq<Env>>, hosts: seq<nat>, env: Env, h: nat)
    ensures var r := Blacklist(m, hosts, env);
      && (h !in hosts ==> (h in r <==> h in m) && (h in m ==> r[h] == m[h]))
      && (h in hosts ==> h in r && env in r[h])
      && (h in hosts && h in r ==> forall e :: e in r[h] ==> e == env || (h in m && e in m[h]))
      && (h in hosts && h in m && h in r ==> forall e :: e in m[h] ==> e in r[h])
    decreases hosts
  {
    if hosts != [] {
      var x := hosts[0];
      BlacklistMeans(m[x := (if x in m then m[x] else []) + [env]], hosts[1..], env, h);
    }
  }

  /** A daemon that blacklists an environment does so for every node of that name, and for no other. */
  lemma BlacklistTouches(s: State, cs: nat, hostname: string, env: Env, h: nat)
    requires cs in s.servers
    ensures var b, b' := s.servers[cs].blacklist, Step(s, BlacklistEnv(cs, hostname, env)).servers[cs].blacklist;
      if h in s.css && h in s.servers && s.servers[h].name == hostname then h in b' && env in b'[h]
      else (h in b' <==> h in b) && (h in b ==> b'[h] == b[h])
  {
    var hosts := Called(s.servers, s.css, hostname);
    CalledMeans(s.servers, s.css, hostname);
    BlacklistMeans(s.servers[cs].blacklist, hosts, env, h);
    hide Called, Blacklist;
  }

  /** A local job gets the next id, and is the only one of its client. */
  lemma LocalTouches(s: State, cs: nat, clientId: int, full: bool)
    requires cs in s.servers && Ascending(s.servers[cs].clientLocalMap)
    ensures var t := Step(s, LocalBegin(cs, clientId, full));
      && t.newJobId == s.newJobId + 1 && Ascending(t.servers[cs].clientLocalMap)
      && forall e :: e in t.servers[cs].clientLocalMap <==>
           e == LocalJob(clientId, s.newJobId + 1, full) || (e in s.servers[cs].clientLocalMap && e.clientId != clientId)
  {
    InsertMeans(s.servers[cs].clientLocalMap, LocalJob(clientId, s.newJobId + 1, full));
    hide Ascending, InsertLocal;
  }

  // ---------------------------------------------------------------- how long a request waits

  /** Requests of a smaller niceness, and other submitters with requests of the same one. */
  ghost function Nicer(q: Q.Queue, niceness: int): set<nat> {
    if q == [] then {} else (if q[0].niceness < niceness then Q.Elements(q[0].l) else {}) + Nicer(q[1..], niceness)
  }

  ghost function Rivals(q: Q.Queue, submitter: nat, niceness: int): set<nat> {
    set g | g in q && g.niceness == niceness && g.submitter != submitter :: g.submitter
  }

  lemma {:induction false} AscendingSize(l: seq<nat>)
    requires Q.Ascending(l)
    ensures |Q.Elements(l)| == |l|
  {
    if l == [] {
      assert Q.Elements(l) == {};
    } else {
      var t := l[..|l| - 1];
      AscendingSize(t);
      assert Q.Elements(l) == Q.Elements(t) + {l[|l| - 1]};
    }
  }

  lemma {:induction false} NicerJobs(q: Q.Queue, niceness: int)
    ensures Nicer(q, niceness) <= Q.Jobs(q)
  {
    if q != [] { NicerJobs(q[1..], niceness); }
  }

  lemma RivalsStep(q: Q.Queue, next: nat, submitter: nat, niceness: int)
    requires q != [] && Q.WellFormed(q, next) && !Q.HasKey(q[0], submitter, niceness)
    ensures |Rivals(q, submitter, niceness)| == |Rivals(q[1..], submitter, niceness)| + if q[0].niceness == niceness then 1 else 0
  {
    var r := Rivals(q[1..], submitter, niceness);
    assert forall g :: g in q <==> g == q[0] || g in q[1..];
    if q[0].niceness == niceness {
      assert Rivals(q, submitter, niceness) == r + {q[0].submitter};
      assert q[0].submitter !in r;
    } else {
      assert Rivals(q, submitter, niceness) == r;
    }
  }

  lemma {:induction false} AheadBound(q: Q.Queue, next: nat, submitter: nat, niceness: int)
    requires Q.WellFormed(q, next) && Q.Present(q, submitter, niceness)
    ensures Q.Ahead(q, submitter, niceness) <= |Nicer(q, niceness)| + |Rivals(q, submitter, niceness)|
  {
    if !Q.HasKey(q[0], submitter, niceness) {
      Q.HeadMinimal(q, next, submitter, niceness);
      Q.TailPresent(q, submitter, niceness);
      AheadBound(q[1..], next, submitter, niceness);
      RivalsStep(q, next, submitter, niceness);
      AscendingSize(q[0].l);
      NicerJobs(q[1..], niceness);
      hide Rivals, Q.Present;
      assert Q.Elements(q[0].l) !! Nicer(q[1..], niceness);
    }
  }

  lemma {:induction false} NicerMembers(q: Q.Queue, niceness: int)
    ensures forall id :: id in Nicer(q, niceness) <==> exists g :: g in q && g.niceness < niceness && id in g.l
  {
    if q != [] {
      NicerMembers(q[1..], niceness);
      assert forall g :: g in q <==> g == q[0] || g in q[1..];
    }
  }

  ghost function PendingBelow(jobs: map<nat, Job>, niceness: int): set<nat> {
    set id | id in jobs && jobs[id].server == None && jobs[id].niceness < niceness
  }

  ghost function OthersAt(jobs: map<nat, Job>, submitter: nat, niceness: int): set<nat> {
    set id | id in jobs && jobs[id].server == None && jobs[id].niceness == niceness && jobs[id].submitter != submitter ::
      jobs[id].submitter
  }

  lemma QueueSets(s: State, submitter: nat, niceness: int)
    requires Inv(s)
    ensures Nicer(s.queue, niceness) == PendingBelow(s.jobs, niceness)
    ensures Rivals(s.queue, submitter, niceness) <= OthersAt(s.jobs, submitter, niceness)
  {
    InvQueue(s);
    NicerMembers(s.queue, niceness);
    Q.JobsMembers(s.queue);
    QueueSetsFrom(s.queue, s.jobs, s.newJobId + 1, submitter, niceness);
  }

  lemma QueueSetsFrom(q: Q.Queue, jobs: map<nat, Job>, next: nat, submitter: nat, niceness: int)
    requires Q.WellFormed(q, next) && Q.Jobs(q) == Pending(jobs) && OwnGroups(q, jobs)
    requires forall id :: id in Nicer(q, niceness) <==> exists g :: g in q && g.niceness < niceness && id in g.l
    requires forall id :: id in Q.Jobs(q) <==> exists g :: g in q && id in g.l
    ensures Nicer(q, niceness) == PendingBelow(jobs, niceness)
    ensures Rivals(q, submitter, niceness) <= OthersAt(jobs, submitter, niceness)
  {
    forall id ensures id in Nicer(q, niceness) <==> id in PendingBelow(jobs, niceness) {
      if id in Nicer(q, niceness) {
        var g :| g in q && g.niceness < niceness && id in g.l;
        assert InOwnGroup(jobs, g, id) && id in Q.Jobs(q);
      }
      if id in PendingBelow(jobs, niceness) {
        assert id in Q.Jobs(q);
        var g :| g in q && id in g.l;
        assert InOwnGroup(jobs, g, id);
      }
    }
    forall h | h in Rivals(q, submitter, niceness) ensures h in OthersAt(jobs, submitter, niceness) {
      var g :| g in q && g.niceness == niceness && g.submitter != submitter && g.submitter == h;
      var k :| 0 <= k < |q| && q[k] == g;
      Q.MemberGood(q, next, k);
      var id := g.l[0];
      assert InOwnGroup(jobs, g, id) && id in Q.Jobs(q);
    }
  }

  /** Bounded bypass in numbers: while a submitter's requests at some niceness wait, the scheduler serves others at most
      once for each request of a smaller niceness and each other submitter with requests of the same niceness that
      waited at the start, and once for each request of a smaller niceness that came in since. */
  lemma BypassNumbers(s: State, es: seq<Event>, submitter: nat, niceness: int)
    requires Inv(s) && Waits(s, es, submitter, niceness)
    ensures DispatchCount(s, es, submitter, niceness)
         <= |PendingBelow(s.jobs, niceness)| + |OthersAt(s.jobs, submitter, niceness)| + OvertakeCount(es, niceness)
  {
    hide Inv, Q.Ahead, PendingBelow, OthersAt, DispatchCount, OvertakeCount, Q.Present, Nicer, Rivals;
    BoundedBypass(s, es, submitter, niceness);
    InvQueue(s);
    AheadBound(s.queue, s.newJobId + 1, submitter, niceness);
    QueueSets(s, submitter, niceness);
    Algo.SubsetCount(Rivals(s.queue, submitter, niceness), OthersAt(s.jobs, submitter, niceness));
  }
}
