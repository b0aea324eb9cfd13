/** Every message keeps the scheduler's structures in agreement. */
module SchedulerInv {
  import opened Common
  import opened CompileServers
  import opened SchedulerSpec
  import Q = JobQueue

  // ---------------------------------------------------------------- updating one node

  /** Changing what the invariant does not speak about (load, local jobs, environments, blacklist,
      connectivity, the sign of maxJobs) keeps it. */
  ghost predicate SameBooks(c: CompileServer, c': CompileServer) {
    && c'.hostId == c.hostId
    && c'.jobList == c.jobList
    && c'.submittedJobsCount == c.submittedJobsCount
    && Capacity(c'.maxJobs) == Capacity(c.maxJobs)
  }

  lemma TouchKeeps(s: State, h: nat, c': CompileServer)
    requires Inv(s) && h in s.servers && SameBooks(s.servers[h], c')
    ensures Inv(s.(servers := s.servers[h := c']))
  {
    hide JobsOk, QueueOk, CssOk, ClientsOk, ServerOk, SameBooks;
    var s' := s.(servers := s.servers[h := c']);
    assert s'.servers.Keys == s.servers.Keys;
    forall x | x in s'.servers ensures ServerOk(s'.servers[x], s.jobs, x, {}) {
      if x == h { BooksOk(s.servers[h], c', s.jobs, h); }
    }
  }

  // ---------------------------------------------------------------- a new request

  ghost predicate FreshClient(jobs: map<nat, Job>, cs: nat, clientId: nat) {
    forall id :: id in Pending(jobs) ==> !(jobs[id].submitter == cs && jobs[id].localClientId == clientId)
  }

  lemma SubmitQueue(q: Q.Queue, jobs: map<nat, Job>, job: Job)
    requires QueueOk(q, jobs, job.id) && job.id !in jobs && job.server == None
    ensures QueueOk(Q.Enqueue(q, job.id, job.submitter, job.niceness), jobs[job.id := job], job.id + 1)
  {
    var q' := Q.Enqueue(q, job.id, job.submitter, job.niceness);
    var jobs' := jobs[job.id := job];
    Q.EnqueueKeeps(q, job.id, job.submitter, job.niceness);
    assert Pending(jobs') == Pending(jobs) + {job.id};
    forall g, x | g in q' && x in g.l ensures InOwnGroup(jobs', g, x) {
      Q.EnqueueCovered(q, job.id, job.submitter, job.niceness, g, x);
      if Q.Covers(q, g, x) {
        var g0 :| g0 in q && Q.SameKey(g, g0) && x in g0.l;
        assert InOwnGroup(jobs, g0, x);
      }
    }
  }

  lemma ListMembers(l: seq<nat>, jobs: map<nat, Job>, h: nat, limbo: set<nat>, id: nat)
    requires ListOk(l, jobs, h, limbo) && id in l
    ensures id in jobs && jobs[id].server == Some(h)
  {
    assert id in Q.Elements(l);
  }

  /** A new pending job changes no list and no bound. */
  lemma SubmitServer(c: CompileServer, jobs: map<nat, Job>, job: Job, h: nat)
    requires ServerOk(c, jobs, h, {}) && job.id !in jobs && job.server == None
    ensures ListOk(c.jobList, jobs[job.id := job], h, {})
    ensures BoundOk(c, jobs[job.id := job], h)
  {
    var jobs' := jobs[job.id := job];
    assert On(jobs', h) == On(jobs, h);
    forall x | x in c.jobList ensures x in jobs && x != job.id { ListMembers(c.jobList, jobs, h, {}, x); }
    ForeignSame(c.jobList, jobs, jobs', h);
  }

  lemma SubmitCount(jobs: map<nat, Job>, job: Job, h: nat)
    requires job.id !in jobs
    ensures |By(jobs[job.id := job], h)| == |By(jobs, h)| + if job.submitter == h then 1 else 0
  {
    var jobs' := jobs[job.id := job];
    if job.submitter == h {
      assert By(jobs', h) == By(jobs, h) + {job.id};
    } else {
      assert By(jobs', h) == By(jobs, h);
    }
  }

  lemma SubmitServers(servers: map<nat, CompileServer>, jobs: map<nat, Job>, job: Job)
    requires ServersOk(servers, jobs, {}) && job.id !in jobs && job.server == None && job.submitter in servers
    ensures var c := servers[job.submitter];
            ServersOk(servers[job.submitter := c.(submittedJobsCount := c.submittedJobsCount + 1)], jobs[job.id := job], {})
  {
    var c := servers[job.submitter];
    var servers' := servers[job.submitter := c.(submittedJobsCount := c.submittedJobsCount + 1)];
    forall h | h in servers' ensures ServerOk(servers'[h], jobs[job.id := job], h, {}) {
      SubmitServer(servers[h], jobs, job, h);
      SubmitCount(jobs, job, h);
    }
  }

  lemma SubmitJobs(jobs: map<nat, Job>, last: nat, nodes: set<nat>, job: Job)
    requires JobsOk(jobs, last, nodes) && ClientsOk(jobs)
    requires JobOk(job, last + 1, last + 1, nodes) && job.server == None
    requires FreshClient(jobs, job.submitter, job.localClientId)
    ensures job.id !in jobs
    ensures JobsOk(jobs[job.id := job], last + 1, nodes) && ClientsOk(jobs[job.id := job])
  {
    assert job.id in jobs ==> JobOk(jobs[job.id], job.id, last, nodes);
    var jobs' := jobs[job.id := job];
    forall id | id in jobs' ensures JobOk(jobs'[id], id, last + 1, nodes) {
      if id != job.id { assert JobOk(jobs[id], id, last, nodes); }
    }
    assert Pending(jobs') == Pending(jobs) + {job.id};
  }

  lemma SubmitKeeps(s: State, cs: nat, r: Request)
    requires Inv(s) && cs in s.servers && FreshClient(s.jobs, cs, r.clientId)
    ensures Inv(Submit(s, cs, r))
  {
    hide JobsOk, QueueOk, ServersOk, CssOk, ClientsOk, FreshClient, Q.Enqueue, Clamp;
    var s' := Submit(s, cs, r);
    var job := NewJob(s.newJobId + 1, cs, r);
    SubmitJobs(s.jobs, s.newJobId, s.servers.Keys, job);
    SubmitQueue(s.queue, s.jobs, job);
    SubmitServers(s.servers, s.jobs, job);
    assert s'.servers.Keys == s.servers.Keys;
  }

  // ---------------------------------------------------------------- a daemon goes

  lemma RemoveServer(c: CompileServer, jobs: map<nat, Job>, dead: set<nat>, limbo: set<nat>, h: nat)
    requires ServerOk(c, jobs, h, limbo) && limbo <= dead
    ensures ServerOk(Relieved(c, h, jobs, dead), jobs - dead, h, {})
  {
    KeepMembers(c.jobList, dead);
    assert On(jobs - dead, h) == On(jobs, h) - dead;
    forall id | id in c.jobList ensures id in jobs { ListMembers(c.jobList, jobs, h, limbo, id); }
    ForeignKeep(c.jobList, jobs, jobs - dead, dead, h);
  }

  lemma RemoveQueue(q: Q.Queue, jobs: map<nat, Job>, next: nat, t: nat, dead: set<nat>)
    requires QueueOk(q, jobs, next)
    requires forall id :: id in Pending(jobs) ==> (id in dead <==> jobs[id].submitter == t)
    ensures QueueOk(Q.DropSubmitter(q, t), jobs - dead, next)
  {
    var q', jobs' := Q.DropSubmitter(q, t), jobs - dead;
    Q.DropSubmitterKeeps(q, t, next);
    Q.DropSubmitterMembers(q, t);
    Q.JobsMembers(q);
    Q.JobsMembers(q');
    forall g, id | g in q' && id in g.l ensures InOwnGroup(jobs', g, id) && id in Pending(jobs') {
      assert InOwnGroup(jobs, g, id);
      assert id in Q.Jobs(q);
    }
    forall id | id in Pending(jobs') ensures id in Q.Jobs(q') {
      assert id in Q.Jobs(q);
      var g :| g in q && id in g.l;
      assert InOwnGroup(jobs, g, id);
      assert g in q';
    }
  }

  lemma RemoveServers(servers: map<nat, CompileServer>, jobs: map<nat, Job>, dead: set<nat>, limbo: set<nat>, t: nat)
    requires ServersOk(servers, jobs, limbo) && limbo <= dead
    ensures ServersOk(Forget(Relieve(servers, jobs, dead), t), jobs - dead, {})
    ensures Forget(Relieve(servers, jobs, dead), t).Keys == servers.Keys - {t}
  {
    var servers' := Forget(Relieve(servers, jobs, dead), t);
    forall h | h in servers' ensures ServerOk(servers'[h], jobs - dead, h, {}) {
      RemoveServer(servers[h], jobs, dead, limbo, h);
    }
  }

  lemma RemoveJobs(jobs: map<nat, Job>, last: nat, nodes: set<nat>, t: nat)
    requires JobsOk(jobs, last, nodes) && ClientsOk(jobs)
    ensures JobsOk(jobs - Involving(jobs, t), last, nodes - {t})
    ensures ClientsOk(jobs - Involving(jobs, t))
  {
    var jobs' := jobs - Involving(jobs, t);
    forall id | id in jobs' ensures JobOk(jobs'[id], id, last, nodes - {t}) {
      assert JobOk(jobs[id], id, last, nodes);
    }
    assert Pending(jobs') <= Pending(jobs);
  }

  lemma RemoveCss(css: seq<nat>, nodes: set<nat>, counter: nat, t: nat)
    requires CssOk(css, nodes, counter)
    ensures CssOk(Keep(css, {t}), nodes - {t}, counter)
  {
    KeepMembers(css, {t});
  }

  /** Removing a daemon restores the invariant even for jobs of that daemon that are still in limbo. */
  lemma RemoveDaemonKeeps(s: State, t: nat, limbo: set<nat>)
    requires InvBut(s, limbo) && limbo <= By(s.jobs, t)
    ensures Inv(RemoveDaemon(s, t))
  {
    hide JobsOk, QueueOk, ServersOk, CssOk, ClientsOk;
    var dead := Involving(s.jobs, t);
    RemoveQueue(s.queue, s.jobs, s.newJobId + 1, t, dead);
    RemoveCss(s.css, s.servers.Keys, s.hostIdCounter, t);
    RemoveServers(s.servers, s.jobs, dead, limbo, t);
    RemoveJobs(s.jobs, s.newJobId, s.servers.Keys, t);
  }

  lemma DaemonGoneKeeps(s: State, t: nat)
    requires Inv(s)
    ensures Inv(RemoveDaemon(s, t))
  {
    RemoveDaemonKeeps(s, t, {});
  }

  // ---------------------------------------------------------------- a dispatch

  lemma InvHasHead(s: State)
    requires Inv(s) && s.queue != []
    ensures HasHead(s) && Head(s).server == None && Head(s).id in Pending(s.jobs)
  {
    var g := s.queue[0];
    assert g in s.queue && g.l[0] in g.l;
    assert InOwnGroup(s.jobs, g, g.l[0]);
    assert JobOk(s.jobs[g.l[0]], g.l[0], s.newJobId, s.servers.Keys);
    Q.JobsMembers(s.queue);
    assert forall h :: h in s.css ==> h in Q.Elements(s.css);
  }

  lemma AssignQueue(q: Q.Queue, jobs: map<nat, Job>, next: nat, job: Job)
    requires QueueOk(q, jobs, next) && q != [] && q[0].l[0] == job.id && job.id in jobs && job.server.Some?
    ensures QueueOk(Q.Dispatch(q), jobs[job.id := job], next)
  {
    var q', jobs' := Q.Dispatch(q), jobs[job.id := job];
    Q.RemovalKeeps(q, 0, job.id, next);
    assert Pending(jobs') == Pending(jobs) - {job.id};
    Q.JobsMembers(q');
    forall g, x | g in q' && x in g.l ensures InOwnGroup(jobs', g, x) {
      Q.RemovalCovered(q, 0, job.id, g, x);
      var g0 :| g0 in q && Q.SameKey(g, g0) && x in g0.l;
      assert InOwnGroup(jobs, g0, x);
      assert x in Q.Jobs(q');
    }
  }

  /** Reassigning a job that no list holds yet leaves every node's books in order, but for the missing entry. */
  lemma AssignServer(c: CompileServer, jobs: map<nat, Job>, job: Job, h: nat)
    requires ServerOk(c, jobs, h, {}) && job.id in jobs && jobs[job.id].server == None
    requires job.submitter == jobs[job.id].submitter
    ensures ServerOk(c, jobs[job.id := job], h, {job.id})
  {
    var jobs' := jobs[job.id := job];
    assert On(jobs', h) - {job.id} == On(jobs, h);
    assert By(jobs', h) == By(jobs, h);
    forall x | x in c.jobList ensures x in jobs { ListMembers(c.jobList, jobs, h, {}, x); }
    ForeignSame(c.jobList, jobs, jobs', h);
  }

  lemma AssignServers(servers: map<nat, CompileServer>, jobs: map<nat, Job>, job: Job)
    requires ServersOk(servers, jobs, {}) && job.id in jobs && jobs[job.id].server == None
    requires job.submitter == jobs[job.id].submitter
    ensures ServersOk(servers, jobs[job.id := job], {job.id})
  {
    forall h | h in servers ensures ServerOk(servers[h], jobs[job.id := job], h, {job.id}) {
      AssignServer(servers[h], jobs, job, h);
    }
  }

  lemma UpdateJobs(jobs: map<nat, Job>, last: nat, nodes: set<nat>, job: Job)
    requires JobsOk(jobs, last, nodes) && ClientsOk(jobs) && job.id in jobs
    requires JobOk(job, job.id, last, nodes) && job.server.Some?
    ensures JobsOk(jobs[job.id := job], last, nodes) && ClientsOk(jobs[job.id := job])
  {
    var jobs' := jobs[job.id := job];
    forall id | id in jobs' ensures JobOk(jobs'[id], id, last, nodes) {
      assert id != job.id ==> JobOk(jobs[id], id, last, nodes);
    }
    assert Pending(jobs') <= Pending(jobs);
  }

  lemma AssignedOk(jobs: map<nat, Job>, last: nat, nodes: set<nat>, id: nat, c: nat)
    requires JobsOk(jobs, last, nodes) && id in jobs && c in nodes
    ensures var job := jobs[id].(state := WAITINGFORCS, server := Some(c)); job.id == id && JobOk(job, id, last, nodes)
  {
    assert JobOk(jobs[id], id, last, nodes);
  }

  lemma AssignKeeps(s: State, c: nat)
    requires Inv(s) && HasHead(s) && Head(s).server == None && c in s.servers
    ensures InvBut(Assign(s, c), {Head(s).id})
  {
    hide JobsOk, QueueOk, ServersOk, CssOk, ClientsOk, JobOk;
    var job := Head(s).(state := WAITINGFORCS, server := Some(c));
    AssignedOk(s.jobs, s.newJobId, s.servers.Keys, job.id, c);
    UpdateJobs(s.jobs, s.newJobId, s.servers.Keys, job);
    AssignQueue(s.queue, s.jobs, s.newJobId + 1, job);
    AssignServers(s.servers, s.jobs, job);
  }

  lemma ReservedNonNegative(m: seq<LocalJob>, maxJobs: int)
    requires maxJobs >= 0
    ensures Reserved(m, maxJobs) >= 0
  {
  }

  /** A node with room for a job of somebody else stays within its capacity. */
  lemma RoomBounds(c: CompileServer, jobs: map<nat, Job>, h: nat)
    requires c.maxJobs > 0 && HasRoom(c)
    ensures Foreign(c.jobList, jobs, h) < Capacity(c.maxJobs)
  {
    ForeignAppend(c.jobList, 0, jobs, h);
    ReservedNonNegative(c.clientLocalMap, c.maxJobs);
  }

  lemma DeliverServer(c: CompileServer, c': CompileServer, jobs: map<nat, Job>, id: nat, h: nat)
    requires ServerOk(c, jobs, h, {id}) && id in On(jobs, h)
    requires jobs[id].submitter == h || Foreign(c.jobList, jobs, h) < Capacity(c.maxJobs)
    requires c' == c.(lastPickId := c'.lastPickId, busyInstalling := c'.busyInstalling, jobList := c.jobList + [id])
    ensures ServerOk(c', jobs, h, {})
  {
    assert id !in Q.Elements(c.jobList);
    NoDupAppend(c.jobList, id);
    assert Q.Elements(c.jobList + [id]) == Q.Elements(c.jobList) + {id};
    ForeignAppend(c.jobList, id, jobs, h);
  }

  lemma DeliverServers(servers: map<nat, CompileServer>, jobs: map<nat, Job>, c': CompileServer, id: nat, h: nat)
    requires ServersOk(servers, jobs, {id}) && h in servers && id in On(jobs, h)
    requires jobs[id].submitter == h || Foreign(servers[h].jobList, jobs, h) < Capacity(servers[h].maxJobs)
    requires c' == servers[h].(lastPickId := c'.lastPickId, busyInstalling := c'.busyInstalling,
                               jobList := servers[h].jobList + [id])
    ensures ServersOk(servers[h := c'], jobs, {})
  {
    forall x | x in servers ensures ServerOk(servers[h := c'][x], jobs, x, {}) {
      assert ServerOk(servers[x], jobs, x, {id});
      if x == h {
        DeliverServer(servers[h], c', jobs, id, h);
      } else {
        assert On(jobs, x) - {id} == On(jobs, x);
      }
    }
  }

  lemma DeliverKeeps(s: State, id: nat, c: nat, now: nat)
    requires InvBut(s, {id}) && id in On(s.jobs, c) && c in s.servers
    requires s.jobs[id].submitter == c || Foreign(s.servers[c].jobList, s.jobs, c) < Capacity(s.servers[c].maxJobs)
    ensures Inv(Deliver(s, id, c, now))
  {
    hide JobsOk, QueueOk, ServersOk, CssOk, ClientsOk, Foreign;
    var s' := Deliver(s, id, c, now);
    DeliverServers(s.servers, s.jobs, s'.servers[c], id, c);
    assert s'.servers.Keys == s.servers.Keys;
  }

  /** Only the submitter itself can be given a job without having room for it now. */
  lemma AssignedHasRoom(s: State, job: Job, r: Option<nat>)
    requires Known(s, job) && MayPick(s, job, r) && Target(s, job, r).Some?
    ensures var c := Target(s, job, r).value;
            c == job.submitter || EligibleNow(s.servers[c], s.servers[job.submitter], job)
  {
  }

  lemma EmptyQueueKeeps(s: State, r: Option<nat>, sent: bool, now: nat)
    requires Inv(s) && HasHead(s) && MayPick(s, Head(s), r)
    ensures Inv(EmptyQueue(s, r, sent, now))
  {
    hide InvBut, MayPick, Target, Deliver, RemoveDaemon, Known;
    var job := Head(s);
    var t := Target(s, job, r);
    if t.Some? {
      var c := t.value;
      InvHasHead(s);
      AssignedHasRoom(s, job, r);
      AssignKeeps(s, c);
      var s1 := Assign(s, c);
      if sent {
        if c != job.submitter { RoomBounds(s.servers[c], s1.jobs, c); }
        DeliverKeeps(s1, job.id, c, now);
      } else {
        RemoveDaemonKeeps(s1, job.submitter, {job.id});
      }
    }
  }

  // ---------------------------------------------------------------- begin and end of a job

  /** A change of state of an assigned job concerns nobody else. */
  lemma RelabelQueue(q: Q.Queue, jobs: map<nat, Job>, next: nat, job: Job)
    requires QueueOk(q, jobs, next) && job.id in jobs && jobs[job.id].server.Some? && job.server.Some?
    ensures QueueOk(q, jobs[job.id := job], next)
  {
    var jobs' := jobs[job.id := job];
    assert Pending(jobs') == Pending(jobs);
    Q.JobsMembers(q);
    forall g, x | g in q && x in g.l ensures InOwnGroup(jobs', g, x) {
      assert InOwnGroup(jobs, g, x);
      assert x in Q.Jobs(q);
    }
  }

  lemma RelabelServers(servers: map<nat, CompileServer>, jobs: map<nat, Job>, job: Job)
    requires ServersOk(servers, jobs, {}) && job.id in jobs
    requires jobs[job.id].server == job.server && jobs[job.id].submitter == job.submitter
    ensures ServersOk(servers, jobs[job.id := job], {})
  {
    var jobs' := jobs[job.id := job];
    forall h | h in servers ensures ServerOk(servers[h], jobs', h, {}) {
      assert On(jobs', h) == On(jobs, h) && By(jobs', h) == By(jobs, h);
      var l := servers[h].jobList;
      assert ServerOk(servers[h], jobs, h, {});
      forall x | x in l ensures x in jobs { ListMembers(l, jobs, h, {}, x); }
      ForeignSame(l, jobs, jobs', h);
    }
  }

  lemma BegunOk(jobs: map<nat, Job>, last: nat, nodes: set<nat>, id: nat)
    requires JobsOk(jobs, last, nodes) && id in jobs && jobs[id].server.Some?
    ensures var job := jobs[id].(state := COMPILING); job.id == id && JobOk(job, id, last, nodes)
  {
    assert JobOk(jobs[id], id, last, nodes);
  }

  lemma JobBeginKeeps(s: State, cs: nat, id: nat)
    requires Inv(s)
    ensures Inv(JobBegin(s, cs, id))
  {
    hide JobsOk, QueueOk, ServersOk, CssOk, ClientsOk, JobOk;
    if id in s.jobs && s.jobs[id].server == Some(cs) {
      var job := s.jobs[id].(state := COMPILING);
      BegunOk(s.jobs, s.newJobId, s.servers.Keys, id);
      UpdateJobs(s.jobs, s.newJobId, s.servers.Keys, job);
      RelabelQueue(s.queue, s.jobs, s.newJobId + 1, job);
      RelabelServers(s.servers, s.jobs, job);
    }
  }

  lemma DequeueKeeps(q: Q.Queue, jobs: map<nat, Job>, next: nat, id: nat)
    requires QueueOk(q, jobs, next) && id in Pending(jobs) && jobs[id].id == id
    ensures QueueOk(Dequeue(q, jobs[id]), jobs - {id}, next)
  {
    var jobs' := jobs - {id};
    Q.JobsMembers(q);
    assert id in Q.Jobs(q);
    var g :| g in q && id in g.l;
    assert InOwnGroup(jobs, g, id);
    Q.FindOwner(q, next, g);
    var k := Q.Find(q, jobs[id].submitter, jobs[id].niceness);
    var q' := Q.Cancel(q, k, id);
    Q.RemovalKeeps(q, k, id, next);
    Q.JobsMembers(q');
    assert Pending(jobs') == Pending(jobs) - {id};
    forall h, x | h in q' && x in h.l ensures InOwnGroup(jobs', h, x) {
      Q.RemovalCovered(q, k, id, h, x);
      var h0 :| h0 in q && Q.SameKey(h, h0) && x in h0.l;
      assert InOwnGroup(jobs, h0, x);
      assert x in Q.Jobs(q');
    }
  }

  lemma UnqueuedKeeps(q: Q.Queue, jobs: map<nat, Job>, next: nat, id: nat)
    requires QueueOk(q, jobs, next) && id in jobs && jobs[id].server.Some?
    ensures QueueOk(q, jobs - {id}, next)
  {
    var jobs' := jobs - {id};
    assert Pending(jobs') == Pending(jobs);
    Q.JobsMembers(q);
    forall g, x | g in q && x in g.l ensures InOwnGroup(jobs', g, x) {
      assert InOwnGroup(jobs, g, x);
      assert x in Q.Jobs(q);
    }
  }

  lemma ByMinus(jobs: map<nat, Job>, id: nat, h: nat)
    requires id in jobs
    ensures |By(jobs - {id}, h)| == |By(jobs, h)| - if jobs[id].submitter == h then 1 else 0
  {
    assert By(jobs - {id}, h) == By(jobs, h) - {id};
  }

  lemma EndJobBooks(servers: map<nat, CompileServer>, jobs: map<nat, Job>, id: nat, h: nat)
    requires ServersOk(servers, jobs, {}) && id in jobs && jobs[id].id == id && h in servers
    ensures var servers' := Discount(Unlist(servers, jobs[id]), jobs[id].submitter);
            servers'.Keys == servers.Keys && SameBooks(Relieved(servers[h], h, jobs, {id}), servers'[h])
  {
    hide On, By, NoDup, BoundOk;
    assert ServerOk(servers[h], jobs, h, {});
    ByMinus(jobs, id, h);
    OnIs(jobs, id, h);
    var l := servers[h].jobList;
    if jobs[id].server != Some(h) {
      assert id !in Q.Elements(l);
      KeepAll(l, {id});
    }
  }

  lemma OnIs(jobs: map<nat, Job>, id: nat, h: nat)
    requires id in jobs
    ensures id in On(jobs, h) <==> jobs[id].server == Some(h)
    ensures {id} !! On(jobs, h) <==> jobs[id].server != Some(h)
  {
  }

  lemma BooksOk(c: CompileServer, c': CompileServer, jobs: map<nat, Job>, h: nat)
    requires ServerOk(c, jobs, h, {}) && SameBooks(c, c')
    ensures ServerOk(c', jobs, h, {})
  {
  }

  lemma EndJobServers(servers: map<nat, CompileServer>, jobs: map<nat, Job>, id: nat)
    requires ServersOk(servers, jobs, {}) && id in jobs && jobs[id].id == id
    ensures var servers' := Discount(Unlist(servers, jobs[id]), jobs[id].submitter);
            servers'.Keys == servers.Keys && ServersOk(servers', jobs - {id}, {})
  {
    var servers' := Discount(Unlist(servers, jobs[id]), jobs[id].submitter);
    forall h | h in servers ensures h in servers' && ServerOk(servers'[h], jobs - {id}, h, {}) {
      EndJobBooks(servers, jobs, id, h);
      hide SameBooks, ListOk, CountOk, BoundOk, Relieved, Discount, Unlist;
      RemoveServer(servers[h], jobs, {id}, {}, h);
      BooksOk(Relieved(servers[h], h, jobs, {id}), servers'[h], jobs - {id}, h);
    }
  }

  lemma FewerJobs(jobs: map<nat, Job>, last: nat, nodes: set<nat>, id: nat)
    requires JobsOk(jobs, last, nodes) && ClientsOk(jobs)
    ensures JobsOk(jobs - {id}, last, nodes) && ClientsOk(jobs - {id})
    ensures id in jobs ==> jobs[id].id == id && jobs[id].submitter in nodes
  {
    assert id in jobs ==> JobOk(jobs[id], id, last, nodes);
    forall x | x in jobs - {id} ensures JobOk((jobs - {id})[x], x, last, nodes) {
      assert JobOk(jobs[x], x, last, nodes);
    }
    assert Pending(jobs - {id}) <= Pending(jobs);
  }

  lemma EndJobKeeps(s: State, id: nat, byClient: bool)
    requires Inv(s) && id in s.jobs && (byClient <==> s.jobs[id].server == None)
    ensures Inv(EndJob(s, id, byClient))
  {
    hide JobsOk, QueueOk, ServersOk, CssOk, ClientsOk, Dequeue, Discount, Unlist;
    FewerJobs(s.jobs, s.newJobId, s.servers.Keys, id);
    EndJobServers(s.servers, s.jobs, id);
    if byClient {
      DequeueKeeps(s.queue, s.jobs, s.newJobId + 1, id);
    } else {
      UnqueuedKeeps(s.queue, s.jobs, s.newJobId + 1, id);
    }
  }

  /** An honest report keeps the books. */
  lemma JobDoneKeeps(s: State, cs: nat, m: Done)
    requires Inv(s) && Honest(s, m)
    ensures Inv(JobDone(s, cs, m))
  {
    hide Inv;
    var n := Named(s, cs, m);
    if n.Some? && n.value in s.jobs {
      var id := n.value;
      if if m.fromServer then s.jobs[id].server != Some(cs) else s.jobs[id].submitter != cs {
        DaemonGoneKeeps(s, cs);
      } else {
        EndJobKeeps(s, id, UnknownClient(m) != 0);
      }
    }
  }

  /** A report that names a job keeps the books and reads no missing node if and only if it is honest, or names by
      id the job of another daemon as its own, which only gets the sender removed. */
  lemma DoneNeedsTold(s: State, cs: nat, m: Done)
    requires Inv(s) && Named(s, cs, m).Some? && Named(s, cs, m).value in s.jobs
    ensures Inv(JobDone(s, cs, m)) && NodeThere(s, cs, m)
       <==> Honest(s, m) || (UnknownClient(m) == 0 && !m.fromServer && s.jobs[m.jobId].submitter != cs)
  {
    var id := Named(s, cs, m).value;
    if UnknownClient(m) != 0 {
      DoneByClient(s, cs, m, id);
    } else if s.jobs[id].server.Some? {
      JobDoneKeeps(s, cs, m);
    } else if !m.fromServer {
      if s.jobs[id].submitter == cs {
        QueuedEnd(s, id);
      } else {
        hide Inv;
        DaemonGoneKeeps(s, cs);
      }
    }
  }

  lemma DoneByClient(s: State, cs: nat, m: Done, id: nat)
    requires Inv(s) && UnknownClient(m) != 0 && Named(s, cs, m) == Some(id) && id in s.jobs
    ensures Inv(JobDone(s, cs, m)) && NodeThere(s, cs, m) <==> Honest(s, m)
  {
    hide Inv;
    assert s.jobs[id].server == None && s.jobs[id].submitter == cs;
    if Honest(s, m) { JobDoneKeeps(s, cs, m); }
  }

  /** A job deleted by its id while it is queued would stay in the queue. */
  lemma QueuedEnd(s: State, id: nat)
    requires Inv(s) && id in s.jobs && s.jobs[id].server == None
    ensures !Inv(EndJob(s, id, false))
  {
    assert id in Pending(s.jobs) && id !in Pending(s.jobs - {id});
  }

  // ---------------------------------------------------------------- logging in

  lemma {:induction false} RemoveStaleKeeps(s: State, css: seq<nat>, node: CompileServer)
    requires Inv(s)
    ensures Inv(RemoveStale(s, css, node))
    ensures RemoveStale(s, css, node).hostIdCounter == s.hostIdCounter
    decreases css
  {
    hide Inv;
    if css != [] {
      if css[0] in s.servers && Stale(s.servers[css[0]], node) {
        DaemonGoneKeeps(s, css[0]);
        RemoveStaleKeeps(RemoveDaemon(s, css[0]), css[1..], node);
      } else {
        RemoveStaleKeeps(s, css[1..], node);
      }
    }
  }

  lemma NewServers(servers: map<nat, CompileServer>, jobs: map<nat, Job>, last: nat, node: CompileServer, h: nat)
    requires ServersOk(servers, jobs, {}) && JobsOk(jobs, last, servers.Keys) && h !in servers
    ensures ServersOk(servers[h := NewNode(node, h)], jobs, {})
  {
    var servers' := servers[h := NewNode(node, h)];
    assert Q.Elements([]) == {};
    assert On(jobs, h) == {} && By(jobs, h) == {} by {
      assert forall id :: id in jobs ==> JobOk(jobs[id], id, last, servers.Keys);
    }
    forall x | x in servers' ensures ServerOk(servers'[x], jobs, x, {}) {
      assert x != h ==> ServerOk(servers[x], jobs, x, {});
    }
  }

  lemma MoreNodes(jobs: map<nat, Job>, last: nat, nodes: set<nat>, h: nat)
    requires JobsOk(jobs, last, nodes)
    ensures JobsOk(jobs, last, nodes + {h})
  {
    forall id | id in jobs ensures JobOk(jobs[id], id, last, nodes + {h}) {
      assert JobOk(jobs[id], id, last, nodes);
    }
  }

  lemma NewCss(css: seq<nat>, nodes: set<nat>, counter: nat)
    requires CssOk(css, nodes, counter)
    ensures counter + 1 !in nodes
    ensures CssOk(css + [counter + 1], nodes + {counter + 1}, counter + 1)
    ensures CssOk(css, nodes, counter + 1)
  {
    assert counter + 1 !in Q.Elements(css);
    NoDupAppend(css, counter + 1);
    assert Q.Elements(css + [counter + 1]) == Q.Elements(css) + {counter + 1};
  }

  lemma LoginKeeps(s: State, node: CompileServer, blocked: bool)
    requires Inv(s)
    ensures Inv(Login(s, node, blocked))
  {
    hide JobsOk, QueueOk, ServersOk, CssOk, ClientsOk;
    var h := s.hostIdCounter + 1;
    RemoveStaleKeeps(s, s.css, node);
    var r := RemoveStale(s, s.css, node);
    NewCss(s.css, s.servers.Keys, s.hostIdCounter);
    NewCss(r.css, r.servers.Keys, s.hostIdCounter);
    NewServers(r.servers, r.jobs, r.newJobId, node, h);
    MoreNodes(r.jobs, r.newJobId, r.servers.Keys, h);
    assert r.servers[h := NewNode(node, h)].Keys == r.servers.Keys + {h};
  }

  lemma LocalIdKeeps(s: State)
    requires Inv(s)
    ensures Inv(s.(newJobId := s.newJobId + 1))
  {
    var s' := s.(newJobId := s.newJobId + 1);
    forall id | id in s.jobs ensures JobOk(s.jobs[id], id, s'.newJobId, s.servers.Keys) {
      assert JobOk(s.jobs[id], id, s.newJobId, s.servers.Keys);
    }
    Q.Later(s.queue, s.newJobId + 1, s'.newJobId + 1);
  }

  lemma Shape(s: State)
    requires Inv(s)
    ensures Q.WellFormed(s.queue, s.newJobId + 1)
  {
  }
}
