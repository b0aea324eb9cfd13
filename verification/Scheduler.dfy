/** The scheduler as the program it is: global structures changed in place by the message handlers
    (scheduler/scheduler.cpp). Jobs and nodes live in stores keyed by id, so that `delete` removes them and
    every use of a deleted one is ruled out. */
module Scheduler {
  import opened Common
  import opened CompileServers
  import opened SchedulerSpec
  import opened SchedulerInv
  import opened SchedulerFacts
  import opened SchedulingAlgo
  import Runs = SchedulerRuns
  import Q = JobQueue

  datatype Algorithm = RANDOM | ROUND_ROBIN | LEAST_BUSY | FASTEST

  /** Round robin and least-busy also promise which node of the pool they take. */
  ghost predicate Chosen(s: State, job: Job, algorithm: Algorithm, weight: nat, c: nat)
    requires Known(s, job) && c in s.servers
  {
    PoolServes(s, job);
    var pool := Pool(s, job, s.css);
    match algorithm
    case ROUND_ROBIN => forall h :: h in pool ==> s.servers[c].lastPickId <= s.servers[h].lastPickId
    case LEAST_BUSY => exists m: real ::
      && MinLoad(pool, s.servers, weight, m)
      && Loadable(s.servers[c], weight, m + EPSILON)
      && forall h :: h in pool && Loadable(s.servers[h], weight, m + EPSILON) ==>
           s.servers[c].lastPickId <= s.servers[h].lastPickId
    case _ => true
  }

  lemma AloneChosen(s: State, job: Job, algorithm: Algorithm, weight: nat)
    requires Known(s, job) && |Pool(s, job, s.css)| == 1
    ensures Pool(s, job, s.css)[0] in s.servers && Chosen(s, job, algorithm, weight, Pool(s, job, s.css)[0])
  {
    PoolServes(s, job);
    hide Pool, Offered, MayPick;
    var c := Pool(s, job, s.css)[0];
    assert forall h :: h in Pool(s, job, s.css) ==> h == c;
    if algorithm == LEAST_BUSY {
      var m := ServerLoad(s.servers[c], weight);
      assert Loadable(s.servers[c], weight, m);
      assert MinLoad(Pool(s, job, s.css), s.servers, weight, m);
    }
  }

  class Scheduler {
    var jobs: map<nat, Job>
    var servers: map<nat, CompileServer>
    var css: seq<nat>
    var jobRequests: Q.Queue
    var newJobId: nat
    var hostIdCounter: nat
    const algorithm: Algorithm
    const submissionWeight: nat

    function View(): State
      reads this
    {
      State(jobs, servers, css, jobRequests, newJobId, hostIdCounter)
    }

    constructor (algorithm: Algorithm, submissionWeight: nat)
      ensures View() == INITIAL
    {
      jobs, servers, css, jobRequests := map[], map[], [], [];
      newJobId, hostIdCounter := 0, 0;
      this.algorithm, this.submissionWeight := algorithm, submissionWeight;
    }

    // -------------------------------------------------------------- the queue

    /** JobRequestsGroup::remove_job: erases the first occurrence. */
    method RemoveJob(l: seq<nat>, id: nat) returns (r: seq<nat>)
      ensures r == Q.Without(l, id)
    {
      for i := 0 to |l|
        invariant id !in l[..i]
      {
        if l[i] == id {
          WithoutAt(l, i, id);
          return l[..i] + l[i + 1..];
        }
        assert l[..i + 1] == l[..i] + [l[i]];
      }
      assert l[..|l|] == l;
      WithoutNone(l, id);
      return l;
    }

    method EnqueueJobRequest(id: nat, submitter: nat, niceness: int, ghost next: nat)
      requires Q.WellFormed(jobRequests, next)
      modifies this`jobRequests
      ensures jobRequests == Q.Enqueue(old(jobRequests), id, submitter, niceness)
    {
      var q := jobRequests;
      var newone := Q.Group(submitter, niceness, [id]);
      for i := 0 to |q|
        invariant jobRequests == q
        invariant forall k :: 0 <= k < i ==> !Q.HasKey(q[k], submitter, niceness) && q[k].niceness <= niceness
      {
        if Q.HasKey(q[i], submitter, niceness) {
          FindAt(q, i, submitter, niceness);
          jobRequests := q[i := q[i].(l := q[i].l + [id])];
          return;
        }
        if q[i].niceness > niceness {
          forall k | i <= k < |q| ensures !Q.HasKey(q[k], submitter, niceness) { SortedTail(q, next, i, k); }
          FindNone(q, submitter, niceness);
          InsertAt(q, newone, i);
          jobRequests := q[..i] + [newone] + q[i..];
          return;
        }
      }
      FindNone(q, submitter, niceness);
      InsertAt(q, newone, |q|);
      jobRequests := q + [newone];
      assert q[..|q|] + [newone] + q[|q|..] == q + [newone];
    }

    method EnqueueJobRequestsGroup(group: Q.Group)
      modifies this`jobRequests
      ensures jobRequests == Q.InsertGroup(old(jobRequests), group)
    {
      var q := jobRequests;
      for i := 0 to |q|
        invariant jobRequests == q
        invariant forall k :: 0 <= k < i ==> q[k].niceness <= group.niceness
      {
        if q[i].niceness > group.niceness {
          InsertAt(q, group, i);
          jobRequests := q[..i] + [group] + q[i..];
          return;
        }
      }
      InsertAt(q, group, |q|);
      jobRequests := q + [group];
      assert q[..|q|] + [group] + q[|q|..] == q + [group];
    }

    /** remove_job_request: takes the job out and puts the rest of its group behind its equals. */
    method RemoveJobRequest(k: nat, id: nat)
      requires k < |jobRequests|
      modifies this`jobRequests
      ensures jobRequests == Q.Take(old(jobRequests), k, id)
    {
      var group := jobRequests[k];
      DropAtSlice(jobRequests, k);
      jobRequests := jobRequests[..k] + jobRequests[k + 1..];
      var rest := RemoveJob(group.l, id);
      if rest != [] {
        EnqueueJobRequestsGroup(group.(l := rest));
      }
    }

    // -------------------------------------------------------------- choosing a node

    method IsOffered(job: Job, c: CompileServer, submitter: CompileServer) returns (offered: bool)
      ensures offered <==> Offered(c, submitter, job)
    {
      var now := IsEligibleNow(c, submitter, job);
      if !now {
        return false;
      }
      var platform := CanInstall(c, submitter, job, false);
      return platform != "" && (c.chrootPossible || c.hostId == job.submitter) && CheckRemote(c, job);
    }

    method FilterIneligibleServers(job: Job) returns (eligible: seq<nat>)
      requires Known(View(), job)
      ensures eligible == Pool(View(), job, css)
    {
      hide Offered, Pool;
      eligible := [];
      assert css[0..] == css;
      for i := 0 to |css|
        invariant Pool(View(), job, css) == eligible + Pool(View(), job, css[i..])
      {
        PoolStep(View(), job, css, i);
        var offered := IsOffered(job, servers[css[i]], servers[job.submitter]);
        if offered {
          eligible := eligible + [css[i]];
        }
      }
      PoolEmpty(View(), job, css[|css|..]);
    }

    method PickPreferred(job: Job) returns (pick: Option<nat>)
      requires Known(View(), job)
      ensures pick == FirstPreferred(View(), job, css)
    {
      assert css[0..] == css;
      for i := 0 to |css|
        invariant FirstPreferred(View(), job, css) == FirstPreferred(View(), job, css[i..])
      {
        assert css[i..][0] == css[i] && css[i..][1..] == css[i + 1..];
        var c := servers[css[i]];
        var now := IsEligibleNow(c, servers[job.submitter], job);
        if Matches(c, job.preferredHost) && now {
          return Some(css[i]);
        }
      }
      return None;
    }

    /** Random and fastest choose some node of the pool. */
    method PickServer(job: Job) returns (pick: Option<nat>)
      requires Known(View(), job)
      ensures MayPick(View(), job, pick)
      ensures pick.Some? ==> pick.value in servers
      ensures pick.Some? && job.preferredHost == "" ==> Chosen(View(), job, algorithm, submissionWeight, pick.value)
    {
      if job.preferredHost != "" {
        pick := PickPreferred(job);
        return;
      }
      var eligible := FilterIneligibleServers(job);
      PoolServes(View(), job);
      hide MayPick, Pool, Offered;
      if eligible == [] {
        return None;
      }
      if |eligible| == 1 {
        AloneChosen(View(), job, algorithm, submissionWeight);
        return Some(eligible[0]);
      }
      match algorithm
      case ROUND_ROBIN =>
        ghost var at;
        pick, at := PickServerRoundRobin(eligible, servers);
        forall h | h in eligible ensures servers[pick.value].lastPickId <= servers[h].lastPickId {
          var i :| 0 <= i < |eligible| && eligible[i] == h;
        }
      case LEAST_BUSY =>
        pick := PickServerLeastBusy(eligible, servers, submissionWeight);
      case _ =>
        var k :| 0 <= k < |eligible|;
        pick := Some(eligible[k]);
    }

    // -------------------------------------------------------------- a daemon goes

    /** Deletes a job of a daemon that goes: it leaves the store and the list of its node, which is no longer
        busy installing for it, and its submitter's counter goes down. */
    method StopJob(id: nat, t: nat)
      requires id in jobs && jobs[id].submitter in servers && jobs[id].id == id
      requires jobs[id].server.Some? ==> jobs[id].server.value in servers
      modifies this`jobs, this`servers
      ensures jobs == old(jobs) - {id}
      ensures AllReleased(servers, old(servers), old(jobs)[id], t)
    {
      hide AllReleased;
      ghost var before := servers;
      var job := jobs[id];
      if job.server.Some? && job.server.value != t {
        var h := job.server.value;
        servers := servers[h := servers[h].(jobList := Keep(servers[h].jobList, {id}))];
      }
      ghost var left := servers;
      if job.server.Some? {
        var h := job.server.value;
        servers := servers[h := servers[h].(busyInstalling := 0)];
      }
      ghost var idle := servers;
      jobs := jobs - {id};
      var c := servers[job.submitter];
      servers := servers[job.submitter := c.(submittedJobsCount := c.submittedJobsCount - 1)];
      ReleasedAll(before, left, idle, servers, job, t);
    }

    /** The first loop of handle_end: the groups of `t` go, and the jobs in them are deleted. */
    method DropRequests(t: nat, ghost s: State, ghost limbo: set<nat>)
      requires JobsOk(s.jobs, s.newJobId, s.servers.Keys) && ServersOk(s.servers, s.jobs, limbo)
      requires Q.WellFormed(s.queue, s.newJobId + 1) && OwnGroups(s.queue, s.jobs)
      requires jobs == s.jobs && servers == s.servers && jobRequests == s.queue
      modifies this`jobs, this`servers, this`jobRequests
      ensures jobRequests == Q.DropSubmitter(s.queue, t)
      ensures jobs == s.jobs - RequestsOf(s.queue, t)
      ensures AllRelieved(servers, s.servers, s.jobs, RequestsOf(s.queue, t), t)
    {
      hide JobsOk, ServersOk, Q.WellFormed, OwnGroups, AllRelieved, Q.Ascending, Q.DropSubmitter, RequestsOf;
      NoGroups(t);
      var it := 0;
      ghost var dead: set<nat> := {};
      RelievedNone(servers, jobs, t);
      assert jobs - {} == jobs && jobRequests[0..] == s.queue;
      while it < |jobRequests|
        invariant it <= |jobRequests|
        invariant Q.DropSubmitter(s.queue, t) == jobRequests[..it] + Q.DropSubmitter(jobRequests[it..], t)
        invariant RequestsOf(s.queue, t) == dead + RequestsOf(jobRequests[it..], t)
        invariant Q.WellFormed(jobRequests[it..], s.newJobId + 1) && dead !! Q.Jobs(jobRequests[it..])
        invariant OwnGroups(jobRequests[it..], s.jobs)
        invariant jobs == s.jobs - dead && AllRelieved(servers, s.servers, s.jobs, dead, t)
        decreases |jobRequests| - it
      {
        GroupAt(jobRequests, it);
        FirstGroup(jobRequests[it..], s.jobs, s.newJobId + 1, t);
        GroupGoes(jobRequests, it, t);
        if jobRequests[it].submitter == t {
          dead := StopGroup(jobRequests[it], t, s, limbo, dead);
          jobRequests := jobRequests[..it] + jobRequests[it + 1..];
        } else {
          it := it + 1;
        }
      }
      assert jobRequests[..it] == jobRequests && jobRequests[it..] == [];
    }

    method StopGroup(g: Q.Group, t: nat, ghost s: State, ghost limbo: set<nat>, ghost dead: set<nat>) returns (ghost dead': set<nat>)
      requires JobsOk(s.jobs, s.newJobId, s.servers.Keys) && ServersOk(s.servers, s.jobs, limbo)
      requires Q.Ascending(g.l) && Q.Elements(g.l) !! dead && forall id :: id in g.l ==> id in s.jobs
      requires jobs == s.jobs - dead && AllRelieved(servers, s.servers, s.jobs, dead, t)
      modifies this`jobs, this`servers
      ensures dead' == dead + Q.Elements(g.l)
      ensures jobs == s.jobs - dead' && AllRelieved(servers, s.servers, s.jobs, dead', t)
    {
      hide JobsOk, ServersOk, AllRelieved, Q.Ascending, Q.Elements;
      dead' := dead;
      NoElements(g.l[..0]);
      for i := 0 to |g.l|
        invariant dead' == dead + Q.Elements(g.l[..i])
        invariant jobs == s.jobs - dead' && AllRelieved(servers, s.servers, s.jobs, dead', t)
      {
        AscendingSplit(g.l, i);
        StopOne(g.l[i], t, s, limbo, dead');
        dead' := dead' + {g.l[i]};
      }
      assert g.l[..|g.l|] == g.l;
    }

    method StopOne(id: nat, t: nat, ghost s: State, ghost limbo: set<nat>, ghost dead: set<nat>)
      requires JobsOk(s.jobs, s.newJobId, s.servers.Keys) && ServersOk(s.servers, s.jobs, limbo)
      requires jobs == s.jobs - dead && AllRelieved(servers, s.servers, s.jobs, dead, t)
      requires id in s.jobs && id !in dead
      modifies this`jobs, this`servers
      ensures jobs == s.jobs - (dead + {id}) && AllRelieved(servers, s.servers, s.jobs, dead + {id}, t)
    {
      hide JobsOk, ServersOk, AllRelieved, AllReleased;
      JobFacts(s.jobs, s.newJobId, s.servers.Keys, id);
      RelievedKeys(servers, s.servers, s.jobs, dead, t);
      ghost var before := servers;
      StopJob(id, t);
      AllRelievedStep(servers, before, s.servers, s.jobs, limbo, dead, id, t);
    }

    /** The second loop of handle_end: the jobs that `t` submitted or was compiling, in the order of their ids. */
    method StopJobs(t: nat, ghost s: State, ghost limbo: set<nat>, ghost dead: set<nat>)
      requires JobsOk(s.jobs, s.newJobId, s.servers.Keys) && ServersOk(s.servers, s.jobs, limbo)
      requires newJobId == s.newJobId && dead <= Involving(s.jobs, t)
      requires jobs == s.jobs - dead && AllRelieved(servers, s.servers, s.jobs, dead, t)
      modifies this`jobs, this`servers
      ensures jobs == s.jobs - Involving(s.jobs, t)
      ensures AllRelieved(servers, s.servers, s.jobs, Involving(s.jobs, t), t)
    {
      hide JobsOk, ServersOk, AllRelieved, Involving;
      ghost var all := Involving(s.jobs, t);
      ghost var gone := dead;
      for id := 1 to newJobId + 1
        invariant gone <= all && forall x :: x in all && 0 < x < id ==> x in gone
        invariant jobs == s.jobs - gone && AllRelieved(servers, s.servers, s.jobs, gone, t)
      {
        Involved(s.jobs, t, id);
        if id in jobs && (jobs[id].server == Some(t) || jobs[id].submitter == t) {
          StopOne(id, t, s, limbo, gone);
          gone := gone + {id};
        }
      }
      forall x | x in all ensures x in gone {
        Involved(s.jobs, t, x);
        BoundedId(s.jobs, s.newJobId, s.servers.Keys, x);
      }
      assert gone == all;
    }

    /** The end of handle_end: the others forget what they blacklisted on `t`, and it is deleted. */
    method ForgetDaemon(t: nat)
      requires forall h :: h in css <==> h in servers && h != t
      modifies this`servers
      ensures servers == Forget(old(servers), t)
    {
      ghost var before := servers;
      for i := 0 to |css|
        invariant servers.Keys == before.Keys
        invariant forall h :: h in before ==>
          servers[h] == if h in css[..i] then before[h].(blacklist := before[h].blacklist - {t}) else before[h]
      {
        var h := css[i];
        assert h in css;
        BlacklistMinus(before[h].blacklist, t);
        servers := servers[h := servers[h].(blacklist := servers[h].blacklist - {t})];
        assert css[..i + 1] == css[..i] + [h];
      }
      assert css[..|css|] == css;
      servers := servers - {t};
    }

    /** handle_end of a daemon. */
    method HandleEnd(t: nat, ghost limbo: set<nat>)
      requires InvBut(View(), limbo)
      modifies this
      ensures View() == RemoveDaemon(old(View()), t)
    {
      hide JobsOk, QueueOk, ServersOk, CssOk, ClientsOk, AllRelieved, Involving, Relieve, Forget;
      ghost var s := View();
      css := Keep(css, {t});
      QueueFacts(s.queue, s.jobs, s.newJobId + 1);
      DropRequests(t, s, limbo);
      RequestsPending(s.queue, s.jobs, s.newJobId + 1, t);
      RequestsInvolved(s.queue, s.jobs, t);
      StopJobs(t, s, limbo, RequestsOf(s.queue, t));
      ForgetRelieved(servers, s.servers, s.jobs, Involving(s.jobs, t), t);
      RemoveCss(s.css, s.servers.Keys, s.hostIdCounter, t);
      Listed(css, s.servers.Keys - {t}, s.hostIdCounter);
      ForgetDaemon(t);
    }

    // -------------------------------------------------------------- empty_queue

    /** Is there a node worth waiting for? */
    method AnyoneWorthWaiting(job: Job) returns (found: bool)
      requires Known(View(), job)
      ensures found <==> exists h :: h in css && WorthWaiting(servers[h], servers[job.submitter], job)
    {
      for i := 0 to |css|
        invariant forall h :: h in css[..i] ==> !WorthWaiting(servers[h], servers[job.submitter], job)
      {
        if WorthWaiting(servers[css[i]], servers[job.submitter], job) {
          assert css[i] in css;
          return true;
        }
        assert css[..i + 1] == css[..i] + [css[i]];
      }
      assert css[..|css|] == css;
      return false;
    }

    /** The search loop of empty_queue. Its position walks through the whole queue, but `job` stays the head's
        job, so every pass asks for the head; a pass that fails once fails always. So when it finds a node its
        position is still, or again, that of the head (`g` is the group, `k` the job in it). Without a node the
        head is to wait. */
    method FindServer(job: Job) returns (useCs: Option<nat>, g: nat, k: nat, ghost pick: Option<nat>)
      requires Inv(View()) && HasHead(View()) && job == Head(View())
      ensures MayPick(View(), job, pick)
      ensures useCs == Target(View(), job, pick)
      ensures g == 0 && k == 0
      ensures pick.Some? && job.preferredHost == "" ==> Chosen(View(), job, algorithm, submissionWeight, pick.value)
    {
      hide Inv, MayPick, Chosen, Q.WellFormed;
      Shape(View());
      GroupsNonEmpty(jobRequests, newJobId + 1);
      g, k := 0, 0;
      while true
        invariant g < |jobRequests| && k < |jobRequests[g].l|
        invariant (g, k) != (0, 0) ==> MayPick(View(), job, None) && !SubmitterCan(servers[job.submitter], job)
        decreases |jobRequests| - g, |jobRequests[g].l| - k
      {
        var picked := PickServer(job);
        pick := picked;
        if (g, k) != (0, 0) { PickAgain(View(), job, picked); }
        if picked.Some? {
          useCs := picked;
          return;
        }
        var submitter := servers[job.submitter];
        if SubmitterCan(submitter, job) {
          useCs := Some(job.submitter);
          return;
        }
        if k + 1 < |jobRequests[g].l| {
          k := k + 1;
        } else if g + 1 < |jobRequests| {
          g, k := g + 1, 0;
        } else {
          g, k := 0, 0;
          var wait := AnyoneWorthWaiting(job);
          useCs := if wait then None else Some(job.submitter);
          return;
        }
      }
    }

    /** Hands out the head of the queue if some node can have it. `sent`: could the answer be delivered? */
    method EmptyQueue(sent: bool, now: nat) returns (again: bool, ghost pick: Option<nat>)
      requires Inv(View())
      modifies this
      ensures old(jobRequests) == [] ==> !again && View() == old(View())
      ensures old(jobRequests) != [] ==> HasHead(old(View())) && MayPick(old(View()), Head(old(View())), pick)
      ensures old(jobRequests) != [] ==> View() == SchedulerSpec.EmptyQueue(old(View()), pick, sent, now)
      ensures old(jobRequests) != [] ==> (again <==> Target(old(View()), Head(old(View())), pick).Some?)
      ensures Inv(View())
    {
      if jobRequests == [] {
        return false, None;
      }
      ghost var s := View();
      InvHasHead(s);
      NodesListed(s);
      assert css != [];
      var job := jobs[jobRequests[0].l[0]];
      var useCs: Option<nat>, g: nat, k: nat;
      useCs, g, k, pick := FindServer(job);
      EmptyQueueKeeps(s, pick, sent, now);
      if useCs == None {
        return false, pick;
      }
      AssignKeeps(s, useCs.value);
      HandOut(job, useCs.value, g, k, sent, now);
      again := true;
    }

    /** The job leaves its place in the queue for the node, and its submitter is told. */
    method HandOut(job: Job, useCs: nat, g: nat, k: nat, sent: bool, now: nat)
      requires HasHead(View()) && job == Head(View()) && g == 0 && k == 0 && useCs in servers
      requires InvBut(Assign(View(), useCs), {job.id})
      modifies this
      ensures View() == if sent then Deliver(Assign(old(View()), useCs), job.id, useCs, now)
                        else RemoveDaemon(Assign(old(View()), useCs), job.submitter)
    {
      hide Inv, InvBut, MayPick, Target;
      ghost var s := View();
      var id := jobRequests[g].l[k];
      RemoveJobRequest(g, id);
      jobs := jobs[id := job.(state := WAITINGFORCS, server := Some(useCs))];
      assert View() == Assign(s, useCs);
      var platform := EnvsMatch(servers[useCs], jobs[id]);
      if !sent {
        HandleEnd(job.submitter, {id});
        return;
      }
      var c := servers[useCs];
      c := c.(lastPickId := id, jobList := c.jobList + [id]);
      if platform == "" {
        c := c.(busyInstalling := now);
      }
      servers := servers[useCs := c];
    }

    // -------------------------------------------------------------- messages

    /** A request with count 1 from a logged-in daemon. */
    method HandleCsRequest(cs: nat, r: Request)
      requires Inv(View()) && cs in servers && FreshClient(jobs, cs, r.clientId)
      modifies this
      ensures View() == Submit(old(View()), cs, r)
      ensures Inv(View())
    {
      hide Inv, FreshClient, Q.WellFormed;
      ghost var s := View();
      SubmitKeeps(s, cs, r);
      Shape(s);
      newJobId := newJobId + 1;
      var job := NewJob(newJobId, cs, r);
      jobs := jobs[newJobId := job];
      servers := servers[cs := servers[cs].(submittedJobsCount := servers[cs].submittedJobsCount + 1)];
      EnqueueJobRequest(newJobId, cs, job.niceness, s.newJobId + 1);
    }

    method HandleJobBegin(cs: nat, id: nat) returns (ok: bool)
      requires Inv(View())
      modifies this
      ensures View() == JobBegin(old(View()), cs, id)
      ensures ok <==> id in old(jobs) && old(jobs)[id].server == Some(cs)
      ensures Inv(View())
    {
      JobBeginKeeps(View(), cs, id);
      hide Inv;
      if id !in jobs {
        return false;
      }
      if jobs[id].server != Some(cs) {
        return false;
      }
      jobs := jobs[id := jobs[id].(state := COMPILING)];
      ok := true;
    }

    /** The inner loops of handle_job_done: takes a pending job out of the groups of its submitter. */
    method DequeueJob(cs: nat, id: nat, ghost next: nat, ghost owner: nat)
      requires Q.WellFormed(jobRequests, next) && owner < |jobRequests|
      requires id in jobRequests[owner].l && jobRequests[owner].submitter == cs
      modifies this`jobRequests
      ensures jobRequests == Q.Cancel(old(jobRequests), owner, id)
    {
      ghost var q := jobRequests;
      OnlyOwner(q, next, owner, id);
      hide Q.WellFormed;
      var it := 0;
      while it < |jobRequests|
        invariant it <= |jobRequests|
        invariant it <= owner ==> jobRequests == q
        invariant it > owner ==> Q.Without(q[owner].l, id) != [] && jobRequests == Q.Cancel(q, owner, id)
        decreases |jobRequests| - it
      {
        if jobRequests[it].submitter == cs {
          var rest := RemoveJob(jobRequests[it].l, id);
          if it != owner {
            assert jobRequests[it] == q[it];
            WithoutNone(jobRequests[it].l, id);
          }
          jobRequests := jobRequests[it := jobRequests[it].(l := rest)];
          if rest == [] {
            DropAtSlice(q, owner);
            jobRequests := jobRequests[..it] + jobRequests[it + 1..];
            break;
          }
        }
        it := it + 1;
      }
    }

    /** The search of handle_job_done by client id, over all jobs in the order of their ids; every hit is
        dequeued. A daemon has one pending request per client, so there is at most one hit. */
    method CancelPending(cs: nat, clientId: nat) returns (j: Option<nat>)
      requires JobsOk(jobs, newJobId, servers.Keys) && QueueOk(jobRequests, jobs, newJobId + 1) && ClientsOk(jobs)
      modifies this`jobRequests
      ensures j == FindPending(jobs, cs, clientId, newJobId)
      ensures jobRequests == if j.Some? then Dequeue(old(jobRequests), jobs[j.value]) else old(jobRequests)
    {
      hide ClientsOk, QueueOk, JobsOk;
      j := None;
      for id := 1 to newJobId + 1
        invariant j == FindPending(jobs, cs, clientId, id - 1)
        invariant jobRequests == if j.Some? then Dequeue(old(jobRequests), jobs[j.value]) else old(jobRequests)
      {
        if id in jobs && jobs[id].server == None && jobs[id].submitter == cs && jobs[id].localClientId == clientId {
          if j.Some? {
            OnePending(jobs, cs, clientId, j.value, id);
            assert false;
          }
          j := Some(id);
          JobFacts(jobs, newJobId, servers.Keys, id);
          QueueFacts(jobRequests, jobs, newJobId + 1);
          PendingOwner(jobRequests, jobs, newJobId + 1, id);
          DequeueJob(cs, id, newJobId + 1, Q.Find(jobRequests, cs, jobs[id].niceness));
        }
      }
    }

    method HandleJobDone(cs: nat, m: Done) returns (ok: bool)
      requires Inv(View()) && Honest(View(), m)
      modifies this
      ensures View() == JobDone(old(View()), cs, m)
      ensures Inv(View())
    {
      hide Inv, InvBut, JobsOk, QueueOk, ClientsOk, ServersOk, CssOk, Dequeue, Discount, Unlist, RemoveDaemon;
      ghost var s := View();
      JobDoneKeeps(s, cs, m);
      DoneFacts(s, m);
      var j: Option<nat> := None;
      if UnknownClient(m) != 0 {
        j := CancelPending(cs, UnknownClient(m));
      } else if m.jobId in jobs {
        j := Some(m.jobId);
      }
      if j == None {
        return false;
      }
      var id := j.value;
      var job := jobs[id];
      if m.fromServer && job.server != Some(cs) {
        // the source reads the server's name for the log
        assert job.server.Some?;
        HandleEnd(cs, {});
        return false;
      }
      if !m.fromServer && job.submitter != cs {
        HandleEnd(cs, {});
        return false;
      }
      // the source reads the server's name for the log when the exit code is 0
      assert m.exitcode == 0 ==> job.server.Some?;
      JobFacts(jobs, newJobId, servers.Keys, id);
      FinishJob(id);
      ok := true;
    }

    /** The job leaves its node's list, is deleted, and with it its submitter's counter goes down. */
    method FinishJob(id: nat)
      requires id in jobs && jobs[id].id == id && jobs[id].submitter in servers
      requires jobs[id].server.Some? ==> jobs[id].server.value in servers
      modifies this`jobs, this`servers
      ensures jobs == old(jobs) - {id}
      ensures servers == Discount(Unlist(old(servers), old(jobs)[id]), old(jobs)[id].submitter)
    {
      var job := jobs[id];
      if job.server.Some? {
        var h := job.server.value;
        servers := servers[h := servers[h].(jobList := Keep(servers[h].jobList, {id}))];
      }
      jobs := jobs - {id};
      var c := servers[job.submitter];
      servers := servers[job.submitter := c.(submittedJobsCount := c.submittedJobsCount - 1)];
    }

    /** A daemon logs in: the nodes of the same address and name are stale and removed, one after the other,
        while the list is walked; then the new node joins it. */
    method HandleLogin(node: CompileServer, blocked: bool) returns (ok: bool)
      requires Inv(View())
      modifies this
      ensures View() == SchedulerSpec.Login(old(View()), node, blocked)
      ensures ok <==> !blocked
      ensures Inv(View())
    {
      hide Inv, RemoveDaemon, RemoveStale, NewNode;
      ghost var s := View();
      LoginKeeps(s, node, blocked);
      RemoveStaleKeeps(s, s.css, node);
      if blocked {
        hostIdCounter := hostIdCounter + 1;
        return false;
      }
      DropStale(node);
      hostIdCounter := hostIdCounter + 1;
      css := css + [hostIdCounter];
      servers := servers[hostIdCounter := NewNode(node, hostIdCounter)];
      ok := true;
    }

    method DropStale(node: CompileServer)
      requires Inv(View())
      modifies this
      ensures View() == RemoveStale(old(View()), old(css), node)
    {
      hide Inv, InvBut, RemoveDaemon;
      ghost var s := View();
      var it := 0;
      assert css[0..] == css;
      while it < |css|
        invariant it <= |css| && Inv(View())
        invariant RemoveStale(s, s.css, node) == RemoveStale(View(), css[it..], node)
        decreases |css| - it
      {
        CssFacts(View());
        assert css[it..][0] == css[it] && css[it..][1..] == css[it + 1..];
        assert css[it] in css;
        if Stale(servers[css[it]], node) {
          ghost var before := View();
          KeepOthers(css, it);
          DaemonGoneKeeps(View(), css[it]);
          InvIsInvBut(View());
          HandleEnd(css[it], {});
          RemoveDaemonCss(before, before.css[it]);
          assert css == before.css[..it] + before.css[it + 1..];
          assert css[it..] == before.css[it + 1..];
        } else {
          it := it + 1;
        }
      }
    }

    // -------------------------------------------------------------- messages about one node

    /** prune_servers asks a silent node for a sign of life and gives it no job meanwhile. */
    method SendPing(cs: nat)
      requires Inv(View()) && cs in servers
      modifies this`servers
      ensures Runs.Stepped(old(View()), Runs.Ping(cs), View())
    {
      hide Inv, Runs.Stepped;
      Runs.TouchSteps(View(), Runs.Ping(cs));
      var c := servers[cs];
      if c.maxJobs >= 0 {
        c := c.(maxJobs := c.maxJobs * -1);
      }
      servers := servers[cs := c];
    }

    method HandlePing(cs: nat)
      requires Inv(View()) && cs in servers
      modifies this`servers
      ensures Runs.Stepped(old(View()), Runs.Pong(cs), View())
    {
      hide Inv, Runs.Stepped;
      Runs.TouchSteps(View(), Runs.Pong(cs));
      var c := servers[cs];
      if c.maxJobs < 0 {
        c := c.(maxJobs := c.maxJobs * -1);
      }
      servers := servers[cs := c];
    }

    /** Before protocol 25 the statistics were the answer to a ping, too. */
    method HandleStats(cs: nat, load: nat, protocol: nat) returns (ghost between: State)
      requires Inv(View()) && cs in servers
      modifies this`servers
      ensures if protocol < 25 then Runs.Stepped(old(View()), Runs.Pong(cs), between) else between == old(View())
      ensures Runs.Stepped(between, Runs.Stats(cs, load), View())
    {
      hide Inv, Runs.Stepped;
      ghost var s := View();
      var c := servers[cs];
      if protocol < 25 {
        Runs.TouchSteps(s, Runs.Pong(cs));
        if c.maxJobs < 0 {
          c := c.(maxJobs := c.maxJobs * -1);
        }
        servers := servers[cs := c];
        Runs.SteppedInv(s, Runs.Pong(cs), View());
      }
      between := View();
      Runs.TouchSteps(between, Runs.Stats(cs, load));
      servers := servers[cs := servers[cs].(load := load)];
    }

    method HandleRelogin(cs: nat, versions: seq<Env>)
      requires Inv(View()) && cs in servers
      modifies this`servers
      ensures Runs.Stepped(old(View()), Runs.Relogin(cs, versions), View())
    {
      hide Inv, Runs.Stepped;
      Runs.TouchSteps(View(), Runs.Relogin(cs, versions));
      var c := servers[cs];
      c := c.(compilerVersions := versions);
      c := c.(busyInstalling := 0);
      servers := servers[cs := c];
    }

    method HandleLocalJob(cs: nat, clientId: int, fulljob: bool)
      requires Inv(View()) && cs in servers
      modifies this`servers, this`newJobId
      ensures Runs.Stepped(old(View()), Runs.LocalBegin(cs, clientId, fulljob), View())
    {
      hide Inv, Runs.Stepped, InsertLocal;
      Runs.LocalBeginSteps(View(), Runs.LocalBegin(cs, clientId, fulljob));
      newJobId := newJobId + 1;
      var c := servers[cs];
      c := c.(clientLocalMap := InsertLocal(c.clientLocalMap, LocalJob(clientId, newJobId, fulljob)));
      servers := servers[cs := c];
    }

    method HandleLocalJobDone(cs: nat, clientId: int)
      requires Inv(View()) && cs in servers
      modifies this`servers
      ensures Runs.Stepped(old(View()), Runs.LocalDone(cs, clientId), View())
    {
      hide Inv, Runs.Stepped;
      Runs.TouchSteps(View(), Runs.LocalDone(cs, clientId));
      servers := servers[cs := servers[cs].(clientLocalMap := EraseLocal(servers[cs].clientLocalMap, clientId))];
    }

    /** Every node of that name goes on the blacklist the daemon `cs` keeps. */
    method HandleBlacklistHostEnv(cs: nat, hostname: string, env: Env)
      requires Inv(View()) && cs in servers
      modifies this`servers
      ensures Runs.Stepped(old(View()), Runs.BlacklistEnv(cs, hostname, env), View())
    {
      hide Inv, Runs.Stepped, Runs.Called, Runs.Blacklist;
      Runs.BlacklistSteps(View(), Runs.BlacklistEnv(cs, hostname, env));
      CssFacts(View());
      BlacklistNamed(cs, hostname, env);
    }

    method BlacklistNamed(cs: nat, hostname: string, env: Env)
      requires cs in servers && forall h :: h in css ==> h in servers
      modifies this`servers
      ensures servers == old(servers)[cs := old(servers)[cs].(blacklist :=
        Runs.Blacklist(old(servers)[cs].blacklist, Runs.Called(old(servers), css, hostname), env))]
    {
      ghost var was := servers;
      ghost var named := Runs.Called(was, css, hostname);
      var m := servers[cs].blacklist;
      ghost var m0 := m;
      assert css[0..] == css;
      for i := 0 to |css|
        invariant cs in servers && servers == was[cs := was[cs].(blacklist := m)]
        invariant Runs.Blacklist(m0, named, env) == Runs.Blacklist(m, Runs.Called(was, css[i..], hostname), env)
      {
        assert css[i..][0] == css[i] && css[i..][1..] == css[i + 1..];
        var h := css[i];
        assert h in css;
        Runs.BlacklistStep(was, css[i..], hostname, m, env);
        if servers[h].name == hostname {
          m := m[h := (if h in m then m[h] else []) + [env]];
          ghost var before := servers;
          servers := servers[cs := servers[cs].(blacklist := m)];
          UpdateTwice(was, cs, before[cs], servers[cs]);
        }
      }
    }
  }
}
