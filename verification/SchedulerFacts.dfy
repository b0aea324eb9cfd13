/** Facts the scheduler's loops need: list positions, and jobs deleted one by one. */
module SchedulerFacts {
  import opened Common
  import opened CompileServers
  import opened SchedulerSpec
  import opened SchedulerInv
  import opened SchedulingAlgo
  import Q = JobQueue

  // ---------------------------------------------------------------- facts about positions in the queue

  lemma {:induction false} FindAt(q: Q.Queue, k: nat, submitter: nat, niceness: int)
    requires k < |q| && Q.HasKey(q[k], submitter, niceness)
    requires forall i :: 0 <= i < k ==> !Q.HasKey(q[i], submitter, niceness)
    ensures Q.Find(q, submitter, niceness) == k
  {
    if k > 0 { FindAt(q[1..], k - 1, submitter, niceness); }
  }

  lemma {:induction false} FindNone(q: Q.Queue, submitter: nat, niceness: int)
    requires forall i :: 0 <= i < |q| ==> !Q.HasKey(q[i], submitter, niceness)
    ensures Q.Find(q, submitter, niceness) == |q|
  {
    if q != [] { FindNone(q[1..], submitter, niceness); }
  }

  lemma {:induction false} InsertAt(q: Q.Queue, g: Q.Group, i: nat)
    requires i <= |q| && (i < |q| ==> q[i].niceness > g.niceness)
    requires forall k :: 0 <= k < i ==> q[k].niceness <= g.niceness
    ensures Q.InsertGroup(q, g) == q[..i] + [g] + q[i..]
  {
    if i > 0 {
      InsertAt(q[1..], g, i - 1);
    }
  }

  lemma {:induction false} DropAtSlice(q: Q.Queue, k: nat)
    requires k < |q|
    ensures Q.DropAt(q, k) == q[..k] + q[k + 1..]
  {
    if k > 0 { DropAtSlice(q[1..], k - 1); }
  }

  lemma {:induction false} WithoutAt(l: seq<nat>, i: nat, id: nat)
    requires i < |l| && l[i] == id && id !in l[..i]
    ensures Q.Without(l, id) == l[..i] + l[i + 1..]
  {
    if i > 0 {
      assert l[0] == l[..i][0];
      assert id !in l[1..][..i - 1] by { assert l[1..][..i - 1] == l[..i][1..]; }
      WithoutAt(l[1..], i - 1, id);
    }
  }

  lemma {:induction false} WithoutNone(l: seq<nat>, id: nat)
    requires id !in l
    ensures Q.Without(l, id) == l
  {
    if l != [] { WithoutNone(l[1..], id); }
  }

  lemma SortedTail(q: Q.Queue, next: nat, i: nat, k: nat)
    requires Q.WellFormed(q, next) && i <= k < |q|
    ensures q[i].niceness <= q[k].niceness
  {
    Q.MemberGood(q, next, k);
  }

  /** Delivering a job records the pick and no other: the last picks of the nodes develop as the round-robin
      theorem assumes. */
  lemma DeliverRecorded(s: State, id: nat, c: nat, now: nat)
    requires id in s.jobs && c in s.servers
    ensures LastPicks(Deliver(s, id, c, now).servers) == LastPicks(s.servers)[c := id]
  {
  }

  // ---------------------------------------------------------------- deleting jobs one by one

  /** Node `h` after job `id` was deleted as handle_end deletes it. */
  function Released(c: CompileServer, h: nat, job: Job): CompileServer {
    c.(jobList := if job.server == Some(h) then Keep(c.jobList, {job.id}) else c.jobList,
       submittedJobsCount := c.submittedJobsCount - if job.submitter == h then 1 else 0,
       busyInstalling := if job.server == Some(h) then 0 else c.busyInstalling)
  }

  lemma RelievedList(l: seq<nat>, dead: set<nat>, id: nat)
    ensures Keep(l, dead + {id}) == Keep(Keep(l, dead), {id})
    ensures id !in l ==> Keep(Keep(l, dead), {id}) == Keep(l, dead)
  {
    KeepKeep(l, dead, {id});
    KeepMembers(l, dead);
    if id !in l { KeepAll(Keep(l, dead), {id}); }
  }

  lemma RelievedCount(jobs: map<nat, Job>, dead: set<nat>, id: nat, h: nat)
    requires id in jobs && id !in dead
    ensures |By(jobs - (dead + {id}), h)| == |By(jobs - dead, h)| - if jobs[id].submitter == h then 1 else 0
  {
    assert jobs - (dead + {id}) == (jobs - dead) - {id};
    ByMinus(jobs - dead, id, h);
  }

  lemma RelievedStep(c: CompileServer, h: nat, jobs: map<nat, Job>, dead: set<nat>, id: nat)
    requires id in jobs && id !in dead && jobs[id].id == id
    requires jobs[id].server != Some(h) ==> id !in c.jobList
    ensures Relieved(c, h, jobs, dead + {id}) == Released(Relieved(c, h, jobs, dead), h, jobs[id])
  {
    hide Keep, By;
    RelievedList(c.jobList, dead, id);
    RelievedCount(jobs, dead, id, h);
    assert (dead + {id}) !! On(jobs, h) <==> dead !! On(jobs, h) && jobs[id].server != Some(h);
  }

  /** The nodes other than `t` after the jobs `dead` were deleted. */
  ghost predicate AllRelieved(now: map<nat, CompileServer>, servers: map<nat, CompileServer>, jobs: map<nat, Job>,
                              dead: set<nat>, t: nat)
  {
    && now.Keys == servers.Keys
    && forall h :: h in servers && h != t ==> now[h] == Relieved(servers[h], h, jobs, dead)
  }

  ghost predicate AllReleased(now: map<nat, CompileServer>, before: map<nat, CompileServer>, job: Job, t: nat) {
    && now.Keys == before.Keys
    && forall h :: h in before && h != t ==> now[h] == Released(before[h], h, job)
  }

  /** The three changes of a deleted job, one after the other: it leaves the list of its node, unless that is `t`,
      the node is no longer busy installing, and the submitter's counter goes down. */
  lemma ReleasedAll(before: map<nat, CompileServer>, left: map<nat, CompileServer>, idle: map<nat, CompileServer>,
                    now: map<nat, CompileServer>, job: Job, t: nat)
    requires job.submitter in before && (job.server.Some? ==> job.server.value in before)
    requires left == if job.server.Some? && job.server.value != t
                     then before[job.server.value := before[job.server.value].(jobList := Keep(before[job.server.value].jobList, {job.id}))]
                     else before
    requires idle == if job.server.Some? then left[job.server.value := left[job.server.value].(busyInstalling := 0)] else left
    requires now == idle[job.submitter := idle[job.submitter].(submittedJobsCount := idle[job.submitter].submittedJobsCount - 1)]
    ensures AllReleased(now, before, job, t)
  {
    hide Keep;
    assert left.Keys == before.Keys;
    assert idle.Keys == before.Keys;
    assert now.Keys == before.Keys;
    forall h | h in before && h != t ensures now[h] == Released(before[h], h, job) {
      ReleasedOne(before[h], left[h], idle[h], now[h], job, h);
    }
  }

  lemma ReleasedOne(before: CompileServer, left: CompileServer, idle: CompileServer, now: CompileServer, job: Job, h: nat)
    requires left == if job.server == Some(h) then before.(jobList := Keep(before.jobList, {job.id})) else before
    requires idle == if job.server == Some(h) then left.(busyInstalling := 0) else left
    requires now == if job.submitter == h then idle.(submittedJobsCount := idle.submittedJobsCount - 1) else idle
    ensures now == Released(before, h, job)
  {
    hide Keep;
  }

  lemma RelievedKeys(now: map<nat, CompileServer>, servers: map<nat, CompileServer>, jobs: map<nat, Job>, dead: set<nat>, t: nat)
    requires AllRelieved(now, servers, jobs, dead, t)
    ensures now.Keys == servers.Keys
  {
  }

  lemma RelievedNone(servers: map<nat, CompileServer>, jobs: map<nat, Job>, t: nat)
    ensures AllRelieved(servers, servers, jobs, {}, t)
  {
    forall h | h in servers ensures servers[h] == Relieved(servers[h], h, jobs, {}) {
      KeepAll(servers[h].jobList, {});
      assert jobs - {} == jobs;
    }
  }

  lemma AllRelievedStep(now: map<nat, CompileServer>, before: map<nat, CompileServer>, servers: map<nat, CompileServer>,
                        jobs: map<nat, Job>, limbo: set<nat>, dead: set<nat>, id: nat, t: nat)
    requires ServersOk(servers, jobs, limbo) && id in jobs && id !in dead && jobs[id].id == id
    requires AllRelieved(before, servers, jobs, dead, t) && AllReleased(now, before, jobs[id], t)
    ensures AllRelieved(now, servers, jobs, dead + {id}, t) && now.Keys == servers.Keys
  {
    forall h | h in servers && h != t ensures now[h] == Relieved(servers[h], h, jobs, dead + {id}) {
      assert ServerOk(servers[h], jobs, h, limbo);
      if id in servers[h].jobList { ListMembers(servers[h].jobList, jobs, h, limbo, id); }
      hide ServerOk, Relieved, Released;
      RelievedStep(servers[h], h, jobs, dead, id);
    }
  }

  /** Requests of `t` queued in the first `k` groups. */
  ghost function RequestsOf(q: Q.Queue, t: nat): set<nat> {
    if q == [] then {}
    else (if q[0].submitter == t then Q.Elements(q[0].l) else {}) + RequestsOf(q[1..], t)
  }

  lemma {:induction false} RequestsMembers(q: Q.Queue, t: nat)
    ensures forall id :: id in RequestsOf(q, t) <==> exists g :: g in q && g.submitter == t && id in g.l
  {
    if q != [] {
      RequestsMembers(q[1..], t);
      assert forall g :: g in q <==> g == q[0] || g in q[1..];
    }
  }

  lemma RequestsPending(q: Q.Queue, jobs: map<nat, Job>, next: nat, t: nat)
    requires QueueOk(q, jobs, next)
    ensures RequestsOf(q, t) == set id | id in Pending(jobs) && jobs[id].submitter == t
  {
    RequestsMembers(q, t);
    Q.JobsMembers(q);
    forall id ensures id in RequestsOf(q, t) <==> id in Pending(jobs) && jobs[id].submitter == t {
      if id in RequestsOf(q, t) {
        var g :| g in q && g.submitter == t && id in g.l;
        assert InOwnGroup(jobs, g, id);
      }
      if id in Pending(jobs) && jobs[id].submitter == t {
        var g :| g in q && id in g.l;
        assert InOwnGroup(jobs, g, id);
      }
    }
  }

  lemma FirstGroup(q: Q.Queue, jobs: map<nat, Job>, next: nat, t: nat)
    requires q != [] && Q.WellFormed(q, next) && OwnGroups(q, jobs)
    ensures Q.WellFormed(q[1..], next) && OwnGroups(q[1..], jobs)
    ensures Q.Ascending(q[0].l) && forall id :: id in q[0].l ==> id in jobs
    ensures Q.Jobs(q) == Q.Elements(q[0].l) + Q.Jobs(q[1..]) && Q.Elements(q[0].l) !! Q.Jobs(q[1..])
    ensures RequestsOf(q, t) == (if q[0].submitter == t then Q.Elements(q[0].l) else {}) + RequestsOf(q[1..], t)
    ensures Q.DropSubmitter(q, t) == (if q[0].submitter == t then [] else [q[0]]) + Q.DropSubmitter(q[1..], t)
  {
    assert q[0] in q;
    forall id | id in q[0].l ensures id in jobs { assert InOwnGroup(jobs, q[0], id); }
  }

  lemma AscendingSplit(l: seq<nat>, i: nat)
    requires Q.Ascending(l) && i < |l|
    ensures l[i] in Q.Elements(l) && l[i] !in Q.Elements(l[..i])
    ensures Q.Elements(l[..i + 1]) == Q.Elements(l[..i]) + {l[i]}
  {
    assert l[..i + 1] == l[..i] + [l[i]];
  }

  lemma BoundedId(jobs: map<nat, Job>, last: nat, nodes: set<nat>, id: nat)
    requires JobsOk(jobs, last, nodes) && id in jobs
    ensures 0 < id <= last
  {
    assert JobOk(jobs[id], id, last, nodes);
  }

  lemma Involved(jobs: map<nat, Job>, t: nat, id: nat)
    ensures id in Involving(jobs, t) <==> id in jobs && (jobs[id].server == Some(t) || jobs[id].submitter == t)
  {
  }

  lemma Listed(css: seq<nat>, nodes: set<nat>, counter: nat)
    requires CssOk(css, nodes, counter)
    ensures forall h :: h in css <==> h in nodes
  {
    assert forall h :: h in css <==> h in Q.Elements(css);
  }

  lemma QueueFacts(q: Q.Queue, jobs: map<nat, Job>, next: nat)
    requires QueueOk(q, jobs, next)
    ensures Q.WellFormed(q, next) && OwnGroups(q, jobs)
  {
  }

  lemma RequestsInvolved(q: Q.Queue, jobs: map<nat, Job>, t: nat)
    requires RequestsOf(q, t) == set id | id in Pending(jobs) && jobs[id].submitter == t
    ensures RequestsOf(q, t) <= Involving(jobs, t)
  {
  }

  lemma ForgetRelieved(now: map<nat, CompileServer>, servers: map<nat, CompileServer>, jobs: map<nat, Job>,
                       dead: set<nat>, t: nat)
    requires AllRelieved(now, servers, jobs, dead, t)
    ensures now.Keys == servers.Keys && Forget(now, t) == Forget(Relieve(servers, jobs, dead), t)
  {
  }

  lemma NoElements(l: seq<nat>)
    requires l == []
    ensures Q.Elements(l) == {}
  {
  }

  lemma JobFacts(jobs: map<nat, Job>, last: nat, nodes: set<nat>, id: nat)
    requires JobsOk(jobs, last, nodes) && id in jobs
    ensures jobs[id].id == id && jobs[id].submitter in nodes && (jobs[id].server.Some? ==> jobs[id].server.value in nodes)
  {
    assert JobOk(jobs[id], id, last, nodes);
  }

  // ---------------------------------------------------------------- choosing a node

  /** The eligible pool, in the order of the list of nodes. */
  ghost function Pool(s: State, job: Job, css: seq<nat>): seq<nat>
    requires Known(s, job) && forall h :: h in css ==> h in s.servers
  {
    if css == [] then []
    else (if Offered(s.servers[css[0]], s.servers[job.submitter], job) then [css[0]] else []) + Pool(s, job, css[1..])
  }

  lemma PoolStep(s: State, job: Job, css: seq<nat>, i: nat)
    requires Known(s, job) && (forall h :: h in css ==> h in s.servers) && i < |css|
    ensures Pool(s, job, css[i..])
         == (if Offered(s.servers[css[i]], s.servers[job.submitter], job) then [css[i]] else []) + Pool(s, job, css[i + 1..])
  {
    assert css[i..][0] == css[i] && css[i..][1..] == css[i + 1..];
  }

  lemma PoolEmpty(s: State, job: Job, css: seq<nat>)
    requires Known(s, job) && css == []
    ensures Pool(s, job, css) == []
  {
  }

  lemma {:induction false} PoolMembers(s: State, job: Job, css: seq<nat>)
    requires Known(s, job) && forall h :: h in css ==> h in s.servers
    ensures forall h :: h in Pool(s, job, css) <==> h in css && Offered(s.servers[h], s.servers[job.submitter], job)
  {
    hide Offered;
    if css != [] { PoolMembers(s, job, css[1..]); }
  }

  /** The nodes of the pool take jobs, and any of them may be picked. */
  lemma PoolServes(s: State, job: Job)
    requires Known(s, job)
    ensures Stored(Pool(s, job, s.css), s.servers) && TakesJobs(Pool(s, job, s.css), s.servers)
    ensures job.preferredHost == "" && Pool(s, job, s.css) == [] ==> MayPick(s, job, None)
    ensures forall c :: job.preferredHost == "" && c in Pool(s, job, s.css) ==> MayPick(s, job, Some(c))
  {
    PoolMembers(s, job, s.css);
    assert forall h :: h in s.css && Offered(s.servers[h], s.servers[job.submitter], job) ==> h in Pool(s, job, s.css);
  }

  lemma GroupsNonEmpty(q: Q.Queue, next: nat)
    requires Q.WellFormed(q, next)
    ensures forall i :: 0 <= i < |q| ==> q[i].l != []
  {
    forall i | 0 <= i < |q| ensures q[i].l != [] { Q.MemberGood(q, next, i); }
  }

  /** A job is listed in one group only, and no group is empty. */
  lemma {:induction false} OnlyOwner(q: Q.Queue, next: nat, owner: nat, id: nat)
    requires Q.WellFormed(q, next) && owner < |q| && id in q[owner].l
    ensures forall i :: 0 <= i < |q| ==> q[i].l != [] && (i != owner ==> id !in q[i].l)
  {
    GroupsNonEmpty(q, next);
    Q.DropAtKeeps(q, owner, next);
    DropAtSlice(q, owner);
    Q.JobsMembers(Q.DropAt(q, owner));
    forall i | 0 <= i < |q| && i != owner ensures id !in q[i].l {
      var r := q[..owner] + q[owner + 1..];
      assert q[i] == r[if i < owner then i else i - 1];
      assert id in Q.Elements(q[owner].l);
    }
  }

  lemma PendingOwner(q: Q.Queue, jobs: map<nat, Job>, next: nat, id: nat)
    requires QueueOk(q, jobs, next) && id in Pending(jobs)
    ensures var k := Q.Find(q, jobs[id].submitter, jobs[id].niceness);
            k < |q| && id in q[k].l && q[k].submitter == jobs[id].submitter
  {
    Q.JobsMembers(q);
    assert id in Q.Jobs(q);
    var g :| g in q && id in g.l;
    assert InOwnGroup(jobs, g, id);
    Q.FindOwner(q, next, g);
  }

  lemma OnePending(jobs: map<nat, Job>, cs: nat, clientId: nat, a: nat, b: nat)
    requires ClientsOk(jobs) && PendingOf(jobs, cs, clientId, a) && PendingOf(jobs, cs, clientId, b)
    ensures a == b
  {
    assert a in Pending(jobs) && b in Pending(jobs) && SameClient(jobs[a], jobs[b]);
  }

  lemma DoneFacts(s: State, m: Done)
    requires Inv(s)
    ensures InvBut(s, {}) && JobsOk(s.jobs, s.newJobId, s.servers.Keys)
    ensures QueueOk(s.queue, s.jobs, s.newJobId + 1) && ClientsOk(s.jobs)
  {
  }

  // ---------------------------------------------------------------- walking the list of nodes

  lemma {:induction false} KeepOthers(l: seq<nat>, k: nat)
    requires NoDup(l) && k < |l|
    ensures Keep(l, {l[k]}) == l[..k] + l[k + 1..]
  {
    var t := l[1..];
    if k == 0 {
      KeepAll(t, {l[0]});
      assert l[..0] + t == t;
    } else {
      KeepOthers(t, k - 1);
      assert t[k - 1] == l[k] && l[k] in t;
      assert l[..k] == [l[0]] + t[..k - 1] && t[k..] == l[k + 1..];
    }
  }

  lemma CssFacts(s: State)
    requires Inv(s)
    ensures NoDup(s.css) && forall h :: h in s.css ==> h in s.servers
  {
    Listed(s.css, s.servers.Keys, s.hostIdCounter);
  }

  lemma InvIsInvBut(s: State)
    requires Inv(s)
    ensures InvBut(s, {})
  {
  }

  lemma RemoveDaemonCss(s: State, t: nat)
    ensures RemoveDaemon(s, t).css == Keep(s.css, {t})
  {
  }

  lemma BlacklistMinus(b: map<nat, seq<Env>>, t: nat)
    ensures b - {t} - {t} == b - {t}
  {
  }

  lemma UpdateTwice(m: map<nat, CompileServer>, k: nat, a: CompileServer, b: CompileServer)
    ensures m[k := a][k := b] == m[k := b]
  {
  }

  /** The walk of handle_end over the groups: at a group that goes, and at one that stays. */
  lemma GroupAt(q: Q.Queue, it: nat)
    requires it < |q|
    ensures q[it..][0] == q[it] && q[it..][1..] == q[it + 1..]
    ensures var r := q[..it] + q[it + 1..]; |r| == |q| - 1 && r[..it] == q[..it] && r[it..] == q[it + 1..]
    ensures q[..it + 1] == q[..it] + [q[it]]
  {
  }

  lemma GroupGoes(q: Q.Queue, it: nat, t: nat)
    requires it < |q|
    requires Q.DropSubmitter(q[it..], t) == (if q[it].submitter == t then [] else [q[it]]) + Q.DropSubmitter(q[it + 1..], t)
    ensures q[..it] + Q.DropSubmitter(q[it..], t) ==
      (if q[it].submitter == t then q[..it] else q[..it + 1]) + Q.DropSubmitter(q[it + 1..], t)
  {
    hide Q.DropSubmitter;
    var more := Q.DropSubmitter(q[it + 1..], t);
    assert [] + more == more;
    assert q[..it] + ([q[it]] + more) == q[..it] + [q[it]] + more;
    assert q[..it + 1] == q[..it] + [q[it]];
  }

  lemma NoGroups(t: nat)
    ensures Q.DropSubmitter([], t) == [] && RequestsOf([], t) == {}
  {
  }

  /** Asking again for the same job cannot succeed after it failed. */
  lemma PickAgain(s: State, job: Job, r: Option<nat>)
    requires Known(s, job) && MayPick(s, job, None) && MayPick(s, job, r)
    ensures r == None
  {
  }

  lemma NodesListed(s: State)
    requires Inv(s) && HasHead(s)
    ensures s.css != []
  {
    Listed(s.css, s.servers.Keys, s.hostIdCounter);
    assert Head(s).submitter in s.css;
  }
}
