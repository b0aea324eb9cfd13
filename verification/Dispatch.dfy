/** Where the jobs go (scheduler/scheduler.cpp:979-1079), told by what is stored about the nodes alone. */
module Dispatch {
  import opened Common
  import opened CompileServers
  import opened SchedulerSpec
  import opened SchedulerInv
  import opened SchedulerRuns
  import Q = JobQueue

  /** The job asks for no node, or for this one by one of its names. */
  predicate Wanted(c: CompileServer, job: Job) {
    job.preferredHost == "" || c.nodeName == job.preferredHost || c.name == job.preferredHost
  }

  /** A round of the queue before which the head was `Head(s)`, and after which the state is `t`. */
  ghost predicate Round(s: State, t: State, pick: Option<nat>, sent: bool, now: nat) {
    Inv(s) && HasHead(s) && MayPick(s, Head(s), pick) && t == EmptyQueue(s, pick, sent, now)
  }

  /** Does node `c` have the head after the round? */
  ghost predicate Gets(s: State, t: State, c: nat)
    requires HasHead(s)
  {
    Head(s).id in t.jobs && t.jobs[Head(s).id].server == Some(c)
  }

  lemma HeadPending(s: State)
    requires Inv(s) && HasHead(s)
    ensures Head(s).id in s.jobs && s.jobs[Head(s).id] == Head(s) && Head(s).server == None
    ensures Head(s).submitter in s.servers && forall h :: h in s.servers ==> s.servers[h].hostId == h
    ensures forall h :: h in s.css <==> h in s.servers
  {
    var id := s.queue[0].l[0];
    assert s.queue[0] in s.queue;
    Q.JobsMembers(s.queue);
    assert id in Pending(s.jobs);
    forall h | h in s.servers ensures s.servers[h].hostId == h { assert ServerOk(s.servers[h], s.jobs, h, {}); }
    assert forall h :: h in s.css <==> h in Q.Elements(s.css);
  }

  /** The first preferred node is preferred, may take the job, and there is one if any listed node is such. */
  lemma {:induction false} FirstPreferredIs(s: State, job: Job, css: seq<nat>)
    requires Known(s, job) && forall h :: h in css ==> h in s.css
    ensures var r := FirstPreferred(s, job, css);
      && (r.Some? ==> && r.value in css && Wanted(s.servers[r.value], job)
                      && EligibleNow(s.servers[r.value], s.servers[job.submitter], job))
      && (r == None ==> forall h :: h in css && Matches(s.servers[h], job.preferredHost)
                          ==> !EligibleNow(s.servers[h], s.servers[job.submitter], job))
  {
    hide EligibleNow;
    if css != [] { FirstPreferredIs(s, job, css[1..]); }
  }

  /** What the pick says about the nodes. */
  lemma PickMeans(s: State, job: Job, pick: Option<nat>)
    requires Known(s, job) && MayPick(s, job, pick)
    ensures pick.Some? ==> && pick.value in s.css && Wanted(s.servers[pick.value], job)
                           && CanEver(s.servers[pick.value], s.servers[job.submitter], job) && Idle(s.servers[pick.value])
    ensures pick == None ==> forall h :: h in s.css && Wanted(s.servers[h], job)
                               ==> !(CanEver(s.servers[h], s.servers[job.submitter], job) && Idle(s.servers[h]))
  {
    hide EligibleNow, Offered, CanEver, Idle;
    FirstPreferredIs(s, job, s.css);
    forall h | h in s.css
      ensures EligibleNow(s.servers[h], s.servers[job.submitter], job)
        <==> CanEver(s.servers[h], s.servers[job.submitter], job) && Idle(s.servers[h])
      ensures Offered(s.servers[h], s.servers[job.submitter], job)
        <==> CanEver(s.servers[h], s.servers[job.submitter], job) && Idle(s.servers[h])
    {
      EligibleMeans(s.servers[h], s.servers[job.submitter], job);
    }
  }

  /** The submitter has a free slot and could work on the job. */
  ghost predicate OwnSlot(submitter: CompileServer, job: Job) {
    var full := |FullJobs(submitter.clientLocalMap)|;
    && job.preferredHost == ""
    && |submitter.jobList| + full * submitter.maxJobs + (|submitter.clientLocalMap| - full) < submitter.maxJobs
    && submitter.busyInstalling == 0
    && submitter.hostPlatform != "" && exists env :: Suits(env, submitter, submitter, job)
  }

  lemma OwnSlotIs(submitter: CompileServer, job: Job)
    ensures SubmitterCan(submitter, job) <==> OwnSlot(submitter, job)
  {
    hide InstallPlatform, Suits, FullJobs, Reserved;
    InstallMeans(submitter, submitter, job, false);
    ReservedIs(submitter.clientLocalMap, submitter.maxJobs);
  }

  /** Is some listed node what the job wants, and able to compile it once it is free? */
  ghost predicate SomeCan(s: State, job: Job)
    requires Known(s, job)
  {
    exists h :: h in s.css && Wanted(s.servers[h], job) && CanEver(s.servers[h], s.servers[job.submitter], job)
  }

  ghost predicate SomeIdle(s: State, job: Job)
    requires Known(s, job)
  {
    exists h :: && h in s.css && Wanted(s.servers[h], job) && CanEver(s.servers[h], s.servers[job.submitter], job)
                && Idle(s.servers[h])
  }

  lemma SomeCanIs(s: State, job: Job)
    requires Known(s, job)
    ensures SomeCan(s, job) <==> exists h :: h in s.css && WorthWaiting(s.servers[h], s.servers[job.submitter], job)
  {
    forall h | h in s.css
      ensures WorthWaiting(s.servers[h], s.servers[job.submitter], job)
        <==> Wanted(s.servers[h], job) && CanEver(s.servers[h], s.servers[job.submitter], job)
    {
      EligibleMeans(s.servers[h], s.servers[job.submitter], job);
    }
  }

  /** The node the head goes to. */
  lemma TargetMeans(s: State, job: Job, pick: Option<nat>)
    requires Known(s, job) && MayPick(s, job, pick)
    ensures pick.Some? <==> SomeIdle(s, job)
    ensures pick.Some? ==> Target(s, job, pick) == pick
    ensures pick == None
      ==> (Target(s, job, pick) == if OwnSlot(s.servers[job.submitter], job) || !SomeCan(s, job) then Some(job.submitter) else None)
  {
    hide MayPick, CanEver, Idle, WorthWaiting, SubmitterCan, OwnSlot;
    PickMeans(s, job, pick);
    OwnSlotIs(s.servers[job.submitter], job);
    SomeCanIs(s, job);
  }

  /** What the round makes of the head. */
  lemma RoundHead(s: State, t: State, pick: Option<nat>, sent: bool, now: nat)
    requires Round(s, t, pick, sent, now)
    ensures var id, target := Head(s).id, Target(s, Head(s), pick);
      && (id in t.jobs <==> target == None || sent)
      && (id in t.jobs ==> t.jobs[id].server == target && (target == None ==> t == s))
  {
    hide Inv, MayPick, Target, Relieve, Forget;
    HeadPending(s);
  }

  /** A job goes to another node only if that node can run an environment of the job that is not blacklisted there,
      speaks its protocol, has its features, can isolate it, takes jobs of others, and is neither overloaded, nor
      installing, nor full. */
  lemma RemoteDispatch(s: State, t: State, pick: Option<nat>, sent: bool, now: nat, c: nat)
    requires Round(s, t, pick, sent, now) && Gets(s, t, c) && c != Head(s).submitter
    ensures c in s.css && c in s.servers && Head(s).submitter in s.servers
    ensures var job, n := Head(s), s.servers[c];
      && (job.preferredHost == "" || n.nodeName == job.preferredHost || n.name == job.preferredHost)
      && job.minimalHostVersion <= n.maximumRemoteProtocol
      && (forall f :: f in job.requiredFeatures ==> f in n.featuresSupported)
      && n.chrootPossible && !n.noRemote && n.acceptingInConnection
      && n.load < 1000 && n.busyInstalling == 0
    ensures var job, n, submitter := Head(s), s.servers[c], s.servers[Head(s).submitter];
      exists env :: && env in job.environments
                    && (env.0 == n.hostPlatform || (env.0, n.hostPlatform) in PLATFORM_PAIRS)
                    && !(c in submitter.blacklist && env in submitter.blacklist[c])
    ensures var n := s.servers[c];
      var full := |FullJobs(n.clientLocalMap)|;
      var reserved := full * n.maxJobs + (|n.clientLocalMap| - full);
      || |n.jobList| + reserved < n.maxJobs
      || (reserved < n.maxJobs && |n.jobList| + reserved < n.maxJobs + 1 + n.maxJobs / 4)
  {
    hide Inv, MayPick, Target, Suits, EmptyQueue, FullJobs;
    HeadPending(s);
    RoundHead(s, t, pick, sent, now);
    TargetMeans(s, Head(s), pick);
    PickMeans(s, Head(s), pick);
    HeadSuits(s, c);
  }

  lemma HeadSuits(s: State, c: nat)
    requires HasHead(s) && c in s.servers && s.servers[c].hostId == c
    requires exists env :: Suits(env, s.servers[c], s.servers[Head(s).submitter], Head(s))
    ensures var job, n, submitter := Head(s), s.servers[c], s.servers[Head(s).submitter];
      exists env :: && env in job.environments
                    && (env.0 == n.hostPlatform || (env.0, n.hostPlatform) in PLATFORM_PAIRS)
                    && !(c in submitter.blacklist && env in submitter.blacklist[c])
  {
  }

  /** The head keeps waiting exactly if no listed node it wants can take it now, its submitter has no slot for it,
      and some listed node it wants will be able to take it. */
  lemma HeadWaits(s: State, t: State, pick: Option<nat>, sent: bool, now: nat)
    requires Round(s, t, pick, sent, now)
    ensures Known(s, Head(s))
    ensures t == s <==> !SomeIdle(s, Head(s)) && !OwnSlot(s.servers[Head(s).submitter], Head(s)) && SomeCan(s, Head(s))
  {
    hide Inv, MayPick, Target, SomeIdle, SomeCan, OwnSlot, EmptyQueue;
    HeadPending(s);
    RoundHead(s, t, pick, sent, now);
    TargetMeans(s, Head(s), pick);
  }

  /** It goes to its submitter only if that can take it now, has a slot for it, or nobody it wants ever could. */
  lemma OwnDispatch(s: State, t: State, pick: Option<nat>, sent: bool, now: nat)
    requires Round(s, t, pick, sent, now) && Gets(s, t, Head(s).submitter)
    ensures Known(s, Head(s))
    ensures var job, submitter := Head(s), s.servers[Head(s).submitter];
      || (Wanted(submitter, job) && CanEver(submitter, submitter, job) && Idle(submitter))
      || (!SomeIdle(s, job) && (OwnSlot(submitter, job) || !SomeCan(s, job)))
  {
    hide Inv, MayPick, Target, SomeIdle, SomeCan, OwnSlot, CanEver, Idle, EmptyQueue;
    HeadPending(s);
    RoundHead(s, t, pick, sent, now);
    TargetMeans(s, Head(s), pick);
    PickMeans(s, Head(s), pick);
  }

  /** What is stored about a job that went to another node: it waits there, at the end of the node's list, and the node
      is busy installing from now on unless it has an environment for the job already. */
  lemma RemoteRecords(s: State, t: State, pick: Option<nat>, sent: bool, now: nat, c: nat)
    requires Round(s, t, pick, sent, now) && Gets(s, t, c) && c != Head(s).submitter
    ensures c in s.servers && c in t.servers
    ensures var id, n, n' := Head(s).id, s.servers[c], t.servers[c];
      && t.jobs[id] == Head(s).(state := WAITINGFORCS, server := Some(c))
      && n'.jobList == n.jobList + [id] && n'.lastPickId == id
      && ((exists version, env :: Has(n, Head(s), version, env)) ==> n'.busyInstalling == 0)
      && ((forall version, env :: !Has(n, Head(s), version, env)) ==> n'.busyInstalling == now)
      && forall h :: h in s.servers && h != c ==> h in t.servers && t.servers[h] == s.servers[h]
  {
    RemoteDispatch(s, t, pick, sent, now, c);
    HeadPending(s);
    RoundHead(s, t, pick, sent, now);
    PlatformOf(s, t, pick, sent, now, c);
    hide Inv, MayPick, Target, Has, InstalledPlatform, Relieve, Forget, Q.Dispatch;
    var id := Head(s).id;
    assert t == Deliver(Assign(s, c), id, c, now);
    InstalledMeans(s.servers[c], t.jobs[id]);
    forall version, env ensures Has(s.servers[c], t.jobs[id], version, env) == Has(s.servers[c], Head(s), version, env) {
      SameHas(s.servers[c], Head(s), t.jobs[id], version, env);
    }
  }

  lemma SameHas(n: CompileServer, a: Job, b: Job, version: Env, env: Env)
    requires a.targetPlatform == b.targetPlatform && a.environments == b.environments
    ensures Has(n, a, version, env) == Has(n, b, version, env)
  {
  }

  /** A node that gets the job of another one names its platform. */
  lemma PlatformOf(s: State, t: State, pick: Option<nat>, sent: bool, now: nat, c: nat)
    requires Round(s, t, pick, sent, now) && Gets(s, t, c) && c != Head(s).submitter
    ensures c in s.servers && s.servers[c].hostPlatform != ""
  {
    hide Inv, MayPick, Target, Suits, EmptyQueue, FullJobs;
    HeadPending(s);
    RoundHead(s, t, pick, sent, now);
    TargetMeans(s, Head(s), pick);
    PickMeans(s, Head(s), pick);
  }

  /** Every dispatch of every run is such a round. */
  lemma RunDispatches(es: seq<Event>, pick: Option<nat>, sent: bool, now: nat)
    requires EnabledAll(INITIAL, es) && Enabled(Run(INITIAL, es), Serve(pick, sent, now))
    ensures var s := Run(INITIAL, es); Round(s, Step(s, Serve(pick, sent, now)), pick, sent, now)
  {
    ReachableInv(es);
  }
}
