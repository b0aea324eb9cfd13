/** The scheduler's view of a job and of a node (scheduler/job.cpp, scheduler/compileserver.cpp).
    A pointer to a job or a node is its id, the key under which the scheduler stores it. */
module CompileServers {
  import opened Common

  /** (host platform, environment name) */
  type Env = (string, string)

  datatype JobState = PENDING | WAITINGFORCS | COMPILING

  datatype Job = Job(
    id: nat,
    submitter: nat,
    localClientId: nat,
    environments: seq<Env>,
    targetPlatform: string,
    preferredHost: string,
    minimalHostVersion: int,
    requiredFeatures: set<nat>,
    niceness: int,
    state: JobState,
    server: Option<nat>)

  /** An entry of a node's map from the daemon's client ids to job ids, in the map's order. */
  datatype LocalJob = LocalJob(clientId: int, id: nat, fulljob: bool)

  datatype CompileServer = CompileServer(
    hostId: nat,
    address: string,
    name: string,
    nodeName: string,
    hostPlatform: string,
    busyInstalling: nat,
    load: nat,
    maxJobs: int,
    noRemote: bool,
    chrootPossible: bool,
    featuresSupported: set<nat>,
    maximumRemoteProtocol: int,
    acceptingInConnection: bool,
    compilerVersions: seq<Env>,
    jobList: seq<nat>,
    submittedJobsCount: int,
    lastPickId: nat,
    clientLocalMap: seq<LocalJob>,
    blacklist: map<nat, seq<Env>>)

  /** Can a node of platform `host` run binaries made for `target`? */
  predicate RunsOn(target: string, host: string) {
    match target
    case "i386" => host == "i486" || host == "i586" || host == "i686" || host == "x86_64"
    case "i486" => host == "i586" || host == "i686" || host == "x86_64"
    case "i586" => host == "i686" || host == "x86_64"
    case "i686" => host == "x86_64"
    case "ppc" => host == "ppc64"
    case "s390" => host == "s390x"
    case _ => false
  }

  predicate PlatformsCompatible(cs: CompileServer, target: string) {
    target == cs.hostPlatform || RunsOn(target, cs.hostPlatform)
  }

  predicate Matches(cs: CompileServer, nm: string) {
    cs.nodeName == nm || cs.name == nm
  }

  predicate CheckRemote(cs: CompileServer, job: Job) {
    job.submitter == cs.hostId || !cs.noRemote
  }

  /** What a submitter has blacklisted on a node. */
  function Blacklisted(submitter: CompileServer, cs: nat): seq<Env> {
    if cs in submitter.blacklist then submitter.blacklist[cs] else []
  }

  predicate Installable(cs: CompileServer, submitter: CompileServer, env: Env) {
    PlatformsCompatible(cs, env.0) && env !in Blacklisted(submitter, cs.hostId)
  }

  /** Platform of the first environment the node could install, or the empty string. */
  function FirstInstallable(cs: CompileServer, submitter: CompileServer, envs: seq<Env>): string {
    if envs == [] then ""
    else if Installable(cs, submitter, envs[0]) then envs[0].0
    else FirstInstallable(cs, submitter, envs[1..])
  }

  function InstallPlatform(cs: CompileServer, submitter: CompileServer, job: Job, ignoreInstalling: bool): string {
    if !ignoreInstalling && cs.busyInstalling != 0 then "" else FirstInstallable(cs, submitter, job.environments)
  }

  method CanInstall(cs: CompileServer, submitter: CompileServer, job: Job, ignoreInstalling: bool)
    returns (platform: string)
    ensures platform == InstallPlatform(cs, submitter, job, ignoreInstalling)
    ensures platform != "" <==> && (ignoreInstalling || cs.busyInstalling == 0) && cs.hostPlatform != ""
                                && exists env :: Suits(env, cs, submitter, job)
  {
    InstallMeans(cs, submitter, job, ignoreInstalling);
    if !ignoreInstalling && cs.busyInstalling != 0 {
      return "";
    }
    var envs := job.environments;
    for i := 0 to |envs|
      invariant FirstInstallable(cs, submitter, envs) == FirstInstallable(cs, submitter, envs[i..])
    {
      if Installable(cs, submitter, envs[i]) {
        return envs[i].0;
      }
    }
    return "";
  }

  /** Slots taken by local jobs: a full job takes all slots of the node. */
  function Reserved(m: seq<LocalJob>, maxJobs: int): int {
    if m == [] then 0 else (if m[0].fulljob then maxJobs else 1) + Reserved(m[1..], maxJobs)
  }

  function LocalCount(cs: CompileServer): int {
    Reserved(cs.clientLocalMap, cs.maxJobs)
  }

  method CurrentJobCountLocal(cs: CompileServer) returns (count: int)
    ensures count == LocalCount(cs)
  {
    count := 0;
    var m := cs.clientLocalMap;
    for i := 0 to |m|
      invariant count + Reserved(m[i..], cs.maxJobs) == LocalCount(cs)
    {
      count := count + if m[i].fulljob then cs.maxJobs else 1;
    }
  }

  /** The map after a local job was announced under a client id. */
  function InsertLocal(m: seq<LocalJob>, job: LocalJob): seq<LocalJob> {
    if m == [] || m[0].clientId > job.clientId then [job] + m
    else if m[0].clientId == job.clientId then [job] + m[1..]
    else [m[0]] + InsertLocal(m[1..], job)
  }

  /** The map after the local job of a client id ended. */
  function EraseLocal(m: seq<LocalJob>, clientId: int): seq<LocalJob> {
    if m == [] then []
    else if m[0].clientId == clientId then m[1..]
    else [m[0]] + EraseLocal(m[1..], clientId)
  }

  function CurrentJobCount(cs: CompileServer): int {
    |cs.jobList| + LocalCount(cs)
  }

  /** Division truncates towards zero, as in the source; it is only asked of nodes with a positive limit. */
  function MaxPreloadCount(cs: CompileServer): int {
    1 + if cs.maxJobs < 0 then -(-cs.maxJobs / 4) else cs.maxJobs / 4
  }

  predicate EligibleEver(cs: CompileServer, submitter: CompileServer, job: Job) {
    && cs.maxJobs > 0
    && (cs.chrootPossible || job.submitter == cs.hostId)
    && job.minimalHostVersion <= cs.maximumRemoteProtocol
    && job.requiredFeatures <= cs.featuresSupported
    && cs.acceptingInConnection
    && InstallPlatform(cs, submitter, job, true) != ""
    && CheckRemote(cs, job)
  }

  /** A free slot, or a preload slot unless local jobs fill the node. */
  predicate HasRoom(cs: CompileServer) {
    || CurrentJobCount(cs) < cs.maxJobs
    || (cs.maxJobs > 0 && CurrentJobCount(cs) < cs.maxJobs + MaxPreloadCount(cs) && LocalCount(cs) < cs.maxJobs)
  }

  predicate EligibleNow(cs: CompileServer, submitter: CompileServer, job: Job) {
    && EligibleEver(cs, submitter, job)
    && HasRoom(cs)
    && cs.load < 1000
    && InstallPlatform(cs, submitter, job, false) != ""
  }

  /** The pool offered to the scheduling algorithms. */
  predicate Offered(cs: CompileServer, submitter: CompileServer, job: Job) {
    && EligibleNow(cs, submitter, job)
    && InstallPlatform(cs, submitter, job, false) != ""
    && (cs.chrootPossible || cs.hostId == job.submitter)
    && CheckRemote(cs, job)
  }

  method IsEligibleNow(cs: CompileServer, submitter: CompileServer, job: Job) returns (eligible: bool)
    ensures eligible <==> EligibleNow(cs, submitter, job)
    ensures eligible <==> CanEver(cs, submitter, job) && Idle(cs)
  {
    EligibleMeans(cs, submitter, job);
    if !EligibleEver(cs, submitter, job) {
      return false;
    }
    var localJobs := CurrentJobCountLocal(cs);
    var jobsNow := localJobs + |cs.jobList|;
    var jobsOkay := jobsNow < cs.maxJobs;
    if cs.maxJobs > 0 && jobsNow < cs.maxJobs + MaxPreloadCount(cs) && localJobs < cs.maxJobs {
      jobsOkay := true;
    }
    var platform := CanInstall(cs, submitter, job, false);
    return jobsOkay && cs.load < 1000 && platform != "";
  }

  /** Platform of the first of `envs` that is installed under name `version`, or the empty string.
      Found tells a hit with an empty platform from a miss. */
  function FirstNamed(cs: CompileServer, version: string, envs: seq<Env>): Option<string> {
    if envs == [] then None
    else if version == envs[0].1 && PlatformsCompatible(cs, envs[0].0) then Some(envs[0].0)
    else FirstNamed(cs, version, envs[1..])
  }

  function FirstInstalled(cs: CompileServer, job: Job, versions: seq<Env>): string {
    if versions == [] then ""
    else if versions[0].0 == job.targetPlatform && FirstNamed(cs, versions[0].1, job.environments).Some?
    then FirstNamed(cs, versions[0].1, job.environments).value
    else FirstInstalled(cs, job, versions[1..])
  }

  function InstalledPlatform(cs: CompileServer, job: Job): string {
    if job.submitter == cs.hostId then cs.hostPlatform else FirstInstalled(cs, job, cs.compilerVersions)
  }

  method EnvsMatch(cs: CompileServer, job: Job) returns (platform: string)
    ensures platform == InstalledPlatform(cs, job)
    ensures cs.hostPlatform != "" ==>
      (platform != "" <==> job.submitter == cs.hostId || exists version, env :: Has(cs, job, version, env))
  {
    if cs.hostPlatform != "" { InstalledMeans(cs, job); }
    if job.submitter == cs.hostId {
      return cs.hostPlatform;
    }
    var versions, envs := cs.compilerVersions, job.environments;
    for i := 0 to |versions|
      invariant FirstInstalled(cs, job, versions) == FirstInstalled(cs, job, versions[i..])
    {
      if versions[i].0 == job.targetPlatform {
        for k := 0 to |envs|
          invariant FirstNamed(cs, versions[i].1, envs) == FirstNamed(cs, versions[i].1, envs[k..])
        {
          if versions[i].1 == envs[k].1 && PlatformsCompatible(cs, envs[k].0) {
            return envs[k].0;
          }
        }
      }
    }
    return "";
  }

  // ---------------------------------------------------------------- what these mean on the fields

  /** (target, host): the hosts that run what was made for another platform. */
  const PLATFORM_PAIRS: set<(string, string)> :=
    { ("i386", "i486"), ("i386", "i586"), ("i386", "i686"), ("i386", "x86_64"),
      ("i486", "i586"), ("i486", "i686"), ("i486", "x86_64"),
      ("i586", "i686"), ("i586", "x86_64"), ("i686", "x86_64"), ("ppc", "ppc64"), ("s390", "s390x") }

  lemma PlatformPairs(target: string, host: string)
    ensures RunsOn(target, host) <==> (target, host) in PLATFORM_PAIRS
  {
  }

  /** The environment is one of the job's, it runs on the node, and the submitter has not blacklisted it there. */
  ghost predicate Suits(env: Env, cs: CompileServer, submitter: CompileServer, job: Job) {
    && env in job.environments
    && (env.0 == cs.hostPlatform || (env.0, cs.hostPlatform) in PLATFORM_PAIRS)
    && (cs.hostId in submitter.blacklist ==> env !in submitter.blacklist[cs.hostId])
  }

  lemma InstallableIs(cs: CompileServer, submitter: CompileServer, job: Job, env: Env)
    requires env in job.environments
    ensures Installable(cs, submitter, env) <==> Suits(env, cs, submitter, job)
  {
    PlatformPairs(env.0, cs.hostPlatform);
  }

  /** No installable environment is found in the empty list's way: the answer is the first one's platform. */
  lemma {:induction false} FirstInstallableIs(cs: CompileServer, submitter: CompileServer, envs: seq<Env>)
    ensures (exists i :: 0 <= i < |envs| && Installable(cs, submitter, envs[i])
               && (forall k :: 0 <= k < i ==> !Installable(cs, submitter, envs[k]))
               && FirstInstallable(cs, submitter, envs) == envs[i].0)
      || (FirstInstallable(cs, submitter, envs) == "" && forall env :: env in envs ==> !Installable(cs, submitter, env))
  {
    hide Installable;
    if envs != [] && !Installable(cs, submitter, envs[0]) {
      FirstInstallableIs(cs, submitter, envs[1..]);
      if i :| 0 <= i < |envs[1..]| && Installable(cs, submitter, envs[1..][i])
               && (forall k :: 0 <= k < i ==> !Installable(cs, submitter, envs[1..][k]))
               && FirstInstallable(cs, submitter, envs[1..]) == envs[1..][i].0 {
        assert envs[i + 1] == envs[1..][i];
        forall k | 0 <= k < i + 1 ensures !Installable(cs, submitter, envs[k]) {
          if k > 0 { assert envs[k] == envs[1..][k - 1]; }
        }
      }
    }
  }

  /** An environment that suits a node with a platform has a platform. */
  lemma SuitsNamed(env: Env, cs: CompileServer, submitter: CompileServer, job: Job)
    requires Suits(env, cs, submitter, job)
    ensures env.0 == "" <==> cs.hostPlatform == ""
  {
  }

  /** A platform is found exactly if the node names one, is not installing (unless that does not matter), and some
      environment of the job suits it; it is the platform of the first such environment. */
  lemma InstallMeans(cs: CompileServer, submitter: CompileServer, job: Job, ignoreInstalling: bool)
    ensures InstallPlatform(cs, submitter, job, ignoreInstalling) != ""
      <==> && (ignoreInstalling || cs.busyInstalling == 0) && cs.hostPlatform != ""
           && exists env :: Suits(env, cs, submitter, job)
    ensures InstallPlatform(cs, submitter, job, ignoreInstalling) != ""
      ==> exists i :: && 0 <= i < |job.environments| && Suits(job.environments[i], cs, submitter, job)
                      && (forall k :: 0 <= k < i ==> !Suits(job.environments[k], cs, submitter, job))
                      && InstallPlatform(cs, submitter, job, ignoreInstalling) == job.environments[i].0
  {
    var envs := job.environments;
    forall env | env in envs
      ensures Installable(cs, submitter, env) <==> Suits(env, cs, submitter, job)
      ensures Suits(env, cs, submitter, job) ==> (env.0 == "" <==> cs.hostPlatform == "")
    {
      InstallableIs(cs, submitter, job, env);
    }
    assert forall env :: Suits(env, cs, submitter, job) ==> env in envs;
    hide Installable, Suits, FirstInstallable;
    FirstInstallableIs(cs, submitter, envs);
  }

  lemma {:induction false} ReservedLast(m: seq<LocalJob>, maxJobs: int)
    requires m != []
    ensures Reserved(m, maxJobs) == Reserved(m[..|m| - 1], maxJobs) + if m[|m| - 1].fulljob then maxJobs else 1
  {
    if |m| > 1 {
      ReservedLast(m[1..], maxJobs);
      assert m[1..][..|m[1..]| - 1] == m[..|m| - 1][1..];
    }
  }

  ghost function FullJobs(m: seq<LocalJob>): set<nat> {
    set i: nat | i < |m| && m[i].fulljob
  }

  lemma FullLast(m: seq<LocalJob>)
    requires m != []
    ensures |FullJobs(m)| == |FullJobs(m[..|m| - 1])| + if m[|m| - 1].fulljob then 1 else 0
  {
    var n := |m| - 1;
    assert FullJobs(m) == FullJobs(m[..n]) + if m[n].fulljob then {n} else {};
  }

  lemma OneMore(k: int, n: int)
    ensures (k + 1) * n == k * n + n
  {
  }

  /** Every full job takes all slots, and every other one. */
  lemma {:induction false} ReservedIs(m: seq<LocalJob>, maxJobs: int)
    ensures Reserved(m, maxJobs) == |FullJobs(m)| * maxJobs + (|m| - |FullJobs(m)|)
  {
    if m == [] {
      assert FullJobs(m) == {};
    } else {
      hide FullJobs, Reserved;
      var n := |m| - 1;
      ReservedIs(m[..n], maxJobs);
      ReservedLast(m, maxJobs);
      FullLast(m);
      OneMore(|FullJobs(m[..n])|, maxJobs);
    }
  }

  /** What a node must be able to do for a job, however busy it is. */
  ghost predicate CanEver(cs: CompileServer, submitter: CompileServer, job: Job) {
    && cs.maxJobs > 0
    && cs.acceptingInConnection
    && job.minimalHostVersion <= cs.maximumRemoteProtocol
    && (forall f :: f in job.requiredFeatures ==> f in cs.featuresSupported)
    && (cs.hostId != job.submitter ==> cs.chrootPossible && !cs.noRemote)
    && cs.hostPlatform != "" && exists env :: Suits(env, cs, submitter, job)
  }

  /** It is not overloaded, installs nothing, and has a free slot, or one of 1 + maxJobs / 4 preload slots while its
      local jobs do not fill it. */
  ghost predicate Idle(cs: CompileServer) {
    var full := |FullJobs(cs.clientLocalMap)|;
    var reserved := full * cs.maxJobs + (|cs.clientLocalMap| - full);
    && cs.load < 1000 && cs.busyInstalling == 0
    && |cs.jobList| + reserved < cs.maxJobs + if reserved < cs.maxJobs then 1 + cs.maxJobs / 4 else 0
  }

  lemma EligibleMeans(cs: CompileServer, submitter: CompileServer, job: Job)
    ensures EligibleEver(cs, submitter, job) <==> CanEver(cs, submitter, job)
    ensures EligibleNow(cs, submitter, job) <==> CanEver(cs, submitter, job) && Idle(cs)
    ensures Offered(cs, submitter, job) <==> CanEver(cs, submitter, job) && Idle(cs)
  {
    hide InstallPlatform, Suits, FullJobs, Reserved;
    InstallMeans(cs, submitter, job, true);
    InstallMeans(cs, submitter, job, false);
    ReservedIs(cs.clientLocalMap, cs.maxJobs);
  }

  /** The node has what the job asks for: a version for the job's target under the name of an environment that runs
      there. */
  ghost predicate Has(cs: CompileServer, job: Job, version: Env, env: Env) {
    && version in cs.compilerVersions && version.0 == job.targetPlatform
    && env in job.environments && version.1 == env.1
    && (env.0 == cs.hostPlatform || (env.0, cs.hostPlatform) in PLATFORM_PAIRS)
  }

  lemma {:induction false} FirstNamedIs(cs: CompileServer, version: string, envs: seq<Env>)
    ensures var r := FirstNamed(cs, version, envs);
      && (r.Some? <==> exists env :: env in envs && version == env.1 && PlatformsCompatible(cs, env.0))
      && (r.Some? ==> PlatformsCompatible(cs, r.value))
  {
    hide PlatformsCompatible;
    if envs != [] { FirstNamedIs(cs, version, envs[1..]); }
  }

  lemma {:induction false} FirstInstalledIs(cs: CompileServer, job: Job, versions: seq<Env>)
    requires cs.hostPlatform != ""
    ensures FirstInstalled(cs, job, versions) != ""
      <==> exists v :: && v in versions && v.0 == job.targetPlatform
                       && FirstNamed(cs, v.1, job.environments).Some?
  {
    if versions != [] {
      FirstInstalledIs(cs, job, versions[1..]);
      FirstNamedIs(cs, versions[0].1, job.environments);
    }
  }

  /** A node with a platform has an environment for a job of its own, and for another one exactly if one of its
      versions is one. */
  lemma InstalledMeans(cs: CompileServer, job: Job)
    requires cs.hostPlatform != ""
    ensures InstalledPlatform(cs, job) != ""
      <==> job.submitter == cs.hostId || exists version, env :: Has(cs, job, version, env)
  {
    FirstInstalledIs(cs, job, cs.compilerVersions);
    forall v ensures FirstNamed(cs, v, job.environments).Some?
      <==> exists env :: env in job.environments && v == env.1 && PlatformsCompatible(cs, env.0)
    {
      FirstNamedIs(cs, v, job.environments);
    }
    forall env: Env
      ensures PlatformsCompatible(cs, env.0) <==> env.0 == cs.hostPlatform || (env.0, cs.hostPlatform) in PLATFORM_PAIRS
    {
      PlatformPairs(env.0, cs.hostPlatform);
    }
    hide PlatformsCompatible, FirstNamed, FirstInstalled;
    if version, env :| Has(cs, job, version, env) {
      assert FirstNamed(cs, version.1, job.environments).Some?;
    }
    if v :| v in cs.compilerVersions && v.0 == job.targetPlatform && FirstNamed(cs, v.1, job.environments).Some? {
      var env :| env in job.environments && v.1 == env.1 && PlatformsCompatible(cs, env.0);
      assert Has(cs, job, v, env);
    }
  }
}
