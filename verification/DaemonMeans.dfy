/** The daemon's slots, children, messages and environments, told by what is stored about them alone. */
module DaemonMeans {
  import opened Common
  import opened DaemonSpec
  import opened DaemonRuns
  import opened EnvCache
  import D = Daemon

  // ---------------------------------------------------------------- slots and children

  /** Clients whose job runs and takes one slot. */
  ghost function Sharing(cs: Clients): set<Client> {
    set c | c in cs && c.status == CLIENTWORK && !c.fulljob
  }

  /** Clients whose job runs and takes all slots. */
  ghost function Full(cs: Clients): set<Client> {
    set c | c in cs && c.status == CLIENTWORK && c.fulljob
  }

  ghost function Compiling(cs: Clients): set<Client> {
    set c | c in cs && c.status == WAITFORCHILD
  }

  ghost function WithChild(cs: Clients): set<Client> {
    set c | c in cs && c.child
  }

  lemma OneSharing(c: Client, t: Clients)
    requires c !in t
    ensures |Sharing([c] + t)| == |Sharing(t)| + Bit(c.status == CLIENTWORK && !c.fulljob)
  {
    assert Sharing([c] + t) == Sharing(t) + if c.status == CLIENTWORK && !c.fulljob then {c} else {};
  }

  lemma OneFull(c: Client, t: Clients)
    requires c !in t
    ensures |Full([c] + t)| == |Full(t)| + Bit(c.status == CLIENTWORK && c.fulljob)
  {
    assert Full([c] + t) == Full(t) + if c.status == CLIENTWORK && c.fulljob then {c} else {};
  }

  lemma OneCompiling(c: Client, t: Clients)
    requires c !in t
    ensures |Compiling([c] + t)| == |Compiling(t)| + Bit(c.status == WAITFORCHILD)
  {
    assert Compiling([c] + t) == Compiling(t) + if c.status == WAITFORCHILD then {c} else {};
  }

  lemma OneWithChild(c: Client, t: Clients)
    requires c !in t
    ensures |WithChild([c] + t)| == |WithChild(t)| + Bit(c.child)
  {
    assert WithChild([c] + t) == WithChild(t) + if c.child then {c} else {};
  }

  /** The slots of one client more. */
  lemma SlotsMore(m: nat, value: nat, rest: nat, sharing: nat, full: nat, one: bool, all: bool)
    requires value == Bit(one) + (if all then m else 0) && rest == sharing + m * full
    ensures value + rest == (sharing + Bit(one)) + m * (full + Bit(all))
  {
    assert m * (full + Bit(all)) == m * full + m * Bit(all);
  }

  lemma ValuesAre(m: nat, c: Client, newId: nat)
    requires ClientOk(c, newId)
    ensures Value(SLOTS, m, c) == Bit(c.status == CLIENTWORK && !c.fulljob) + if c.status == CLIENTWORK && c.fulljob then m else 0
    ensures Value(KIDS, m, c) == Bit(c.child)
  {
  }

  lemma {:induction false} SlotsAre(m: nat, cs: Clients, newId: nat)
    requires Distinct(cs) && AllOk(cs, newId)
    ensures Sum(SLOTS, m, cs) == |Sharing(cs)| + m * |Full(cs)|
  {
    if cs == [] {
      assert Sharing(cs) == {} && Full(cs) == {};
    } else {
      hide ClientOk, Sharing, Full, Value;
      var c, t := cs[0], cs[1..];
      IdsMember(t);
      assert cs == [c] + t;
      SlotsAre(m, t, newId);
      OneSharing(c, t);
      OneFull(c, t);
      ValuesAre(m, c, newId);
      SlotsMore(m, Value(SLOTS, m, c), Sum(SLOTS, m, t), |Sharing(t)|, |Full(t)|,
                c.status == CLIENTWORK && !c.fulljob, c.status == CLIENTWORK && c.fulljob);
    }
  }

  lemma {:induction false} SumsAre(m: nat, cs: Clients, newId: nat)
    requires Distinct(cs) && AllOk(cs, newId)
    ensures Sum(KIDS, m, cs) == |WithChild(cs)|
    ensures Sum(FULL, m, cs) == |Full(cs)| && Sum(COMPILING, m, cs) == |Compiling(cs)|
  {
    if cs == [] {
      assert Full(cs) == {} && Compiling(cs) == {} && WithChild(cs) == {};
    } else {
      hide ClientOk, Full, Compiling, WithChild;
      var c, t := cs[0], cs[1..];
      IdsMember(t);
      assert cs == [c] + t;
      SumsAre(m, t, newId);
      OneFull(c, t);
      OneCompiling(c, t);
      OneWithChild(c, t);
      ValuesAre(m, c, newId);
    }
  }

  lemma InvParts(s: State)
    requires DaemonSpec.Inv(s)
    ensures Distinct(s.clients) && AllOk(s.clients, s.newId)
  {
  }

  /** In every reachable state the daemon counts one slot for each running job, all slots for a full one, and one for
      each living child; at most one full job runs, and the slots bound jobs and compile children. */
  lemma ReachableCounts(maxKids: nat, es: seq<Event>)
    requires (InitialInv(maxKids); EnabledAll(Initial(maxKids), es))
    ensures (InitialInv(maxKids);
      var s, m := Run(Initial(maxKids), es), if maxKids > 1 then maxKids else 1;
      var sharing, full, compiling := |Sharing(s.clients)|, |Full(s.clients)|, |Compiling(s.clients)|;
      && s.active == sharing + m * full && s.kids == |WithChild(s.clients)|
      && full <= 1 && compiling + sharing <= (if full == 0 then m else m - 1))
  {
    InitialInv(maxKids);
    Reachable(maxKids, es);
    var s, m := Run(Initial(maxKids), es), Max(1, maxKids);
    InvParts(s);
    hide Sum, Run, EnabledAll, Sharing, Full, Compiling, WithChild, Distinct, AllOk, DaemonSpec.Inv;
    SumsAre(m, s.clients, s.newId);
    SlotsAre(m, s.clients, s.newId);
    if |Full(s.clients)| == 1 { assert m * 1 == m; }
  }

  /** A slot is free while fewer jobs and children are counted than there are slots, of which there is always one. */
  lemma FreeMeans(s: State)
    ensures FreeSlot(s) <==> if s.maxKids > 1 then s.kids + s.active < s.maxKids else s.kids + s.active == 0
  {
  }

  // ---------------------------------------------------------------- the life of a client

  /** How a client comes into a status: from which status and by what. */
  lemma StatusMeans(s: State, c: Client, e: Event)
    requires OfClient(e) && ClientEnabled(s, c, e) && Changed(s, c, e).status != c.status
    ensures match Changed(s, c, e).status
      case WAITCREATEENV => c.status == UNKNOWN && e.AskNative?
      case GOTNATIVE => c.status == WAITCREATEENV && e.NativeReady?
      case WAITFORCS => c.status in {UNKNOWN, GOTNATIVE} && e.GetCS? && s.scheduler
      case PENDING_USE_CS =>
        || (c.status in {UNKNOWN, GOTNATIVE} && e.GetCS? && !s.scheduler)
        || (c.status == WAITFORCS && e.UseCS? && e.mine)
      case WAITCOMPILE => c.status == WAITFORCS && e.UseCS? && !e.mine
      case LINKJOB => c.status in {UNKNOWN, GOTNATIVE} && e.LocalJob?
      case TOCOMPILE => c.status == UNKNOWN && e.CompileFile?
      case CLIENTWORK => (c.status == LINKJOB && e.StartLocal?) || (c.status == PENDING_USE_CS && e.StartPending?)
      case WAITFORCHILD => c.status == TOCOMPILE && e.StartCompile?
      case JOBDONE => c.status in {CLIENTWORK, WAITCOMPILE} && e.JobDone?
      case TOINSTALL => c.status == UNKNOWN && e.StartInstall?
      case WAITINSTALL => c.status == TOINSTALL && e.Install? && e.event.EndOfTransfer? && c.child
      case UNKNOWN => c.status in {TOINSTALL, WAITINSTALL} && e.Install? && e.event != Chunk(true)
  {
  }

  /** And what a client then knows of its job: the id is the scheduler's, or the client's own if there is no scheduler,
      until the job is done; niceness and fullness are as asked for. */
  lemma KnowsMeans(s: State, c: Client, e: Event)
    requires OfClient(e) && ClientEnabled(s, c, e) && ClientOk(c, s.newId) && e.id == c.id
    ensures var c' := Changed(s, c, e);
      && (c'.status == PENDING_USE_CS && c.status != PENDING_USE_CS ==> c'.jobId == if e.UseCS? then e.jobId else c.id)
      && (c'.status == WAITCOMPILE && c.status != WAITCOMPILE ==> c'.jobId == e.jobId)
      && (c'.status in {WAITFORCS, JOBDONE, LINKJOB} ==> c'.jobId == 0)
      && (c'.status == CLIENTWORK ==> c'.jobId == c.jobId && c'.fulljob == c.fulljob)
      && (e.GetCS? || e.LocalJob? ==> c'.niceness == e.niceness)
      && (e.LocalJob? ==> c'.fulljob == e.full && c'.outfile == e.outfile)
      && (e.CompileFile? ==> c'.env == Some(e.platform + "/" + e.version))
      && (e.CompileFile? && c.status == CLIENTWORK ==> e.version == "__client" && c'.status == CLIENTWORK)
  {
  }

  /** Of the clients that wait for a slot, one that can be reached, or for a compile job one for which a child can be
      forked, is started; the others are ended. */
  lemma DueMeans(c: Client, reachable: set<nat>, forks: set<nat>)
    requires c.status in {LINKJOB, PENDING_USE_CS, TOCOMPILE}
    ensures var e := Due(c, reachable, forks);
      && OfClient(e) && e.id == c.id
      && (e.End? <==> if c.status == TOCOMPILE then c.id !in forks else c.id !in reachable)
      && (!e.End? ==> (e.StartLocal? <==> c.status == LINKJOB) && (e.StartPending? <==> c.status == PENDING_USE_CS)
                      && (e.StartCompile? <==> c.status == TOCOMPILE))
  {
  }

  /** When an environment is there, exactly the clients that wait for it are told, or gone if they cannot be reached. */
  lemma {:induction false} ToldMeans(cs: Clients, key: string, reachable: set<nat>, t: Client)
    ensures t in Told(cs, key, reachable) <==>
      exists c :: c in cs && if c.pendingEnv != key then t == c
                             else c.id in reachable && t == c.(status := GOTNATIVE, pendingEnv := "")
  {
    if cs != [] {
      ToldMeans(cs[1..], key, reachable, t);
      assert forall c :: c in cs <==> c == cs[0] || c in cs[1..];
    }
  }

  // ---------------------------------------------------------------- messages

  /** Whoever holds a job's id gives it back to the scheduler when it goes, except a client that waited for another
      node to compile and exits with 119; a request without an id is given back by the client's id, a compile job that
      waits as the compiling side, and a local job that runs as such. All others go silently. */
  lemma NoticeMeans(c: Client, newId: nat, exitcode: int)
    requires ClientOk(c, newId)
    ensures var n := EndNotice(c, exitcode);
      && (n.Some? && n.value.JobOver? <==> c.jobId > 0 && !(c.status == WAITCOMPILE && exitcode == 119))
      && (n.Some? && n.value.JobOver? ==> n.value.jobId == c.jobId)
      && (n.Some? && n.value.RequestOver? <==> c.status == WAITFORCS)
      && (n.Some? && n.value.RequestOver? ==> n.value.clientId == c.id)
      && (n.Some? && n.value.CompileOver? <==> c.status == TOCOMPILE)
      && (n.Some? && n.value.LocalOver? <==> c.status == CLIENTWORK && c.jobId == 0)
      && (n.Some? && n.value.LocalOver? ==> n.value.clientId == c.id)
  {
  }

  /** The scheduler is told of a load that moved by 100 or more, and of any that becomes 1000 or was 1000 before. */
  lemma LoadMeans(before: int, load: int)
    ensures D.MustTell(before, load) <==>
      load - before >= 100 || before - load >= 100 || (load == 1000 && before != 1000) || (before == 1000 && load != 1000)
  {
  }

  // ---------------------------------------------------------------- environments

  /** What may go: a received environment whose files are missing, or that no job uses and nobody has used for more
      than 200 seconds; a native one that is missing, or has not been used for more than 200 seconds, or a day if there
      are fewer than 5, or a year while it is made. */
  lemma MayGoMeans(c: Cache, key: string, now: int, missing: set<string>, used: set<string>)
    ensures MayGo(c, Removal.Received(key), now, missing, used) <==>
      key in Keys(c.received) && (key in missing || (Lookup(c.received, key).lastUse < now - 200 && key !in used))
    ensures MayGo(c, Native(key), now, missing, used) <==>
      && key in Keys(c.native)
      && var e := Lookup(c.native, key);
      || (e.name != "" && e.name in missing)
      || e.lastUse < now - (if e.creating then 31536000 else if |c.native| < 5 then 86400 else 200)
  {
  }

  /** If no environment is missing, the one picked has been unused for longest of all that may go. */
  lemma PickOldest(c: Cache, newEnv: string, now: int, missing: set<string>, used: set<string>, k: Removal)
    requires Good(c.received) && Good(c.native) && Pick(c, newEnv, now, missing, used).Some?
    requires MayGo(c, k, now, missing, used)
    requires forall e :: e in c.received ==> e.key !in missing
    requires forall e :: e in c.native ==> e.name == "" || e.name !in missing
    ensures Entry(c, Pick(c, newEnv, now, missing, used).value).lastUse <= Entry(c, k).lastUse
  {
    NoKey(c.received);
    NoKey(c.native);
    ReceivedPicked(c.received, now, missing, used, "", now + 90000);
    var (_, time) := PickReceived(c.received, now, missing, used, "", now + 90000);
    NativePicked(c.native, |c.native|, now, missing, "", time);
  }

  /** Nothing goes while the cache is within its limit, and above it the one picked goes first. */
  lemma CleansAbove(c: Cache, limit: nat, newEnv: string, now: int, missing: set<string>, used: set<string>)
    ensures c.size <= limit ==> Cleaned(c, limit, newEnv, now, missing, used) == c
    ensures c.size > limit && Pick(c, newEnv, now, missing, used).Some? ==>
      Cleaned(c, limit, newEnv, now, missing, used)
        == Cleaned(Removed(c, Pick(c, newEnv, now, missing, used).value), limit, newEnv, now, missing, used)
  {
  }

  /** An environment is used exactly while the job of some client that has one waits to compile or compiles, or the client
      installs an environment. */
  lemma UsedMeans(cs: Clients, key: string)
    ensures key in UsedBy(cs) <==> exists c :: && c in cs && c.env == Some(key)
                                               && c.status in {TOCOMPILE, WAITFORCHILD, TOINSTALL, WAITINSTALL}
  {
    UsedIs(cs, key);
    assert forall c :: Uses(c, key) <==>
      c.env == Some(key) && c.status in {TOCOMPILE, WAITFORCHILD, TOINSTALL, WAITINSTALL};
  }

  /** A received environment that a client's waiting or running compile job needs outlives every clean-up, unless its
      files are missing. */
  lemma NeededStays(c: Cache, limit: nat, newEnv: string, now: int, missing: set<string>, cs: Clients, client: Client, key: string)
    requires Covers(c) && key in Keys(c.received) && key !in missing
    requires client in cs && client.env == Some(key) && (client.status == TOCOMPILE || client.status == WAITFORCHILD)
    ensures var t := Cleaned(c, limit, newEnv, now, missing, UsedBy(cs));
      key in Keys(t.received) && Lookup(t.received, key) == Lookup(c.received, key)
  {
    UsedIs(cs, key);
    assert Uses(client, key);
    var r := Removal.Received(key);
    CleanedKeeps(c, limit, newEnv, now, missing, UsedBy(cs));
    assert Holds(c, r) && !MayGo(c, r, now, missing, UsedBy(cs));
    assert Holds(Cleaned(c, limit, newEnv, now, missing, UsedBy(cs)), r);
  }

  lemma {:induction false} StoreOthers(l: Envs, e: Env, other: string)
    requires Good(l) && other in Keys(l) && other != e.key
    ensures other in Keys(Store(l, e)) && Lookup(Store(l, e), other) == Lookup(l, other)
  {
    hide Precedes, Made;
    StoreFacts(l, e);
    if Precedes(e.key, l[0].key) {
      assert ([e] + l)[1..] == l;
    } else if l[0].key != e.key && l[0].key != other {
      StoreOthers(l[1..], e, other);
      var r := Store(l[1..], e);
      assert ([l[0]] + r)[1..] == r;
    }
  }

  /** An environment that is used has the time of its use, its size and name unchanged; a new one has its size and the time
      at which it came; one that is asked for is being made, without name and size; and no other environment changes. */
  lemma StampMeans(c: Cache, key: string, name: string, size: nat, now: int, other: string)
    requires Good(c.received) && Good(c.native)
    ensures var t := Touched(c.received, key, now);
      && key in Keys(t) && Lookup(t, key).lastUse == now
      && Lookup(t, key).size == (if key in Keys(c.received) then Lookup(c.received, key).size else 0)
      && (other in Keys(c.received) && other != key ==> other in Keys(t) && Lookup(t, other) == Lookup(c.received, other))
    ensures key in Keys(c.native) ==>
      key in Keys(Stamped(c.native, key, now)) && Lookup(Stamped(c.native, key, now), key) == Lookup(c.native, key).(lastUse := now)
    ensures var a := AddedNative(c, key, name, size, now);
      a.size == c.size + size && key in Keys(a.native) && Lookup(a.native, key) == Env(key, name, now, size, false)
    ensures var r := Requested(c.native, key);
      if key in Keys(c.native) && Lookup(c.native, key).creating then r == c.native
      else key in Keys(r) && Lookup(r, key).creating && Lookup(r, key).name == "" && Lookup(r, key).size == 0
  {
    hide Store, Lookup, Good;
    StoreFacts(c.received, Env(key, key, now, SizeOf(c.received, key), false));
    StoreFacts(c.native, (if key in Keys(c.native) then Lookup(c.native, key) else Env(key, "", 0, 0, false)).(lastUse := now));
    StoreFacts(c.native, Env(key, name, now, size, false));
    StoreFacts(c.native, Env(key, "", 0, 0, true));
    if other in Keys(c.received) && other != key {
      StoreOthers(c.received, Env(key, key, now, SizeOf(c.received, key), false), other);
    }
  }
}
