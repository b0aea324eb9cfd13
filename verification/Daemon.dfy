/** The daemon as the program it is: one object whose counters, client list and environment maps the handlers
    change in place (daemon/main.cpp). What system calls, other processes and peers do comes in as arguments. */
module Daemon {
  import opened Common
  import opened DaemonSpec
  import opened DaemonRuns
  import opened EnvCache

  /** The cache after a transfer: if it is over, a finalized environment of that size joins the cache, and the cache
      is cleaned up. `cs` are the clients by then. */
  function Settled(c: Cache, limit: nat, o: Outcome, outfile: string, size: nat, now: int, missing: set<string>, cs: Clients): Cache {
    if o == Going then c
    else Cleaned(Added(c, outfile, if o == Finalized then size else 0, now), limit, outfile, now, missing, UsedBy(cs))
  }

  /** Is a load worth a message? */
  predicate MustTell(before: int, load: int) {
    Abs(load - before) >= 100 || (load == 1000) != (before == 1000)
  }

  /** Ending a client cancels its transfer. */
  function EndOutcome(c: Client): Outcome {
    if Installing(c) then Failed else Going
  }

  class Daemon {
    var clients: Clients
    var currentKids: nat
    var activeProcesses: nat
    var newClientId: nat
    var scheduler: bool
    var currentLoad: int
    var received: Envs
    var native: Envs
    var cacheSize: nat
    const maxKids: nat
    const cacheSizeLimit: nat
    /** Sizes of environments that were installed again without being removed before. */
    ghost var overwritten: nat
    /** The calls of finalize_install_environment. */
    ghost var finalized: seq<Finalization>

    ghost function View(): State
      reads this
    {
      State(clients, currentKids, activeProcesses, maxKids, newClientId, scheduler, finalized)
    }

    function CacheView(): Cache
      reads this`received, this`native, this`cacheSize
    {
      Cache(received, native, cacheSize)
    }

    /** The cache's size covers the sizes in both maps, and exceeds them only by what was overwritten. */
    ghost predicate CacheOk()
      reads this`received, this`native, this`cacheSize, this`overwritten
    {
      Good(received) && Good(native) && cacheSize == Total(received) + Total(native) + overwritten
    }

    lemma NativeGood()
      requires CacheOk()
      ensures Good(native)
    {
    }

    constructor (maxKids: nat, cacheSizeLimit: nat)
      ensures View() == Initial(maxKids) && Inv(View()) && CacheOk() && currentLoad == -1000
    {
      clients, received, native := [], [], [];
      currentKids, activeProcesses, newClientId, cacheSize, overwritten := 0, 0, 0, 0, 0;
      currentLoad := -1000;
      scheduler := false;
      finalized := [];
      this.maxKids, this.cacheSizeLimit := maxKids, cacheSizeLimit;
    }

    // -------------------------------------------------------------- the scheduler

    /** close_scheduler. */
    method CloseScheduler()
      modifies this`scheduler
      ensures !scheduler && OrLost(old(View()), View())
    {
      if !scheduler {
        return;
      }
      scheduler := false;
    }

    /** A failed send closes the connection to the scheduler. */
    method SendScheduler(delivered: bool) returns (ok: bool)
      modifies this`scheduler
      ensures ok == (old(scheduler) && delivered) && scheduler == ok && OrLost(old(View()), View())
    {
      if !scheduler {
        return false;
      }
      if !delivered {
        CloseScheduler();
        return false;
      }
      ok := true;
    }

    /** reconnect: a scheduler that was found is greeted, and the load will be reported anew. */
    method Reconnect(found: bool, delivered: bool) returns (ok: bool)
      requires Inv(View())
      modifies this`scheduler, this`currentLoad
      ensures Inv(View()) && ok == scheduler
      ensures if old(scheduler) || !found then View() == old(View()) && currentLoad == old(currentLoad)
              else Happened(old(View()), Connected, View()) && currentLoad == -1000 && ok == delivered
    {
      hide InvBut;
      if scheduler {
        return true;
      }
      StepKeeps(View(), Connected);
      scheduler := found;
      if !scheduler {
        return false;
      }
      currentLoad := -1000;
      ghost var s := View();
      ok := SendScheduler(delivered);
      OtherScheduler(s, scheduler, 0);
    }

    /** maybe_stats: when it is due, the load is measured, and reported if it changed by much or reached or left its
        maximum. */
    method MaybeStats(due: bool, load: nat, delivered: bool) returns (ok: bool)
      modifies this`scheduler, this`currentLoad
      ensures OrLost(old(View()), View())
      ensures ok == !(due && MustTell(old(currentLoad), load) && !(old(scheduler) && delivered))
      ensures scheduler == (old(scheduler) && (due && MustTell(old(currentLoad), load) ==> delivered))
      ensures currentLoad == if due && ok then load else old(currentLoad)
    {
      if due {
        if Abs(load - currentLoad) >= 100 || (load == 1000 && currentLoad != 1000) || (load != 1000 && currentLoad == 1000) {
          ok := SendScheduler(delivered);
          if !ok {
            return;
          }
        }
        currentLoad := load;
      }
      ok := true;
    }

    /** The scheduler closed the connection: all clients end. */
    method SchedulerClosed(now: int, missing: set<string>, delivered: bool, load: nat)
      requires Inv(View()) && CacheOk() && scheduler
      modifies this
      ensures clients == [] && !scheduler && CacheOk() && overwritten == old(overwritten)
      ensures EnabledAll(old(View()), [Lost, Cleared]) && View() == Run(old(View()), [Lost, Cleared])
    {
      hide InvBut, CacheOk;
      ghost var s := View();
      StepKeeps(s, Lost);
      CloseScheduler();
      var reaped := ClearChildren(now, missing, delivered, load);
      LostCleared(s);
    }

    /** The end of a round of answer_client_requests: a scheduler lost in its course means the end of all clients. */
    method EndRound(hadScheduler: bool, now: int, missing: set<string>, delivered: bool, load: nat)
      requires Inv(View()) && CacheOk()
      modifies this
      ensures Inv(View()) && CacheOk() && overwritten == old(overwritten)
      ensures if hadScheduler && !old(scheduler) then Happened(old(View()), Cleared, View()) else View() == old(View())
    {
      if hadScheduler && !scheduler {
        var reaped := ClearChildren(now, missing, delivered, load);
      }
    }

    // -------------------------------------------------------------- the cache of environments

    /** Environments that some client's job needs. */
    method UsedEnvs() returns (used: set<string>)
      ensures used == UsedBy(clients)
    {
      used := {};
      assert clients[0..] == clients;
      for i := 0 to |clients|
        invariant used + UsedBy(clients[i..]) == UsedBy(clients)
      {
        var c := clients[i];
        assert clients[i..][1..] == clients[i + 1..];
        if (c.status == TOCOMPILE || c.status == TOINSTALL || c.status == WAITINSTALL || c.status == WAITFORCHILD)
           && c.env.Some? {
          used := used + {c.env.value};
        }
      }
    }

    /** The lookup makes an empty entry if there is none. */
    method RemoveNativeEnvironment(key: string)
      requires CacheOk()
      modifies this`native, this`cacheSize
      ensures CacheOk() && CacheView() == Removed(old(CacheView()), Native(key))
    {
      RemoveFacts(native, key);
      var size := SizeOf(native, key);
      assert cacheSize >= size;
      cacheSize := cacheSize - size;
      native := Remove(native, key);
    }

    /** The lookup makes an empty entry if there is none. */
    method RemoveEnvironment(key: string)
      requires CacheOk()
      modifies this`received, this`cacheSize
      ensures CacheOk() && CacheView() == Removed(old(CacheView()), Received(key))
    {
      RemoveFacts(received, key);
      var size := SizeOf(received, key);
      assert cacheSize >= size;
      cacheSize := cacheSize - size;
      received := Remove(received, key);
    }

    /** While the cache is too large, the environment unused for longest goes, one at a time; only missing and
        idle ones do. It stops under the limit, or if nothing but `newEnv` is picked. */
    method CheckCacheSize(newEnv: string, now: int, missing: set<string>)
      requires CacheOk()
      modifies this`received, this`native, this`cacheSize
      ensures CacheOk()
      ensures CacheView() == Cleaned(old(CacheView()), cacheSizeLimit, newEnv, now, missing, UsedBy(clients))
    {
      var used := UsedEnvs();
      while cacheSize > cacheSizeLimit
        invariant CacheOk()
        invariant Cleaned(CacheView(), cacheSizeLimit, newEnv, now, missing, used)
          == Cleaned(old(CacheView()), cacheSizeLimit, newEnv, now, missing, used)
        decreases |received| + |native|
      {
        var oldestReceived, time := OldestReceived(received, now, missing, used);
        var oldestNative := OldestNative(native, now, missing, time);
        if (oldestReceived == "" || oldestReceived == newEnv) && (oldestNative == "" || oldestNative == newEnv) {
          break;
        }
        if oldestNative != "" {
          RemoveNativeEnvironment(oldestNative);
        } else {
          RemoveEnvironment(oldestReceived);
        }
      }
    }

    method Touch(key: string, now: int)
      requires CacheOk() && key != ""
      modifies this`received
      ensures CacheOk() && received == Touched(old(received), key, now) && Total(received) == old(Total(received))
    {
      StoreFacts(received, Env(key, key, now, SizeOf(received, key), false));
      received := Store(received, Env(key, key, now, SizeOf(received, key), false));
    }

    /** A finalized environment joins the cache. */
    method AddReceived(key: string, size: nat, now: int)
      requires CacheOk() && key != "" && size > 0
      modifies this`received, this`cacheSize, this`overwritten
      ensures CacheOk() && CacheView() == Added(old(CacheView()), key, size, now)
      ensures overwritten == old(overwritten) + old(SizeOf(received, key))
    {
      StoreFacts(received, Env(key, key, now, size, false));
      overwritten := overwritten + SizeOf(received, key);
      cacheSize := cacheSize + size;
      received := Store(received, Env(key, key, now, size, false));
    }

    // -------------------------------------------------------------- environment installation

    /** Puts a changed client in its place. */
    method Update(c: Client)
      requires c.id in Ids(clients)
      modifies this`clients
      ensures clients == Put(old(clients), c)
    {
      clients := Put(clients, c);
    }

    /** finish_transfer_env: what is still open or alive is closed and killed, which only a cancelled transfer
        may leave; then the environment joins the cache, unless the transfer was cancelled or finalizing it
        failed (`size` 0). */
    method FinishTransferEnv(id: nat, cancel: bool, size: nat, now: int, missing: set<string>, delivered: bool, load: nat)
      returns (ok: bool)
      requires CacheOk() && id in Ids(clients) && Installing(Get(clients, id)) && Get(clients, id).outfile != ""
      requires !cancel ==> !Get(clients, id).pipeFrom && !Get(clients, id).pipeTo && !Get(clients, id).child
      requires Get(clients, id).child ==> currentKids > 0
      modifies this
      ensures CacheOk() && clients == Put(old(clients), Finished(old(Get(clients, id))))
      ensures currentKids == old(currentKids) - Bit(old(Get(clients, id).child))
      ensures activeProcesses == old(activeProcesses) && newClientId == old(newClientId) && (scheduler ==> old(scheduler))
      ensures overwritten == old(overwritten) + if cancel || size == 0 then 0 else old(SizeOf(received, Get(clients, id).outfile))
      ensures CacheView() == Settled(old(CacheView()), cacheSizeLimit, if cancel then Failed else Finalized,
                                     old(Get(clients, id).outfile), size, now, missing, clients)
      ensures finalized == if cancel then old(finalized) else old(finalized) + [Finalization(id, old(Get(clients, id).outfile))]
      ensures currentLoad == if MustTell(old(currentLoad), load) && !scheduler then old(currentLoad) else load
    {
      hide CacheOk, Cleaned, UsedBy, Ids, Put, Get, SizeOf, MustTell, OrLost;
      var c := Get(clients, id);
      if c.pipeFrom {
        assert cancel;
        c := c.(pipeFrom := false);
      }
      if c.pipeTo {
        assert cancel;
        c := c.(pipeTo := false);
      }
      if c.child {
        assert cancel;
        c := c.(child := false);
        assert currentKids > 0;
        currentKids := currentKids - 1;
      }
      var installedSize := 0;
      if !cancel {
        finalized := finalized + [Finalization(id, c.outfile)];
        installedSize := size;
      }
      var current := c.outfile;
      Update(c.(status := UNKNOWN, outfile := ""));
      if installedSize > 0 {
        AddReceived(current, installedSize, now);
      }
      CheckCacheSize(current, now, missing);
      ok := SendScheduler(delivered);
      var told := MaybeStats(true, load, delivered);
      ok := ok && told;
    }

    /** The first half of handle_end: a transfer is cancelled, slots are given back, the client leaves. */
    method Release(id: nat, now: int, missing: set<string>, delivered: bool, load: nat) returns (c: Client)
      requires CacheOk() && id in Ids(clients) && ClientOk(Get(clients, id), newClientId)
      requires Value(SLOTS, Slots(View()), Get(clients, id)) <= activeProcesses
      requires Installing(Get(clients, id)) && Get(clients, id).child ==> currentKids > 0
      modifies this
      ensures View() == EndState(old(View()), id).(scheduler := scheduler) && (scheduler ==> old(scheduler))
      ensures CacheOk() && overwritten == old(overwritten)
      ensures !Installing(old(Get(clients, id))) ==> currentLoad == old(currentLoad)
      ensures CacheView() == Settled(old(CacheView()), cacheSizeLimit, EndOutcome(old(Get(clients, id))),
                                     old(Get(clients, id).outfile), 0, now, missing, clients)
      ensures c == if Installing(old(Get(clients, id))) then Finished(old(Get(clients, id))) else old(Get(clients, id))
      ensures !Installing(old(Get(clients, id))) ==> scheduler == old(scheduler)
      ensures newClientId == old(newClientId)
    {
      hide CacheOk, Ids, Put, Erase, Cleaned, Added, UsedBy;
      ghost var s := View();
      c := Get(clients, id);
      PutGet(clients, Finished(c));
      UsedWithout(clients, Finished(c));
      if Installing(c) {
        var ok := FinishTransferEnv(id, true, 0, now, missing, delivered, load);
        c := Get(clients, id);
      }
      if c.status == CLIENTWORK {
        activeProcesses := activeProcesses - if c.fulljob then Max(1, maxKids) else 1;
      }
      clients := Erase(clients, id);
    }

    /** handle_end. The scheduler hears of jobs that are not over yet; no client has a job id in a status where
        the source rules that out. `orphans` counts compile children whose clients are gone. */
    method HandleEnd(id: nat, exitcode: int, now: int, missing: set<string>, delivered: bool, load: nat, ghost orphans: int)
      returns (notice: Option<Notice>)
      requires InvBut(View(), orphans) && CacheOk() && id in Ids(clients)
      requires orphans >= 0 || Get(clients, id).status == WAITFORCHILD
      modifies this
      ensures (EndCovered(old(View()), id, orphans);
        View() == EndState(old(View()), id).(scheduler := scheduler))
      ensures InvBut(View(), orphans + Value(COMPILING, Slots(old(View())), Get(old(clients), id)))
      ensures scheduler ==> old(scheduler)
      ensures CacheOk() && overwritten == old(overwritten)
      ensures !Installing(old(Get(clients, id))) ==> currentLoad == old(currentLoad)
      ensures CacheView() == Settled(old(CacheView()), cacheSizeLimit, EndOutcome(old(Get(clients, id))),
                                     old(Get(clients, id).outfile), 0, now, missing, clients)
      ensures notice == None || notice == EndNotice(old(Get(clients, id)), exitcode)
      ensures old(scheduler) && !Installing(old(Get(clients, id))) ==> notice == EndNotice(old(Get(clients, id)), exitcode)
    {
      hide InvBut, CacheOk, EndState, Ids, Get, Value, Slots, Settled, ClientOk, EndNotice, Finished;
      ghost var s := View();
      EndCovered(s, id, orphans);
      EndKeeps(s, id, orphans);
      InstallShape(s, id);
      NoNotice(Get(clients, id), exitcode);
      var c := Release(id, now, missing, delivered, load);
      ghost var t := EndState(s, id);
      notice := None;
      if scheduler && c.status != WAITFORCHILD {
        notice := Notify(c, exitcode);
        var ok := SendScheduler(delivered);
      }
      OtherScheduler(t, scheduler, orphans + Value(COMPILING, Slots(s), Get(s.clients, id)));
    }

    method Notify(c: Client, exitcode: int) returns (notice: Option<Notice>)
      requires ClientOk(c, newClientId) && c.status != WAITFORCHILD
      ensures notice == EndNotice(c, exitcode)
    {
      var jobId := c.jobId;
      if c.status == WAITCOMPILE && exitcode == 119 {
        jobId := 0;
      }
      if c.status == TOCOMPILE {
        return Some(CompileOver);
      }
      if c.status == WAITFORCS {
        assert c.id > 0;
        return Some(RequestOver(c.id));
      }
      if jobId > 0 {
        assert c.status == WAITCOMPILE || c.status == PENDING_USE_CS || c.status == CLIENTWORK;
        return Some(JobOver(jobId));
      }
      if c.status == CLIENTWORK {
        return Some(LocalOver(c.id));
      }
      return None;
    }

    /** clear_children: every client goes, then the compile children that are left are waited for, exactly as many
        as there are. */
    method ClearChildren(now: int, missing: set<string>, delivered: bool, load: nat) returns (reaped: nat)
      requires Inv(View()) && CacheOk()
      modifies this
      ensures clients == [] && currentKids == 0 && activeProcesses == 0 && newClientId == 0
      ensures Happened(old(View()), Cleared, View()) && CacheOk() && overwritten == old(overwritten)
      ensures reaped == Sum(COMPILING, Slots(old(View())), old(clients))
    {
      hide InvBut, CacheOk, EndState, Value, Slots, Settled, Erase, Distinct, ClientOk, EndNotice;
      ghost var m := Slots(View());
      ghost var orphans: nat := 0;
      while clients != []
        invariant InvBut(View(), orphans) && CacheOk() && overwritten == old(overwritten)
        invariant orphans + Sum(COMPILING, m, clients) == Sum(COMPILING, m, old(clients))
        invariant Slots(View()) == m && finalized == old(finalized) && (scheduler ==> old(scheduler))
        decreases |clients|
      {
        ghost var s := View();
        var id := clients[0].id;
        EraseFacts(COMPILING, m, clients, id, newClientId);
        EndShape(s, id, orphans);
        var notice := HandleEnd(id, 116, now, missing, delivered, load, orphans);
        orphans := orphans + Value(COMPILING, m, Get(s.clients, id));
        SameSlots(s, View());
      }
      NobodyLeft(View(), orphans);
      reaped := 0;
      while currentKids > 0
        invariant currentKids + reaped == orphans
        modifies this`currentKids
      {
        currentKids := currentKids - 1;
        reaped := reaped + 1;
      }
      newClientId := 0;
      EmptyInv(View());
      ClearedIs(old(View()), View());
    }

    /** answer_client_requests accepts a connection. */
    method AcceptClient(at: nat)
      requires Inv(View())
      modifies this`newClientId, this`clients
      ensures View() == Step(old(View()), Accept(at)) && Inv(View())
    {
      StepKeeps(View(), Accept(at));
      hide InvBut;
      newClientId := newClientId + 1;
      clients := Insert(clients, at, NewClient(newClientId));
    }

    // -------------------------------------------------------------- requests of clients

    /** Puts a client back after an event that changed neither slots nor children. */
    method Become(ghost e: Event, c: Client)
      requires Inv(View()) && Enabled(View(), e) && OfClient(e) && !e.CompileDone? && !e.End? && !e.Install?
      requires c == Changed(View(), Get(clients, e.id), e)
      requires Value(SLOTS, Slots(View()), Get(clients, e.id)) == Value(SLOTS, Slots(View()), c)
      requires Value(KIDS, Slots(View()), Get(clients, e.id)) == Value(KIDS, Slots(View()), c)
      modifies this`clients
      ensures Stepped(old(View()), e, View())
    {
      hide InvBut, ClientEnabled, Changed, Value, Slots, ClientOk;
      CountersCover(View(), e.id);
      StepKeeps(View(), e);
      ChangedId(View(), e);
      clients := Put(clients, c);
    }

    /** Asks the scheduler for a node; without a scheduler the job is for this node. */
    method HandleGetCs(id: nat, niceness: nat, delivered: bool) returns (ok: bool)
      requires Inv(View()) && Enabled(View(), GetCS(id, niceness))
      modifies this`clients, this`scheduler
      ensures Happened(old(View()), GetCS(id, niceness), View())
      ensures Inv(View()) && (scheduler ==> old(scheduler))
    {
      hide InvBut, Stepped;
      var c := Get(clients, id).(status := WAITFORCS, niceness := niceness);
      if !scheduler {
        c := c.(status := PENDING_USE_CS, jobId := id);
      }
      Become(GetCS(id, niceness), c);
      SteppedInv(old(View()), GetCS(id, niceness), View());
      ghost var s := View();
      ok := true;
      if scheduler {
        ok := SendScheduler(delivered);
        OtherScheduler(s, scheduler, 0);
      }
      LostLater(old(View()), GetCS(id, niceness), View());
    }

    method HandleLocalJob(id: nat, niceness: nat, full: bool, outfile: string)
      requires Inv(View()) && Enabled(View(), LocalJob(id, niceness, full, outfile))
      modifies this`clients
      ensures Stepped(old(View()), LocalJob(id, niceness, full, outfile), View())
    {
      hide InvBut, Stepped;
      var c := Get(clients, id);
      Become(LocalJob(id, niceness, full, outfile), c.(status := LINKJOB, niceness := niceness, fulljob := full, outfile := outfile));
    }

    /** The scheduler's answer: the client is to wait for a slot here, or goes to another node. */
    method SchedulerUseCs(id: nat, jobId: nat, mine: bool, reachable: bool, now: int, missing: set<string>, delivered: bool, load: nat)
      requires Inv(View()) && CacheOk() && (id in Ids(clients) ==> Enabled(View(), UseCS(id, jobId, mine)))
      modifies this
      ensures Inv(View()) && CacheOk() && CacheView() == old(CacheView()) && overwritten == old(overwritten)
      ensures id in Ids(old(clients)) && (mine || reachable) ==> Stepped(old(View()), UseCS(id, jobId, mine), View())
      ensures id in Ids(old(clients)) && !(mine || reachable) ==> Ended(old(View()), id, View())
      ensures id !in Ids(old(clients)) ==> OrLost(old(View()), View())
    {
      hide InvBut, Stepped, Ended, CacheOk, Cleaned, Added, UsedBy, Ids, Get;
      var k := Index(clients, id);
      if k == |clients| {
        ghost var s := View();
        var ok := SendScheduler(delivered);
        OtherScheduler(s, scheduler, 0);
        return;
      }
      var c := Get(clients, id);
      if mine {
        Become(UseCS(id, jobId, mine), c.(status := PENDING_USE_CS, jobId := jobId));
        SteppedInv(old(View()), UseCS(id, jobId, mine), View());
      } else if !reachable {
        EndClient(id, 143, now, missing, delivered, load);
      } else {
        Become(UseCS(id, jobId, mine), c.(status := WAITCOMPILE, jobId := jobId));
        SteppedInv(old(View()), UseCS(id, jobId, mine), View());
      }
    }

    /** handle_end of a client without a compile child. */
    method EndClient(id: nat, exitcode: int, now: int, missing: set<string>, delivered: bool, load: nat)
      requires Inv(View()) && CacheOk() && id in Ids(clients) && Get(clients, id).status != WAITFORCHILD
      modifies this
      ensures Ended(old(View()), id, View()) && Inv(View()) && CacheOk() && overwritten == old(overwritten)
      ensures CacheView() == Settled(old(CacheView()), cacheSizeLimit, EndOutcome(old(Get(clients, id))),
                                     old(Get(clients, id).outfile), 0, now, missing, clients)
      ensures |clients| < |old(clients)| && (!Installing(old(Get(clients, id))) ==> currentLoad == old(currentLoad))
      ensures scheduler ==> old(scheduler)
    {
      hide InvBut, CacheOk, EndState, Value, Settled, Ended, Ids, Get, Slots;
      ghost var s := View();
      NotCompiling(s, id);
      var notice := HandleEnd(id, exitcode, now, missing, delivered, load, 0);
      EndHappened(s, id, View());
    }

    /** The job is over for its client: a running one gives back its slots. The client names its own job. */
    method HandleJobDone(id: nat, jobId: nat, delivered: bool) returns (ok: bool)
      requires Inv(View()) && Enabled(View(), JobDone(id)) && jobId == Get(clients, id).jobId
      modifies this`clients, this`activeProcesses, this`scheduler
      ensures Happened(old(View()), JobDone(id), View()) && Inv(View())
    {
      hide InvBut, Stepped, Put, Ids, Get;
      EndCovered(View(), id, 0);
      JobDoneStep(View(), id);
      SteppedInv(View(), JobDone(id), JobDoneResult(View(), id));
      var c := Get(clients, id);
      if c.status == CLIENTWORK {
        if c.fulljob {
          activeProcesses := activeProcesses - Max(1, maxKids);
        } else {
          activeProcesses := activeProcesses - 1;
        }
      }
      assert jobId == c.jobId;
      clients := Put(clients, c.(status := JOBDONE, fulljob := false, jobId := 0));
      ghost var s := View();
      ok := SendScheduler(delivered);
      OtherScheduler(s, scheduler, 0);
      LostLater(old(View()), JobDone(id), View());
    }

    /** A client that works here by itself goes on; any other client's job waits for a slot. */
    method HandleCompileFile(id: nat, platform: string, version: string, delivered: bool) returns (ok: bool)
      requires Inv(View()) && Enabled(View(), CompileFile(id, platform, version))
      modifies this`clients, this`scheduler
      ensures Happened(old(View()), CompileFile(id, platform, version), View()) && Inv(View())
    {
      hide InvBut, Stepped, EnvOf;
      var c := Get(clients, id).(env := Some(EnvOf(platform, version)));
      var work := c.status == CLIENTWORK;
      if work {
        assert version == CLIENT_ENV;
      } else {
        c := c.(status := TOCOMPILE);
      }
      ghost var e := CompileFile(id, platform, version);
      Become(e, c);
      SteppedInv(old(View()), e, View());
      ok := true;
      if work {
        ghost var s := View();
        ok := SendScheduler(delivered);
        OtherScheduler(s, scheduler, 0);
      }
      LostLater(old(View()), e, View());
    }

    // -------------------------------------------------------------- environment transfers of clients

    /** A child unpacks what the client sends; the first chunk came with the request. */
    method HandleTransferEnv(id: nat, outfile: string, forked: bool, written: bool, now: int, missing: set<string>, delivered: bool, load: nat)
      returns (ok: bool)
      requires Inv(View()) && CacheOk() && Enabled(View(), StartInstall(id, outfile))
      modifies this
      ensures Inv(View()) && CacheOk() && overwritten == old(overwritten)
      ensures CacheView() == Settled(old(CacheView()), cacheSizeLimit, if forked && !written then Failed else Going,
                                     outfile, 0, now, missing, clients)
      ensures !forked ==> !ok && Ended(old(View()), id, View())
      ensures forked ==> exists s: State ::
        (Stepped(old(View()), StartInstall(id, outfile), s) && if written then ok && View() == s else !ok && Ended(s, id, View()))
    {
      hide InvBut, Stepped, Ended, CacheOk, InstallEnabled;
      var c := Get(clients, id);
      if !forked {
        EndClient(id, 144, now, missing, delivered, load);
        return false;
      }
      ghost var s0 := View();
      StartTransfer(id, outfile);
      SteppedInv(s0, StartInstall(id, outfile), View());
      ghost var s := View();
      InstallStarted(s0, id, outfile, s);
      ok := HandleChunk(id, written, now, missing, delivered, load);
    }

    method StartTransfer(id: nat, outfile: string)
      requires Inv(View()) && Enabled(View(), StartInstall(id, outfile))
      modifies this`clients, this`currentKids
      ensures Stepped(old(View()), StartInstall(id, outfile), View())
    {
      StepKeeps(View(), StartInstall(id, outfile));
      ChangedId(View(), StartInstall(id, outfile));
      hide InvBut, Ids, Get, Put;
      var c := Get(clients, id);
      currentKids := currentKids + 1;
      clients := Put(clients, c.(status := TOINSTALL, outfile := outfile, child := true, pipeFrom := true, pipeTo := true));
    }

    /** handle_file_chunk_env for a chunk: it is written to the child, or the client goes. */
    method HandleChunk(id: nat, written: bool, now: int, missing: set<string>, delivered: bool, load: nat) returns (ok: bool)
      requires Inv(View()) && CacheOk() && id in Ids(clients) && InstallEnabled(Get(clients, id), Chunk(written))
      modifies this
      ensures Inv(View()) && CacheOk() && overwritten == old(overwritten)
      ensures CacheView() == Settled(old(CacheView()), cacheSizeLimit, if written then Going else Failed,
                                     old(Get(clients, id).outfile), 0, now, missing, clients)
      ensures if written then ok && View() == old(View()) else !ok && Ended(old(View()), id, View())
    {
      hide InvBut, Ended, CacheOk;
      if !written {
        EndClient(id, 137, now, missing, delivered, load);
        return false;
      }
      ok := true;
    }

    /** From the cache `before` a message of client `c` made the cache `after`; what is overwritten without being
        removed is the old size of an environment finalized again. */
    ghost predicate InstallSettled(before: Cache, after: Cache, overwrittenBefore: nat, c: Client, e: InstallEvent, size: nat,
                                   now: int, missing: set<string>)
      reads this`clients, this`overwritten
    {
      var o := InstallOutcome(c, e);
      && after == Settled(before, cacheSizeLimit, o, c.outfile, size, now, missing, clients)
      && overwritten == overwrittenBefore + if o == Finalized && size > 0 then SizeOf(before.received, c.outfile) else 0
    }

    /** handle_file_chunk_env for the end of the transfer: it is over if the child is. `size` is what finalizing
        would report. */
    method HandleTransferEnd(id: nat, size: nat, now: int, missing: set<string>, delivered: bool, load: nat) returns (ok: bool)
      requires Inv(View()) && CacheOk() && id in Ids(clients) && InstallEnabled(Get(clients, id), EndOfTransfer)
      modifies this
      ensures CacheOk() && (scheduler ==> old(scheduler))
      ensures Happened(old(View()), Install(id, EndOfTransfer), View())
      ensures InstallSettled(old(CacheView()), CacheView(), old(overwritten), old(Get(clients, id)), EndOfTransfer, size, now, missing)
    {
      hide InvBut, CacheOk, Stepped, Put, Ids, Get, Cleaned, Added, UsedBy;
      EndCovered(View(), id, 0);
      InstallStep(View(), id, EndOfTransfer);
      InstallFacts(View(), id);
      var c := Get(clients, id).(pipeTo := false);
      PutGet(clients, c);
      PutTwice(clients, c, Finished(c));
      PutTwice(clients, c, c.(status := WAITINSTALL));
      clients := Put(clients, c);
      if c.child {
        clients := Put(clients, c.(status := WAITINSTALL));
        ok := true;
      } else {
        ok := FinishTransferEnv(id, false, size, now, missing, delivered, load);
      }
      LostLater(old(View()), Install(id, EndOfTransfer), View());
    }

    /** handle_env_install_child_done: the child is counted off; if it failed, the transfer is cancelled, and if
        the transfer has ended, it is finished. */
    method HandleInstallChildDone(id: nat, success: bool, size: nat, now: int, missing: set<string>, delivered: bool, load: nat)
      returns (ok: bool)
      requires Inv(View()) && CacheOk() && id in Ids(clients) && InstallEnabled(Get(clients, id), ChildDone(success))
      modifies this
      ensures CacheOk() && (scheduler ==> old(scheduler))
      ensures Happened(old(View()), Install(id, ChildDone(success)), View())
      ensures InstallSettled(old(CacheView()), CacheView(), old(overwritten), old(Get(clients, id)), ChildDone(success), size, now, missing)
    {
      hide InvBut, CacheOk, Stepped, Put, Ids, Get, Cleaned, Added, UsedBy;
      EndCovered(View(), id, 0);
      InstallStep(View(), id, ChildDone(success));
      InstallFacts(View(), id);
      var c := Get(clients, id).(child := false, pipeFrom := false);
      PutGet(clients, c);
      PutTwice(clients, c, Finished(c));
      assert currentKids > 0;
      currentKids := currentKids - 1;
      clients := Put(clients, c);
      if !success {
        ok := FinishTransferEnv(id, true, size, now, missing, delivered, load);
      } else if c.pipeTo {
        assert c.status == TOINSTALL;
        ok := true;
      } else {
        ok := FinishTransferEnv(id, false, size, now, missing, delivered, load);
      }
      LostLater(old(View()), Install(id, ChildDone(success)), View());
    }

    // -------------------------------------------------------------- starting jobs

    /** get_earliest_client: some client in that status whom no other beats on both id and niceness; none only if
        there is none. */
    method GetEarliestClient(st: Status) returns (client: Option<Client>)
      requires AllOk(clients, newClientId)
      ensures client == Earliest(clients, st)
      ensures client == None <==> forall c :: c in clients ==> c.status != st
      ensures client.Some? ==> Unbeaten(clients, st, client.value)
    {
      hide AllOk, Unbeaten;
      client := None;
      var minClientId, minNiceness := 0, 0xffff_ffff;
      assert clients[0..] == clients;
      for i := 0 to |clients|
        invariant client == None ==> minClientId == 0 && minNiceness == 0xffff_ffff
        invariant client.Some? ==> minClientId == client.value.id > 0 && minNiceness == client.value.niceness
        invariant EarliestOf(clients[i..], st, client) == Earliest(clients, st)
      {
        var c := clients[i];
        OneOk(clients, i, newClientId);
        assert clients[i..][1..] == clients[i + 1..];
        if c.status == st && (minClientId == 0 || minClientId > c.id) && c.niceness < minNiceness {
          client := Some(c);
          minClientId := c.id;
          minNiceness := c.niceness;
        }
      }
      ChosenUnbeaten(clients, st, newClientId);
    }

    /** A local job gets its slot, or all slots. */
    method StartLocalJob(id: nat, delivered: bool) returns (sent: bool)
      requires Inv(View()) && Enabled(View(), StartLocal(id))
      modifies this`clients, this`activeProcesses, this`scheduler
      ensures Happened(old(View()), StartLocal(id), View())
      ensures Inv(View()) && sent == scheduler == (old(scheduler) && delivered)
    {
      hide InvBut, Stepped, Put, Ids, Get;
      StartLocalStep(View(), id);
      SteppedInv(View(), StartLocal(id), StartLocalResult(View(), id));
      var c := Get(clients, id);
      clients := Put(clients, c.(status := CLIENTWORK));
      if c.fulljob {
        activeProcesses := activeProcesses + Max(1, maxKids);
      } else {
        activeProcesses := activeProcesses + 1;
      }
      ghost var s := View();
      sent := SendScheduler(delivered);
      OtherScheduler(s, scheduler, 0);
      LostLater(old(View()), StartLocal(id), View());
    }

    method StartPendingJob(id: nat)
      requires Inv(View()) && Enabled(View(), StartPending(id))
      modifies this`clients, this`activeProcesses
      ensures Stepped(old(View()), StartPending(id), View())
    {
      hide InvBut, Stepped, Put, Ids, Get;
      StartPendingStep(View(), id);
      clients := Put(clients, Get(clients, id).(status := CLIENTWORK));
      activeProcesses := activeProcesses + 1;
    }

    /** A child compiles. */
    method StartCompileJob(id: nat, delivered: bool)
      requires Inv(View()) && Enabled(View(), StartCompile(id))
      modifies this`clients, this`currentKids, this`scheduler
      ensures Happened(old(View()), StartCompile(id), View())
      ensures Inv(View()) && (scheduler ==> old(scheduler))
    {
      hide InvBut, Stepped, Put, Ids, Get;
      StartCompileStep(View(), id);
      SteppedInv(View(), StartCompile(id), StartCompileResult(View(), id));
      currentKids := currentKids + 1;
      clients := Put(clients, Get(clients, id).(status := WAITFORCHILD, pipeFrom := true, child := true));
      ghost var s := View();
      var sent := SendScheduler(delivered);
      OtherScheduler(s, scheduler, 0);
      LostLater(old(View()), StartCompile(id), View());
    }

    /** What handle_old_request leaves: no client that could start, unless the slots are taken, or the load is
        too high for a compile job. */
    predicate NothingToStart()
      reads this`clients, this`currentKids, this`activeProcesses, this`currentLoad
    {
      || currentKids + activeProcesses >= Max(1, maxKids)
      || ((forall c :: c in clients ==> c.status != LINKJOB && c.status != PENDING_USE_CS)
          && (currentLoad >= 1000 || forall c :: c in clients ==> c.status != TOCOMPILE))
    }

    /** handle_old_request. `reachable` are the clients that can be sent to, `forks` those for whom a child can be
        started, `delivered` those the scheduler can be told of. `es` is what happened to clients: while there is a
        free slot, the next one is started or ended. The loop is left early only if the scheduler cannot be told
        of a local job. */
    method HandleOldRequest(reachable: set<nat>, forks: set<nat>, delivered: set<nat>, now: int, missing: set<string>)
      returns (told: bool, ghost es: seq<Event>)
      requires Inv(View()) && CacheOk()
      modifies this
      ensures Inv(View()) && CacheOk() && SameCache(old(CacheView()), old(overwritten), old(currentLoad))
      ensures Served(old(View()), es, View(), reachable, forks, currentLoad >= 1000)
      ensures told ==> NothingToStart()
      ensures !told ==> !scheduler && es != [] && es[|es| - 1].StartLocal?
      ensures forall k :: 0 <= k < |es| && es[k].StartLocal? && (told || k < |es| - 1) ==> es[k].id in delivered && old(scheduler)
      ensures scheduler ==> old(scheduler)
    {
      hide InvBut, CacheOk, Served, Happened, NextClient, Due, FreeSlot, Serving, Sum;
      told := true;
      es := [];
      ghost var m := Max(1, maxKids);
      NothingServed(View(), reachable, forks, currentLoad >= 1000);
      while currentKids + activeProcesses < Max(1, maxKids)
        invariant told && Inv(View()) && CacheOk() && SameCache(old(CacheView()), old(overwritten), old(currentLoad))
        invariant Served(old(View()), es, View(), reachable, forks, currentLoad >= 1000)
        invariant forall k :: 0 <= k < |es| && es[k].StartLocal? ==> es[k].id in delivered && old(scheduler)
        invariant scheduler ==> old(scheduler)
        decreases Sum(WAITING, m, clients)
      {
        ghost var before := View();
        var done;
        ghost var e;
        FreeHere(before);
        done, told, e := StartOne(reachable, forks, delivered, now, missing, m);
        if done {
          return;
        }
        ServedThen(old(View()), es, before, e, View(), reachable, forks, currentLoad >= 1000);
        es := es + [e];
        if !told {
          return;
        }
      }
    }

    /** The load is as it was, and of the cache only time stamps have changed. */
    ghost predicate SameCache(cache: Cache, overwrittenBefore: nat, load: int)
      reads this`received, this`native, this`cacheSize, this`overwritten, this`currentLoad
    {
      && native == cache.native && cacheSize == cache.size && Total(received) == Total(cache.received)
      && overwritten == overwrittenBefore && currentLoad == load
    }

    /** One pass: done if there is no client to start. */
    method StartOne(reachable: set<nat>, forks: set<nat>, delivered: set<nat>, now: int, missing: set<string>, ghost m: nat)
      returns (done: bool, told: bool, ghost e: Event)
      requires Inv(View()) && CacheOk() && FreeSlot(View())
      requires m == Max(1, maxKids)
      modifies this
      ensures Inv(View()) && CacheOk() && SameCache(old(CacheView()), old(overwritten), old(currentLoad))
      ensures done ==> told && View() == old(View()) && NothingToStart()
      ensures !done ==> NextClient(old(clients), currentLoad >= 1000).Some?
      ensures !done ==> e == Due(NextClient(old(clients), currentLoad >= 1000).value, reachable, forks)
      ensures !done ==> Happened(old(View()), e, View()) && Serving(e)
      ensures !done ==> Sum(WAITING, m, clients) < Sum(WAITING, m, old(clients))
      ensures !told ==> !scheduler && e.StartLocal?
      ensures !done && told && e.StartLocal? ==> e.id in delivered && old(scheduler)
      ensures scheduler ==> old(scheduler)
    {
      hide InvBut, CacheOk, NothingToStart, Due, Earliest, Happened, Sum, Serving;
      InvAllOk(View());
      told := true;
      done := false;
      e := Accept(0);
      var link := GetEarliestClient(LINKJOB);
      if link.Some? {
        told, e := ServeLink(link.value, reachable, forks, delivered, now, missing, m);
        return;
      }
      var pending := GetEarliestClient(PENDING_USE_CS);
      if pending.Some? {
        e := ServePending(pending.value, reachable, forks, delivered, now, missing, m);
        return;
      }
      if currentLoad >= 1000 {
        done := NoneWaiting();
        return;
      }
      var compile := GetEarliestClient(TOCOMPILE);
      if compile.Some? {
        e := ServeCompile(compile.value, reachable, forks, delivered, now, missing, m);
        return;
      }
      done := NoneWaiting();
    }

    method NoneWaiting() returns (done: bool)
      requires forall c :: c in clients ==> c.status != LINKJOB
      requires forall c :: c in clients ==> c.status != PENDING_USE_CS
      requires currentLoad >= 1000 || forall c :: c in clients ==> c.status != TOCOMPILE
      ensures done && NothingToStart()
    {
      return true;
    }

    method ServeLink(c: Client, reachable: set<nat>, ghost forks: set<nat>, delivered: set<nat>, now: int,
                     missing: set<string>, ghost m: nat)
      returns (told: bool, ghost e: Event)
      requires Inv(View()) && CacheOk() && FreeSlot(View())
      requires c in clients && c.status == LINKJOB && m == Max(1, maxKids)
      modifies this
      ensures Inv(View()) && CacheOk() && SameCache(old(CacheView()), old(overwritten), old(currentLoad))
      ensures e == Due(c, reachable, forks) && Happened(old(View()), e, View()) && Serving(e)
      ensures Sum(WAITING, m, clients) < Sum(WAITING, m, old(clients))
      ensures !told ==> !scheduler && e.StartLocal?
      ensures told && e.StartLocal? ==> e.id in delivered && old(scheduler)
      ensures scheduler ==> old(scheduler)
    {
      hide InvBut, CacheOk, Stepped, Happened, Cleaned, Added, UsedBy, Sum, Ids, Get;
      ghost var s := View();
      Waiting(s, c);
      told := true;
      e := Due(c, reachable, forks);
      if c.id !in reachable {
        EndClient(c.id, 112, now, missing, c.id in delivered, 0);
        EndedWaiting(s, c, View());
      } else {
        told := StartLocalJob(c.id, c.id in delivered);
        SteppedWaiting(s, c, StartLocal(c.id), View());
      }
    }

    method ServePending(c: Client, reachable: set<nat>, ghost forks: set<nat>, delivered: set<nat>, now: int,
                        missing: set<string>, ghost m: nat)
      returns (ghost e: Event)
      requires Inv(View()) && CacheOk() && FreeSlot(View())
      requires c in clients && c.status == PENDING_USE_CS && m == Max(1, maxKids)
      modifies this
      ensures Inv(View()) && CacheOk() && SameCache(old(CacheView()), old(overwritten), old(currentLoad))
      ensures e == Due(c, reachable, forks) && Happened(old(View()), e, View()) && Serving(e)
      ensures Sum(WAITING, m, clients) < Sum(WAITING, m, old(clients))
      ensures !e.StartLocal? && (scheduler ==> old(scheduler))
    {
      hide InvBut, CacheOk, Stepped, Happened, Cleaned, Added, UsedBy, Sum, Ids, Get;
      ghost var s := View();
      Waiting(s, c);
      e := Due(c, reachable, forks);
      if c.id in reachable {
        StartPendingJob(c.id);
        SteppedInv(s, StartPending(c.id), View());
        LostLater(s, StartPending(c.id), View());
        SteppedWaiting(s, c, StartPending(c.id), View());
      } else {
        EndClient(c.id, 129, now, missing, c.id in delivered, 0);
        EndedWaiting(s, c, View());
      }
    }

    method ServeCompile(c: Client, ghost reachable: set<nat>, forks: set<nat>, delivered: set<nat>, now: int,
                        missing: set<string>, ghost m: nat)
      returns (ghost e: Event)
      requires Inv(View()) && CacheOk() && FreeSlot(View())
      requires c in clients && c.status == TOCOMPILE && m == Max(1, maxKids)
      modifies this
      ensures Inv(View()) && CacheOk() && SameCache(old(CacheView()), old(overwritten), old(currentLoad))
      ensures e == Due(c, reachable, forks) && Happened(old(View()), e, View()) && Serving(e)
      ensures Sum(WAITING, m, clients) < Sum(WAITING, m, old(clients))
      ensures !e.StartLocal? && (scheduler ==> old(scheduler))
    {
      hide InvBut, CacheOk, Stepped, Happened, Cleaned, Added, UsedBy, Sum, Ids, Get;
      ghost var s := View();
      Waiting(s, c);
      e := Due(c, reachable, forks);
      Touch(c.env.value, now);
      if c.id in forks {
        StartCompileJob(c.id, c.id in delivered);
        SteppedWaiting(s, c, StartCompile(c.id), View());
      } else {
        EndClient(c.id, 117, now, missing, c.id in delivered, 0);
        EndedWaiting(s, c, View());
      }
    }

    /** The environment was used now; without its compiler it goes. */
    method UseEnvironment(key: string, compilerMissing: bool, now: int, delivered: bool)
      requires CacheOk() && key != ""
      modifies this`received, this`cacheSize, this`scheduler
      ensures CacheOk() && (scheduler ==> old(scheduler))
      ensures var touched := old(CacheView()).(received := Touched(old(received), key, now));
        CacheView() == if compilerMissing then Removed(touched, Received(key)) else touched
    {
      hide CacheOk, Touched, Removed;
      Touch(key, now);
      if compilerMissing {
        RemoveEnvironment(key);
        var announced := SendScheduler(delivered);
      }
    }

    /** A compile child is done: its slot is free again, and an environment without its compiler goes. */
    method HandleCompileDone(id: nat, compilerMissing: bool, now: int, missing: set<string>, delivered: bool, load: nat)
      requires Inv(View()) && CacheOk() && Enabled(View(), CompileDone(id))
      modifies this
      ensures CacheOk() && overwritten == old(overwritten) && (scheduler ==> old(scheduler))
      ensures Happened(old(View()), CompileDone(id), View())
      ensures (CompileDoneFacts(old(View()), id);
        var key := old(Get(clients, id)).env.value;
        var touched := old(CacheView()).(received := Touched(old(received), key, now));
        CacheView() == if compilerMissing then Removed(touched, Received(key)) else touched)
    {
      hide InvBut, CacheOk, EndState, Step, Value, ClientOk, Ids, Get, Cleaned, Added, UsedBy, Touched, Removed;
      ghost var s := View();
      CompileDoneFacts(s, id);
      var c := Get(clients, id);
      assert currentKids > 0;
      currentKids := currentKids - 1;
      UseEnvironment(c.env.value, compilerMissing, now, delivered);
      var sent := SendScheduler(delivered);
      CompileDoneStep(s, id, scheduler);
      EndShape(View(), id, -1);
      NotInstalling(s, id);
      var notice := HandleEnd(id, 151, now, missing, delivered, load, -1);
      LostLater(s, CompileDone(id), View());
    }

    // -------------------------------------------------------------- native environments

    /** A client asks for the native environment and waits until it is there; it goes if a file to make it of is not
        `there`. `stale` says that the files it was made of have changed, or that its tarball is gone. */
    method HandleGetNativeEnv(id: nat, key: string, there: bool, stale: bool, reachable: bool, now: int, missing: set<string>, delivered: bool, load: nat)
      requires Inv(View()) && CacheOk() && Enabled(View(), AskNative(id, key))
      modifies this
      ensures Inv(View()) && CacheOk() && overwritten == old(overwritten)
      ensures !there ==> Ended(old(View()), id, View()) && CacheView() == old(CacheView())
      ensures there ==>
        var c := Refreshed(old(CacheView()), key, stale);
        if !Available(c.native, key) then
          Stepped(old(View()), AskNative(id, key), View()) && CacheView() == c.(native := Requested(c.native, key))
        else
          && CacheView() == (if reachable then c.(native := Stamped(c.native, key, now)) else c)
          && exists s: State :: (Stepped(old(View()), AskNative(id, key), s) &&
                                 if reachable then Stepped(s, NativeReady(id), View()) else Ended(s, id, View()))
    {
      hide InvBut, CacheOk, Stepped, Ended, Stamped, Requested, Removed, Ids, Get, Keys, Lookup, Cleaned, Added, UsedBy;
      if !there {
        EndClient(id, 122, now, missing, delivered, load);
        return;
      }
      if Available(native, key) && stale {
        RemoveNativeEnvironment(Lookup(native, key).name);
      }
      AnswerNative(id, key, reachable, now, missing, delivered, load);
    }

    /** The client is answered at once, or waits. */
    method AnswerNative(id: nat, key: string, reachable: bool, now: int, missing: set<string>, delivered: bool, load: nat)
      requires Inv(View()) && CacheOk() && Enabled(View(), AskNative(id, key))
      modifies this
      ensures Inv(View()) && CacheOk() && overwritten == old(overwritten)
      ensures var c := old(CacheView());
        if !Available(c.native, key) then
          Stepped(old(View()), AskNative(id, key), View()) && CacheView() == c.(native := Requested(c.native, key))
        else
          && CacheView() == (if reachable then c.(native := Stamped(c.native, key, now)) else c)
          && exists s: State :: (Stepped(old(View()), AskNative(id, key), s) &&
                                 if reachable then Stepped(s, NativeReady(id), View()) else Ended(s, id, View()))
    {
      hide InvBut, CacheOk, Stepped, Ended, Stamped, Requested, Ids, Get, Keys, Lookup, Cleaned, Added, UsedBy;
      ghost var s0 := View();
      Become(AskNative(id, key), Get(clients, id).(status := WAITCREATEENV, pendingEnv := key));
      ghost var s := View();
      SteppedInv(s0, AskNative(id, key), s);
      AskedNative(s0, id, key, s);
      if Available(native, key) {
        FinishGetNativeEnv(id, key, reachable, now, missing, delivered, load);
      } else {
        StartCreateEnv(key);
      }
    }

    /** Starts making an environment that is not there, unless that is under way. */
    method StartCreateEnv(key: string)
      requires CacheOk() && key != "" && !Available(native, key)
      modifies this`native
      ensures CacheOk() && native == Requested(old(native), key) && overwritten == old(overwritten)
    {
      if key in Keys(native) {
        Members(native, Lookup(native, key));
        if Lookup(native, key).creating {
          return;
        }
      }
      StoreFacts(native, Env(key, "", 0, 0, true));
      native := Store(native, Env(key, "", 0, 0, true));
    }

    /** The environment is announced to the client that waits for it. */
    method FinishGetNativeEnv(id: nat, key: string, reachable: bool, now: int, missing: set<string>, delivered: bool, load: nat)
      requires Inv(View()) && CacheOk() && key != "" && id in Ids(clients) && Get(clients, id).pendingEnv == key
      modifies this
      ensures Inv(View()) && CacheOk() && overwritten == old(overwritten)
      ensures if reachable then Stepped(old(View()), NativeReady(id), View()) else Ended(old(View()), id, View())
      ensures CacheView() == if reachable then old(CacheView()).(native := Stamped(old(native), key, now)) else old(CacheView())
      ensures |clients| <= |old(clients)| && (!reachable ==> |clients| < |old(clients)|)
    {
      hide InvBut, CacheOk, Stepped, Ended, Stamped, Cleaned, Added, UsedBy, Ids;
      ghost var s := View();
      PendingWaits(s, id);
      if !reachable {
        EndClient(id, 138, now, missing, delivered, load);
        return;
      }
      StampNative(key, now);
      Become(NativeReady(id), Get(clients, id).(status := GOTNATIVE, pendingEnv := ""));
      SteppedInv(s, NativeReady(id), View());
      SteppedLength(s, NativeReady(id), View());
    }

    /** The lookup makes an empty entry if there is none. */
    method StampNative(key: string, now: int)
      requires CacheOk() && key != ""
      modifies this`native
      ensures CacheOk() && native == Stamped(old(native), key, now)
    {
      var e := if key in Keys(native) then Lookup(native, key) else Env(key, "", 0, 0, false);
      if key in Keys(native) { Members(native, e); }
      StoreFacts(native, e.(lastUse := now));
      native := Store(native, e.(lastUse := now));
    }

    /** create_env_finished and its caller: a failed environment (`size` 0) leaves no trace and its clients go; a
        new one joins the cache, which is cleaned up, and the clients that wait for it are told. */
    method CreateEnvFinished(key: string, name: string, size: nat, reachable: set<nat>, now: int, missing: set<string>, delivered: bool, load: nat)
      returns (ok: bool)
      requires Inv(View()) && CacheOk() && key in Keys(native) && Lookup(native, key).creating && name != ""
      modifies this
      ensures Inv(View()) && CacheOk() && overwritten == old(overwritten) && ok == (size > 0)
      ensures clients == Told(old(clients), key, if ok then reachable else {})
      ensures !ok ==> CacheView() == Removed(old(CacheView()), Native(key))
      ensures ok ==>
        var c := Cleaned(AddedNative(old(CacheView()), key, name, size, now), cacheSizeLimit, name, now, missing, UsedBy(old(clients)));
        CacheView() == c || CacheView() == c.(native := Stamped(c.native, key, now))
    {
      hide InvBut, Cleaned, UsedBy, Told, Stamped, Ids;
      Members(native, Lookup(native, key));
      if size == 0 {
        RemoveFacts(native, key);
        EndPending(key, now, missing, delivered, load);
        native := Remove(native, key);
        return false;
      }
      StoreFacts(native, Env(key, name, now, size, false));
      cacheSize := cacheSize + size;
      native := Store(native, Env(key, name, now, size, false));
      CheckCacheSize(name, now, missing);
      TellPending(key, reachable, now, missing, delivered, load);
      ok := true;
    }

    /** The clients of a failed environment: all of them go. */
    method EndPending(key: string, now: int, missing: set<string>, delivered: bool, load: nat)
      requires Inv(View()) && CacheOk() && key != ""
      modifies this
      ensures Inv(View()) && CacheOk() && overwritten == old(overwritten) && CacheView() == old(CacheView())
      ensures clients == Told(old(clients), key, {}) && forall c :: c in clients ==> c.pendingEnv != key
    {
      hide InvBut, CacheOk, Ended, Told, Cleaned, Added, UsedBy, Ids, Get, Distinct;
      var repeat := true;
      while repeat
        invariant Inv(View()) && CacheOk() && overwritten == old(overwritten) && CacheView() == old(CacheView())
        invariant Told(clients, key, {}) == Told(old(clients), key, {})
        invariant !repeat ==> forall c :: c in clients ==> c.pendingEnv != key
        decreases |clients|, repeat
      {
        repeat := false;
        var next := FirstPending(key);
        if next.Some? {
          ghost var s := View();
          Waiting(s, next.value);
          PendingWaits(s, next.value.id);
          EndClient(next.value.id, 121, now, missing, delivered, load);
          EndedClients(s, next.value.id, View());
          InvDistinct(s);
          ToldWithout(s.clients, key, next.value);
          repeat := true;
        }
      }
      ToldNone(clients, key, {});
    }

    method FirstPending(key: string) returns (c: Option<Client>)
      ensures c.Some? ==> c.value in clients && c.value.pendingEnv == key
      ensures c == None ==> forall c :: c in clients ==> c.pendingEnv != key
    {
      for i := 0 to |clients|
        invariant forall k :: 0 <= k < i ==> clients[k].pendingEnv != key
      {
        if clients[i].pendingEnv == key {
          return Some(clients[i]);
        }
      }
      return None;
    }

    /** The clients of a new environment: all that wait for it are told, or go if they cannot be reached. */
    method TellPending(key: string, reachable: set<nat>, now: int, missing: set<string>, delivered: bool, load: nat)
      requires Inv(View()) && CacheOk() && key != ""
      modifies this
      ensures Inv(View()) && CacheOk() && overwritten == old(overwritten)
      ensures clients == Told(old(clients), key, reachable)
      ensures CacheView() == old(CacheView()) || CacheView() == old(CacheView()).(native := Stamped(old(native), key, now))
    {
      hide InvBut, CacheOk, Ended, Stepped, Stamped, Ids, Get, Distinct, Told, Put, Erase;
      var i := 0;
      NativeGood();
      StampedTwice(native, key, now);
      assert clients[..0] + Told(clients[0..], key, reachable) == Told(clients, key, reachable) by { assert clients[0..] == clients; }
      while i < |clients|
        invariant i <= |clients| && Inv(View()) && CacheOk() && overwritten == old(overwritten)
        invariant clients[..i] + Told(clients[i..], key, reachable) == Told(old(clients), key, reachable)
        invariant CacheView() == old(CacheView()) || CacheView() == old(CacheView()).(native := Stamped(old(native), key, now))
        decreases |clients| - i
      {
        ghost var s := View();
        var c := clients[i];
        Waiting(s, c);
        InvDistinct(s);
        TellOne(s.clients, i, key, reachable);
        if c.pendingEnv == key {
          FinishGetNativeEnv(c.id, key, c.id in reachable, now, missing, delivered, load);
          if c.id in reachable {
            NativeReadyClients(s, c.id, View());
            i := i + 1;
          } else {
            EndedClients(s, c.id, View());
          }
        } else {
          i := i + 1;
        }
      }
      ToldNone([], key, reachable);
      assert clients[..i] == clients && clients[i..] == [];
    }
  }
}
