/** A blocked head keeps a job waiting that could be placed (scheduler/scheduler.cpp:979-1029). */
module QueueExample {
  import opened Common
  import opened CompileServers
  import opened SchedulerSpec
  import opened SchedulerInv
  import opened SchedulerRuns
  import Q = JobQueue

  function Node(id: nat, name: string, maxJobs: int, load: nat, features: set<nat>, count: int): CompileServer {
    CompileServer(id, name, name, name, "x86_64", 0, load, maxJobs, false, true, features, 0, true, [], [], count, 0, [], map[])
  }

  function Ask(clientId: nat, features: set<nat>): Request {
    Request(clientId, [("x86_64", "env")], "x86_64", "", 0, features, 0)
  }

  /** A submitter without slots, a node with a feature that is overloaded, and an idle node without it. */
  function Three(count: int): map<nat, CompileServer> {
    map[1 := Node(1, "a", 0, 0, {}, count), 2 := Node(2, "b", 1, 1000, {7}, 0), 3 := Node(3, "c", 1, 0, {}, 0)]
  }

  /** The submitter asked for a node with the feature, and then for any node. */
  function Blocked(): State {
    var a, b := NewJob(1, 1, Ask(1, {7})), NewJob(2, 1, Ask(2, {}));
    State(map[1 := a, 2 := b], Three(2), [1, 2, 3], [Q.Group(1, 0, [1, 2])], 2, 3)
  }

  lemma {:induction false} NoneStale(s: State, css: seq<nat>, node: CompileServer)
    requires forall h :: h in css && h in s.servers ==> !Stale(s.servers[h], node)
    ensures RemoveStale(s, css, node) == s
  {
    if css != [] { NoneStale(s, css[1..], node); }
  }

  lemma Logins()
    ensures var a, b, c := Node(0, "a", 0, 0, {}, 0), Node(0, "b", 1, 1000, {7}, 0), Node(0, "c", 1, 0, {}, 0);
      SchedulerSpec.Login(SchedulerSpec.Login(SchedulerSpec.Login(INITIAL, a, false), b, false), c, false)
        == State(map[], Three(0), [1, 2, 3], [], 0, 3)
  {
    var a, b, c := Node(0, "a", 0, 0, {}, 0), Node(0, "b", 1, 1000, {7}, 0), Node(0, "c", 1, 0, {}, 0);
    var s1 := State(map[], map[1 := Node(1, "a", 0, 0, {}, 0)], [1], [], 0, 1);
    var s2 := State(map[], map[1 := Node(1, "a", 0, 0, {}, 0), 2 := Node(2, "b", 1, 1000, {7}, 0)], [1, 2], [], 0, 2);
    assert a.name != b.name && a.name != c.name && b.name != c.name by { assert "a"[0] != "b"[0] && "a"[0] != "c"[0] && "b"[0] != "c"[0]; }
    hide RemoveStale;
    NoneStale(INITIAL, [], a);
    assert [] + [1] == [1];
    assert SchedulerSpec.Login(INITIAL, a, false) == s1;
    NoneStale(s1, [1], b);
    assert SchedulerSpec.Login(s1, b, false) == s2;
    NoneStale(s2, [1, 2], c);
    assert SchedulerSpec.Login(s2, c, false) == State(map[], Three(0), [1, 2, 3], [], 0, 3);
  }

  lemma Requests()
    ensures var s := State(map[], Three(0), [1, 2, 3], [], 0, 3);
      var t := Submit(s, 1, Ask(1, {7}));
      && FreshClient(s.jobs, 1, 1) && 1 in t.servers && FreshClient(t.jobs, 1, 2)
      && Submit(t, 1, Ask(2, {})) == Blocked()
  {
    var s := State(map[], Three(0), [1, 2, 3], [], 0, 3);
    var t := State(map[1 := NewJob(1, 1, Ask(1, {7}))], Three(1), [1, 2, 3], [Q.Group(1, 0, [1])], 1, 3);
    assert Submit(s, 1, Ask(1, {7})) == t;
    assert [1] + [2] == [1, 2];
    assert Q.Find(t.queue, 1, 0) == 0;
    assert Q.Enqueue(t.queue, 2, 1, 0) == [Q.Group(1, 0, [1, 2])];
  }

  /** The scheduler can come into that state. */
  lemma BlockedReachable()
    ensures var es := [Login(Node(0, "a", 0, 0, {}, 0), false), Login(Node(0, "b", 1, 1000, {7}, 0), false),
                       Login(Node(0, "c", 1, 0, {}, 0), false), GetCS(1, Ask(1, {7})), GetCS(1, Ask(2, {}))];
      EnabledAll(INITIAL, es) && Run(INITIAL, es) == Blocked()
  {
    var a, b, c := Node(0, "a", 0, 0, {}, 0), Node(0, "b", 1, 1000, {7}, 0), Node(0, "c", 1, 0, {}, 0);
    var e1, e2: Event := GetCS(1, Ask(1, {7})), GetCS(1, Ask(2, {}));
    Logins();
    Requests();
    hide SchedulerSpec.Login, Submit, Node, Ask, Three, Blocked, FreshClient;
    var es := [Event.Login(a, false), Event.Login(b, false), Event.Login(c, false), e1, e2];
    assert es[1..] == [Event.Login(b, false), Event.Login(c, false), e1, e2];
    assert es[1..][1..] == [Event.Login(c, false), e1, e2];
    assert es[1..][1..][1..] == [e1, e2];
    assert [e1, e2][1..] == [e2];
    assert [e2][1..] == [];
  }

  lemma BlockedInv()
    ensures Inv(Blocked())
  {
    hide Inv, Blocked, EnabledAll, Run;
    var es := [Login(Node(0, "a", 0, 0, {}, 0), false), Login(Node(0, "b", 1, 1000, {7}, 0), false),
               Login(Node(0, "c", 1, 0, {}, 0), false), GetCS(1, Ask(1, {7})), GetCS(1, Ask(2, {}))];
    BlockedReachable();
    ReachableInv(es);
  }

  /** Nobody can take a job that needs the feature now, and only the overloaded node ever can. */
  lemma NobodyNow(a: Job)
    requires a == NewJob(1, 1, Ask(1, {7}))
    ensures forall h :: h in Three(2) ==> !EligibleNow(Three(2)[h], Three(2)[1], a)
    ensures EligibleEver(Three(2)[2], Three(2)[1], a) && !SubmitterCan(Three(2)[1], a)
  {
    var n := Three(2);
    assert 7 in a.requiredFeatures && 7 !in n[3].featuresSupported;
    assert FirstInstallable(n[2], n[1], a.environments) == "x86_64";
  }

  lemma ThirdNow(b: Job)
    requires b == NewJob(2, 1, Ask(2, {}))
    ensures Offered(Three(2)[3], Three(2)[1], b)
  {
    var n := Three(2);
    assert FirstInstallable(n[3], n[1], b.environments) == "x86_64";
  }

  /** Whatever pick_server does, the head waits for the overloaded node, although the second job could go to the idle
      one at once. */
  lemma HeadBlocks()
    ensures var s := Blocked();
      && Inv(s) && HasHead(s) && Head(s) == s.jobs[1]
      && (forall r :: MayPick(s, Head(s), r) ==> Target(s, Head(s), r) == None)
      && Known(s, s.jobs[2]) && MayPick(s, s.jobs[2], Some(3)) && Target(s, s.jobs[2], Some(3)) == Some(3)
  {
    hide Inv, EligibleNow, EligibleEver, SubmitterCan, Node, Three;
    BlockedInv();
    var s := Blocked();
    NobodyNow(s.jobs[1]);
    ThirdNow(s.jobs[2]);
    ThreeKeys();
    assert 2 in s.css && 3 in s.css;
    assert WorthWaiting(s.servers[2], s.servers[1], s.jobs[1]);
  }

  lemma ThreeKeys()
    ensures Three(2).Keys == {1, 2, 3}
  {
  }
}
