/** The scheduling algorithms with a crisp promise (scheduler/scheduling_algo.cpp). */
module SchedulingAlgo {
  import opened Common
  import opened CompileServers
  import Q = JobQueue

  type Nodes = map<nat, CompileServer>

  ghost predicate Stored(l: seq<nat>, nodes: Nodes) {
    forall h :: h in l ==> h in nodes
  }

  /** The k-th node was picked least recently, and every node before it more recently. */
  ghost predicate OldestAt(l: seq<nat>, nodes: Nodes, k: nat)
    requires Stored(l, nodes) && k < |l|
  {
    && (forall i :: 0 <= i < k ==> nodes[l[k]].lastPickId < nodes[l[i]].lastPickId)
    && (forall i :: k <= i < |l| ==> nodes[l[k]].lastPickId <= nodes[l[i]].lastPickId)
  }

  /** The first of the least recently picked nodes. */
  method PickServerRoundRobin(eligible: seq<nat>, nodes: Nodes) returns (selected: Option<nat>, ghost at: nat)
    requires Stored(eligible, nodes)
    ensures selected == None <==> eligible == []
    ensures selected.Some? ==> at < |eligible| && selected.value == eligible[at] && OldestAt(eligible, nodes, at)
    ensures selected.Some? ==> forall h :: h in eligible ==> nodes[selected.value].lastPickId <= nodes[h].lastPickId
  {
    var oldestJob := 0;
    selected, at := None, 0;
    for i := 0 to |eligible|
      invariant selected == None <==> i == 0
      invariant selected.Some? ==> at < i && selected.value == eligible[at] && oldestJob == nodes[eligible[at]].lastPickId
      invariant selected.Some? ==> OldestAt(eligible[..i], nodes, at)
    {
      var c := eligible[i];
      if selected == None || nodes[c].lastPickId < oldestJob {
        selected, at := Some(c), i;
        oldestJob := nodes[c].lastPickId;
      }
    }
    assert eligible[..|eligible|] == eligible;
  }

  /** Load as an exact number: running jobs, and a share of the submitted ones, per slot. */
  function ServerLoad(c: CompileServer, submissionWeight: nat): real
    requires c.maxJobs != 0
  {
    var running := Max(0, CurrentJobCount(c)) as real;
    var submitted := if submissionWeight > 0 then Max(0, c.submittedJobsCount) as real / submissionWeight as real else 0.0;
    (running + submitted) / c.maxJobs as real
  }

  /** The load times the slots is the number of jobs, and with a weight the jobs the node itself submitted count one
      `submissionWeight`-th. */
  lemma LoadMeans(c: CompileServer, submissionWeight: nat)
    requires c.maxJobs > 0 && c.submittedJobsCount >= 0
    ensures var full := |FullJobs(c.clientLocalMap)|;
      var jobs := |c.jobList| + full * c.maxJobs + (|c.clientLocalMap| - full);
      && (submissionWeight == 0 ==> ServerLoad(c, submissionWeight) * c.maxJobs as real == jobs as real)
      && (submissionWeight > 0 ==>
            var share := ServerLoad(c, submissionWeight) * c.maxJobs as real - jobs as real;
            share * submissionWeight as real == c.submittedJobsCount as real)
  {
    ReservedIs(c.clientLocalMap, c.maxJobs);
    FewerFull(c.clientLocalMap);
    hide FullJobs, Reserved;
    var full := |FullJobs(c.clientLocalMap)|;
    assert full * c.maxJobs >= 0;
    var jobs := |c.jobList| + full * c.maxJobs + (|c.clientLocalMap| - full);
    assert Max(0, CurrentJobCount(c)) == jobs;
    if submissionWeight == 0 {
      Quotient(jobs as real, c.maxJobs as real);
    } else {
      Quotient(c.submittedJobsCount as real, submissionWeight as real);
      Quotient(jobs as real + c.submittedJobsCount as real / submissionWeight as real, c.maxJobs as real);
    }
  }

  lemma Quotient(x: real, y: real)
    requires y != 0.0
    ensures x / y * y == x
  {
  }

  lemma {:induction false} FewerFull(m: seq<LocalJob>)
    ensures |FullJobs(m)| <= |m|
  {
    if m == [] {
      assert FullJobs(m) == {};
    } else {
      FewerFull(m[..|m| - 1]);
      FullLast(m);
    }
  }

  const EPSILON := 0.000001

  ghost predicate Loadable(c: CompileServer, submissionWeight: nat, bound: real) {
    c.maxJobs != 0 && ServerLoad(c, submissionWeight) <= bound
  }

  /** `m` is the least load of a node that takes jobs. */
  ghost predicate MinLoad(l: seq<nat>, nodes: Nodes, submissionWeight: nat, m: real)
    requires Stored(l, nodes)
  {
    && (exists h :: h in l && Loadable(nodes[h], submissionWeight, m))
    && (forall h :: h in l && nodes[h].maxJobs != 0 ==> m <= ServerLoad(nodes[h], submissionWeight))
  }

  ghost predicate TakesJobs(l: seq<nat>, nodes: Nodes)
    requires Stored(l, nodes)
  {
    forall h :: h in l ==> nodes[h].maxJobs > 0
  }

  lemma LoadNonNegative(c: CompileServer, submissionWeight: nat)
    requires c.maxJobs > 0
    ensures ServerLoad(c, submissionWeight) >= 0.0
  {
    var submitted := Max(0, c.submittedJobsCount) as real;
    assert submissionWeight > 0 ==> submitted / submissionWeight as real >= 0.0;
    var jobs := Max(0, CurrentJobCount(c)) as real + if submissionWeight > 0 then submitted / submissionWeight as real else 0.0;
    assert jobs / c.maxJobs as real >= 0.0;
  }

  /** Among the nodes within EPSILON of the least load, the least recently picked. The eligible pool holds
      only nodes that take jobs. */
  method PickServerLeastBusy(eligible: seq<nat>, nodes: Nodes, submissionWeight: nat) returns (selected: Option<nat>)
    requires Stored(eligible, nodes) && TakesJobs(eligible, nodes)
    ensures selected == None <==> eligible == []
    ensures selected.Some? ==> selected.value in eligible && exists m: real ::
      && MinLoad(eligible, nodes, submissionWeight, m)
      && Loadable(nodes[selected.value], submissionWeight, m + 0.000001)
      && forall h :: h in eligible && Loadable(nodes[h], submissionWeight, m + 0.000001) ==>
           nodes[selected.value].lastPickId <= nodes[h].lastPickId
  {
    var minLoad := -1.0;
    for i := 0 to |eligible|
      invariant i == 0 ==> minLoad == -1.0
      invariant i > 0 ==> minLoad >= 0.0 && MinLoad(eligible[..i], nodes, submissionWeight, minLoad)
    {
      var c := nodes[eligible[i]];
      if c.maxJobs != 0 {
        LoadNonNegative(c, submissionWeight);
        var load := ServerLoad(c, submissionWeight);
        if minLoad < 0.0 || load < minLoad {
          minLoad := load;
        }
      }
      assert eligible[..i + 1] == eligible[..i] + [eligible[i]];
    }
    assert eligible[..|eligible|] == eligible;
    if minLoad < 0.0 {
      minLoad := 0.0;
    }
    var pool: seq<nat> := [];
    for i := 0 to |eligible|
      invariant forall h :: h in pool <==> h in eligible[..i] && Loadable(nodes[h], submissionWeight, minLoad + EPSILON)
    {
      var c := nodes[eligible[i]];
      if c.maxJobs != 0 && ServerLoad(c, submissionWeight) <= minLoad + EPSILON {
        pool := pool + [eligible[i]];
      }
      assert eligible[..i + 1] == eligible[..i] + [eligible[i]];
    }
    ghost var at;
    selected, at := PickServerRoundRobin(pool, nodes);
    if eligible != [] {
      ghost var h :| h in eligible && Loadable(nodes[h], submissionWeight, minLoad);
      assert h in pool;
      forall h | h in pool ensures nodes[selected.value].lastPickId <= nodes[h].lastPickId {
        var i :| 0 <= i < |pool| && pool[i] == h;
      }
    }
  }

  // ---------------------------------------------------------------- round robin goes round

  /** When each node was picked last, after `i` picks with the given job ids. */
  function After(last: map<nat, nat>, ids: seq<nat>, picks: seq<nat>, i: nat): map<nat, nat>
    requires i <= |ids| && i <= |picks|
  {
    if i == 0 then last else After(last, ids, picks, i - 1)[picks[i - 1] := ids[i - 1]]
  }

  ghost predicate Oldest(l: seq<nat>, last: map<nat, nat>, c: nat) {
    c in l && c in last && forall h :: h in l && h in last ==> last[c] <= last[h]
  }

  /** When each node was picked last. */
  ghost function LastPicks(nodes: Nodes): map<nat, nat> {
    map h | h in nodes :: nodes[h].lastPickId
  }

  /** What the picker returns is what the argument below calls the oldest. */
  lemma PickIsOldest(l: seq<nat>, nodes: Nodes, k: nat)
    requires Stored(l, nodes) && k < |l| && OldestAt(l, nodes, k)
    ensures Oldest(l, LastPicks(nodes), l[k])
  {
    forall h | h in l ensures nodes[l[k]].lastPickId <= nodes[h].lastPickId {
      var i :| 0 <= i < |l| && l[i] == h;
    }
  }

  ghost predicate NoRepeat(l: seq<nat>) {
    forall i, j :: 0 <= i < j < |l| ==> l[i] != l[j]
  }

  lemma {:induction false} NoRepeatCount(l: seq<nat>)
    requires NoRepeat(l)
    ensures |Q.Elements(l)| == |l|
  {
    if l != [] {
      NoRepeatCount(l[1..]);
      assert Q.Elements(l) == Q.Elements(l[1..]) + {l[0]};
      assert l[0] !in l[1..];
    } else {
      assert Q.Elements(l) == {};
    }
  }

  lemma {:induction false} AfterValues(l: seq<nat>, last: map<nat, nat>, ids: seq<nat>, picks: seq<nat>, i: nat, bound: nat, h: nat)
    requires i <= |ids| && i <= |picks| && h in last && last[h] < bound
    requires forall k :: 0 <= k < |ids| ==> bound <= ids[k]
    ensures h in After(last, ids, picks, i)
    ensures h in picks[..i] ==> bound <= After(last, ids, picks, i)[h]
    ensures h !in picks[..i] ==> After(last, ids, picks, i)[h] == last[h]
  {
    if i > 0 {
      AfterValues(l, last, ids, picks, i - 1, bound, h);
      assert picks[..i] == picks[..i - 1] + [picks[i - 1]];
    }
  }

  lemma SomeLeft(l: seq<nat>, done: seq<nat>) returns (h: nat)
    requires NoRepeat(l) && NoRepeat(done) && |done| < |l|
    ensures h in l && h !in done
  {
    NoRepeatCount(l);
    NoRepeatCount(done);
    if Q.Elements(l) <= Q.Elements(done) {
      SubsetCount(Q.Elements(l), Q.Elements(done));
      assert false;
    }
    h :| h in Q.Elements(l) && h !in Q.Elements(done);
  }

  /** While some node has not had its turn, the next pick is a node that has not. */
  lemma NextFresh(l: seq<nat>, last: map<nat, nat>, ids: seq<nat>, picks: seq<nat>, n: nat, bound: nat)
    requires NoRepeat(l) && |l| == |ids| == |picks| && n < |l| && NoRepeat(picks[..n])
    requires forall h :: h in l ==> h in last && last[h] < bound
    requires forall k :: 0 <= k < |ids| ==> bound <= ids[k]
    requires Oldest(l, After(last, ids, picks, n), picks[n])
    ensures picks[n] in l && picks[n] !in picks[..n]
  {
    var h := SomeLeft(l, picks[..n]);
    AfterValues(l, last, ids, picks, n, bound, h);
    AfterValues(l, last, ids, picks, n, bound, picks[n]);
  }

  lemma {:induction false} PicksFresh(l: seq<nat>, last: map<nat, nat>, ids: seq<nat>, picks: seq<nat>, n: nat, bound: nat)
    requires NoRepeat(l) && |l| == |ids| == |picks| && n <= |l|
    requires forall h :: h in l ==> h in last && last[h] < bound
    requires forall k :: 0 <= k < |ids| ==> bound <= ids[k]
    requires forall i :: 0 <= i < |picks| ==> Oldest(l, After(last, ids, picks, i), picks[i])
    ensures NoRepeat(picks[..n]) && Q.Elements(picks[..n]) <= Q.Elements(l)
  {
    hide After, Oldest;
    if n > 0 {
      PicksFresh(l, last, ids, picks, n - 1, bound);
      NextFresh(l, last, ids, picks, n - 1, bound);
      assert picks[..n] == picks[..n - 1] + [picks[n - 1]];
    }
  }

  /** Once around: with a fixed set of nodes and job ids above all earlier picks, as many consecutive
      picks as there are nodes visit each node exactly once. */
  lemma RoundRobinVisitsEach(l: seq<nat>, last: map<nat, nat>, ids: seq<nat>, picks: seq<nat>, bound: nat)
    requires NoRepeat(l) && |l| == |ids| == |picks|
    requires forall h :: h in l ==> h in last && last[h] < bound
    requires forall k :: 0 <= k < |ids| ==> bound <= ids[k]
    requires forall i :: 0 <= i < |picks| ==> Oldest(l, After(last, ids, picks, i), picks[i])
    ensures NoRepeat(picks) && Q.Elements(picks) == Q.Elements(l)
  {
    PicksFresh(l, last, ids, picks, |l|, bound);
    assert picks[..|l|] == picks;
    NoRepeatCount(l);
    NoRepeatCount(picks);
    SubsetEqual(Q.Elements(picks), Q.Elements(l));
  }

  lemma SubsetCount(a: set<nat>, b: set<nat>)
    requires a <= b
    ensures |a| <= |b|
  {
    assert b == a + (b - a);
  }

  lemma SubsetEqual(a: set<nat>, b: set<nat>)
    requires a <= b && |a| == |b|
    ensures a == b
  {
    assert b == a + (b - a);
  }
}
