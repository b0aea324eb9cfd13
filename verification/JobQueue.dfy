/** The scheduler's queue of pending job requests: groups of one submitter and one niceness,
    sorted by niceness, rotated round-robin when a request is taken out. */
module JobQueue {

  /** Requests of one submitter at one niceness, oldest first. Jobs are named by their ids. */
  datatype Group = Group(submitter: nat, niceness: int, l: seq<nat>)

  type Queue = seq<Group>

  predicate HasKey(g: Group, submitter: nat, niceness: int) {
    g.submitter == submitter && g.niceness == niceness
  }

  ghost predicate Ascending(l: seq<nat>) {
    forall i, j :: 0 <= i < j < |l| ==> l[i] < l[j]
  }

  /** A group is never empty and lists its requests in submission order: ids below `next`, ascending. */
  ghost predicate Good(g: Group, next: nat) {
    g.l != [] && Ascending(g.l) && forall id :: id in g.l ==> id < next
  }

  /** May `g` stand in front of `h`? */
  predicate Before(g: Group, h: Group) {
    g.niceness <= h.niceness && !HasKey(h, g.submitter, g.niceness)
  }

  /** Groups are good and ordered by niceness, no two share submitter and niceness, no job is queued twice. */
  ghost predicate WellFormed(q: Queue, next: nat) {
    q == [] || (
      && Good(q[0], next)
      && (forall h :: h in q[1..] ==> Before(q[0], h))
      && Elements(q[0].l) !! Jobs(q[1..])
      && WellFormed(q[1..], next))
  }

  ghost function Elements(l: seq<nat>): set<nat> {
    set id | id in l
  }

  /** All queued job ids. */
  ghost function Jobs(q: Queue): set<nat> {
    if q == [] then {} else Elements(q[0].l) + Jobs(q[1..])
  }

  /** Index of the group with the given key, or |q|. */
  function Find(q: Queue, submitter: nat, niceness: int): (k: nat)
    ensures k <= |q|
    ensures k < |q| ==> HasKey(q[k], submitter, niceness)
  {
    if q == [] || HasKey(q[0], submitter, niceness) then 0 else 1 + Find(q[1..], submitter, niceness)
  }

  ghost predicate Present(q: Queue, submitter: nat, niceness: int) {
    exists g :: g in q && HasKey(g, submitter, niceness)
  }

  /** A group goes in front of the first group of a larger niceness. */
  function InsertGroup(q: Queue, g: Group): Queue {
    if q == [] || q[0].niceness > g.niceness then [g] + q else [q[0]] + InsertGroup(q[1..], g)
  }

  /** A request joins its submitter's group of that niceness, or starts one behind its equals. */
  function Enqueue(q: Queue, id: nat, submitter: nat, niceness: int): Queue {
    var k := Find(q, submitter, niceness);
    if k < |q| then Append(q, k, id) else InsertGroup(q, Group(submitter, niceness, [id]))
  }

  function Append(q: Queue, k: nat, id: nat): Queue
    requires k < |q|
  {
    q[k := q[k].(l := q[k].l + [id])]
  }

  function Without(l: seq<nat>, id: nat): seq<nat> {
    if l == [] then [] else if l[0] == id then l[1..] else [l[0]] + Without(l[1..], id)
  }

  function DropAt(q: Queue, k: nat): Queue
    requires k < |q|
  {
    if k == 0 then q[1..] else [q[0]] + DropAt(q[1..], k - 1)
  }

  /** Takes job `id` out of group `k`; what is left of the group goes behind its equals. */
  function Take(q: Queue, k: nat, id: nat): Queue
    requires k < |q|
  {
    var rest := Without(q[k].l, id);
    if rest == [] then DropAt(q, k) else InsertGroup(DropAt(q, k), q[k].(l := rest))
  }

  /** Serves the first job of the first group. */
  function Dispatch(q: Queue): Queue
    requires q != [] && q[0].l != []
  {
    Take(q, 0, q[0].l[0])
  }

  /** Takes job `id` of group `k` out in place, without rotating. */
  function Cancel(q: Queue, k: nat, id: nat): Queue
    requires k < |q|
  {
    var rest := Without(q[k].l, id);
    if rest == [] then DropAt(q, k) else q[k := q[k].(l := rest)]
  }

  /** Drops every group of a submitter. */
  function DropSubmitter(q: Queue, submitter: nat): Queue {
    if q == [] then []
    else if q[0].submitter == submitter then DropSubmitter(q[1..], submitter)
    else [q[0]] + DropSubmitter(q[1..], submitter)
  }

  // ---------------------------------------------------------------- list facts

  lemma {:induction false} WithoutAscending(l: seq<nat>, id: nat)
    requires Ascending(l)
    ensures Ascending(Without(l, id))
    ensures forall x :: x in Without(l, id) <==> x in l && x != id
  {
    if l != [] {
      assert l == [l[0]] + l[1..];
      if l[0] != id {
        WithoutAscending(l[1..], id);
        var r := Without(l[1..], id);
        forall k | 0 <= k < |r| ensures l[0] < r[k] {
          assert r[k] in l[1..];
        }
      }
    }
  }

  lemma {:induction false} WithoutShorter(l: seq<nat>, id: nat)
    ensures |Without(l, id)| <= |l|
  {
    if l != [] && l[0] != id { WithoutShorter(l[1..], id); }
  }

  lemma {:induction false} InsertMembers(q: Queue, g: Group)
    ensures forall h :: h in InsertGroup(q, g) <==> h == g || h in q
  {
    if q != [] { InsertMembers(q[1..], g); }
  }

  lemma {:induction false} DropAtMembers(q: Queue, k: nat)
    requires k < |q|
    ensures forall h :: h in DropAt(q, k) ==> h in q
    ensures forall h :: h in q ==> h == q[k] || h in DropAt(q, k)
  {
    if k > 0 { DropAtMembers(q[1..], k - 1); }
  }

  lemma {:induction false} DropSubmitterMembers(q: Queue, submitter: nat)
    ensures forall h :: h in DropSubmitter(q, submitter) <==> h in q && h.submitter != submitter
  {
    if q != [] { DropSubmitterMembers(q[1..], submitter); }
  }

  lemma {:induction false} FindPresent(q: Queue, submitter: nat, niceness: int)
    ensures Find(q, submitter, niceness) < |q| <==> Present(q, submitter, niceness)
  {
    if q != [] {
      FindPresent(q[1..], submitter, niceness);
      assert forall g :: g in q <==> g == q[0] || g in q[1..];
      if HasKey(q[0], submitter, niceness) { assert q[0] in q; }
    }
  }

  lemma {:induction false} JobsMembers(q: Queue)
    ensures forall id :: id in Jobs(q) <==> exists g :: g in q && id in g.l
  {
    if q != [] {
      JobsMembers(q[1..]);
      assert forall g :: g in q <==> g == q[0] || g in q[1..];
      assert q[0] in q;
    }
  }

  // ---------------------------------------------------------------- shape is kept

  lemma {:induction false} MemberGood(q: Queue, next: nat, k: nat)
    requires WellFormed(q, next) && k < |q|
    ensures Good(q[k], next)
    ensures forall i :: 0 <= i < k ==> Before(q[i], q[k])
  {
    if k > 0 { MemberGood(q[1..], next, k - 1); }
  }

  lemma {:induction false} JobsBelow(q: Queue, next: nat)
    requires WellFormed(q, next)
    ensures forall id :: id in Jobs(q) ==> id < next
  {
    if q != [] { JobsBelow(q[1..], next); }
  }

  lemma {:induction false} Later(q: Queue, next: nat, next': nat)
    requires WellFormed(q, next) && next <= next'
    ensures WellFormed(q, next')
  {
    if q != [] { Later(q[1..], next, next'); }
  }

  lemma {:induction false} InsertKeeps(q: Queue, g: Group, next: nat)
    requires WellFormed(q, next) && Good(g, next) && !Present(q, g.submitter, g.niceness)
    requires Elements(g.l) !! Jobs(q)
    ensures WellFormed(InsertGroup(q, g), next)
    ensures Jobs(InsertGroup(q, g)) == Jobs(q) + Elements(g.l)
  {
    if q != [] {
      assert q[0] in q && forall h :: h in q <==> h == q[0] || h in q[1..];
      if q[0].niceness > g.niceness {
        assert ([g] + q)[1..] == q;
      } else {
        InsertKeeps(q[1..], g, next);
        InsertMembers(q[1..], g);
        assert ([q[0]] + InsertGroup(q[1..], g))[1..] == InsertGroup(q[1..], g);
      }
    }
  }

  lemma {:induction false} DropAtJobs(q: Queue, k: nat, next: nat)
    requires WellFormed(q, next) && k < |q|
    ensures Jobs(q) == Jobs(DropAt(q, k)) + Elements(q[k].l)
    ensures Elements(q[k].l) !! Jobs(DropAt(q, k))
  {
    hide Good, Before, Elements;
    if k > 0 {
      var t := q[1..];
      DropAtJobs(t, k - 1, next);
      var d := DropAt(t, k - 1);
      assert DropAt(q, k) == [q[0]] + d && ([q[0]] + d)[1..] == d;
      assert t[k - 1] == q[k];
    }
  }

  lemma {:induction false} DropAtShape(q: Queue, k: nat, next: nat)
    requires WellFormed(q, next) && k < |q|
    ensures WellFormed(DropAt(q, k), next)
    ensures !Present(DropAt(q, k), q[k].submitter, q[k].niceness)
  {
    hide Good, Elements;
    if k > 0 {
      var t := q[1..];
      DropAtShape(t, k - 1, next);
      DropAtMembers(t, k - 1);
      DropAtJobs(t, k - 1, next);
      var d := DropAt(t, k - 1);
      var r := DropAt(q, k);
      assert r == [q[0]] + d && r[1..] == d;
      assert t[k - 1] == q[k] && Before(q[0], t[k - 1]);
      forall g | g in r ensures !HasKey(g, q[k].submitter, q[k].niceness) {
        assert g == q[0] || g in d;
      }
    }
  }

  lemma DropAtKeeps(q: Queue, k: nat, next: nat)
    requires WellFormed(q, next) && k < |q|
    ensures WellFormed(DropAt(q, k), next)
    ensures !Present(DropAt(q, k), q[k].submitter, q[k].niceness)
    ensures Elements(q[k].l) !! Jobs(DropAt(q, k))
    ensures Jobs(q) == Jobs(DropAt(q, k)) + Elements(q[k].l)
  {
    DropAtJobs(q, k, next);
    DropAtShape(q, k, next);
  }

  lemma {:induction false} UpdateKeeps(q: Queue, k: nat, l: seq<nat>, next: nat)
    requires WellFormed(q, next) && k < |q| && Good(q[k].(l := l), next)
    requires Elements(l) !! Jobs(DropAt(q, k))
    ensures WellFormed(q[k := q[k].(l := l)], next)
    ensures Jobs(q[k := q[k].(l := l)]) == Jobs(DropAt(q, k)) + Elements(l)
  {
    var r := q[k := q[k].(l := l)];
    if k == 0 {
      assert r[1..] == q[1..];
    } else {
      UpdateKeeps(q[1..], k - 1, l, next);
      var t := q[1..];
      var u := t[k - 1 := t[k - 1].(l := l)];
      assert r[1..] == u;
      DropAtKeeps(t, k - 1, next);
      forall h | h in u ensures Before(q[0], h) {
        var m :| 0 <= m < |u| && u[m] == h;
        assert Before(q[0], t[m]);
      }
      var d := DropAt(t, k - 1);
      assert ([q[0]] + d)[1..] == d;
    }
  }

  /** A job at the end of its group. */
  lemma Joined(q: Queue, k: nat, id: nat)
    requires WellFormed(q, id) && k < |q|
    ensures WellFormed(Append(q, k, id), id + 1) && Jobs(Append(q, k, id)) == Jobs(q) + {id}
  {
    hide WellFormed, Jobs;
    Later(q, id, id + 1);
    JobsBelow(q, id);
    MemberGood(q, id, k);
    DropAtKeeps(q, k, id);
    forall i | 0 <= i < |q[k].l| ensures q[k].l[i] < id { assert q[k].l[i] in q[k].l; }
    assert Elements(q[k].l + [id]) == Elements(q[k].l) + {id};
    UpdateKeeps(q, k, q[k].l + [id], id + 1);
  }

  /** Submitting keeps the shape and adds exactly the new job. */
  lemma EnqueueKeeps(q: Queue, id: nat, submitter: nat, niceness: int)
    requires WellFormed(q, id)
    ensures WellFormed(Enqueue(q, id, submitter, niceness), id + 1)
    ensures Jobs(Enqueue(q, id, submitter, niceness)) == Jobs(q) + {id}
  {
    var k := Find(q, submitter, niceness);
    FindPresent(q, submitter, niceness);
    Later(q, id, id + 1);
    JobsBelow(q, id);
    if k < |q| {
      Joined(q, k, id);
    } else {
      InsertKeeps(q, Group(submitter, niceness, [id]), id + 1);
    }
  }

  /** Cancelling keeps the shape and removes exactly the cancelled job; so does taking a job out
      and rotating its group. */
  lemma RemovalKeeps(q: Queue, k: nat, id: nat, next: nat)
    requires WellFormed(q, next) && k < |q| && id in q[k].l
    ensures WellFormed(Cancel(q, k, id), next) && Jobs(Cancel(q, k, id)) == Jobs(q) - {id}
    ensures WellFormed(Take(q, k, id), next) && Jobs(Take(q, k, id)) == Jobs(q) - {id}
  {
    MemberGood(q, next, k);
    WithoutAscending(q[k].l, id);
    var rest := Without(q[k].l, id);
    DropAtKeeps(q, k, next);
    if rest != [] {
      UpdateKeeps(q, k, rest, next);
      InsertKeeps(DropAt(q, k), q[k].(l := rest), next);
    } else {
      assert forall x :: x in q[k].l && x != id ==> x in rest;
    }
  }

  /** Dropping a submitter keeps the shape, and exactly the jobs of all others. */
  lemma {:induction false} DropSubmitterKeeps(q: Queue, submitter: nat, next: nat)
    requires WellFormed(q, next)
    ensures WellFormed(DropSubmitter(q, submitter), next)
    ensures Jobs(DropSubmitter(q, submitter)) <= Jobs(q)
    ensures forall g, id :: g in q && id in g.l ==> (id in Jobs(DropSubmitter(q, submitter)) <==> g.submitter != submitter)
  {
    if q != [] {
      DropSubmitterKeeps(q[1..], submitter, next);
      DropSubmitterMembers(q[1..], submitter);
      var d := DropSubmitter(q[1..], submitter);
      assert ([q[0]] + d)[1..] == d;
      MembersOfJobs(q[1..], d);
    }
  }

  lemma MembersOfJobs(q: Queue, d: Queue)
    ensures forall g, id :: g in q && id in g.l ==> id in Jobs(q)
    ensures forall g, id :: g in d && id in g.l ==> id in Jobs(d)
  {
    JobsMembers(q);
    JobsMembers(d);
  }

  ghost predicate SameKey(g: Group, h: Group) {
    HasKey(g, h.submitter, h.niceness)
  }

  /** Some group with the key of `g` lists `id`. */
  ghost predicate Covers(q: Queue, g: Group, id: nat) {
    exists h :: h in q && SameKey(g, h) && id in h.l
  }

  /** Submitting puts the new job into its own group and moves no other job to another group. */
  lemma EnqueueCovered(q: Queue, id: nat, submitter: nat, niceness: int, g: Group, x: nat)
    requires g in Enqueue(q, id, submitter, niceness) && x in g.l
    ensures Covers(q, g, x) || (x == id && HasKey(g, submitter, niceness))
  {
    var k := Find(q, submitter, niceness);
    InsertMembers(q, Group(submitter, niceness, [id]));
    if k < |q| && g !in q {
      assert g == q[k].(l := q[k].l + [id]) && q[k] in q;
    }
    if g in q { assert SameKey(g, g); }
  }

  lemma {:induction false} WithoutMembers(l: seq<nat>, id: nat)
    ensures forall x :: x in Without(l, id) ==> x in l
  {
    if l != [] && l[0] != id { WithoutMembers(l[1..], id); }
  }

  /** Looking a group up by its key finds it. */
  lemma {:induction false} FindOwner(q: Queue, next: nat, g: Group)
    requires WellFormed(q, next) && g in q
    ensures Find(q, g.submitter, g.niceness) < |q| && q[Find(q, g.submitter, g.niceness)] == g
  {
    if g != q[0] { FindOwner(q[1..], next, g); }
  }

  /** Taking or cancelling a job moves no job to another group. */
  lemma RemovalCovered(q: Queue, k: nat, id: nat, g: Group, x: nat)
    requires k < |q| && x in g.l && (g in Take(q, k, id) || g in Cancel(q, k, id))
    ensures Covers(q, g, x)
  {
    var rest := q[k].(l := Without(q[k].l, id));
    WithoutMembers(q[k].l, id);
    DropAtMembers(q, k);
    InsertMembers(DropAt(q, k), rest);
    if g in q {
      assert SameKey(g, g);
    } else {
      assert g == rest && q[k] in q && SameKey(g, q[k]);
    }
  }

  // ---------------------------------------------------------------- fairness

  /** How much the queue still puts before group (submitter, niceness): every job of a smaller niceness,
      and one job of each group of the same niceness that stands in front of it. */
  function Ahead(q: Queue, submitter: nat, niceness: int): nat {
    if q == [] || HasKey(q[0], submitter, niceness) then 0
    else (if q[0].niceness < niceness then |q[0].l| else 1) + Ahead(q[1..], submitter, niceness)
  }

  /** The niceness of a present group is at least that of the head: the head's niceness is minimal. */
  lemma HeadMinimal(q: Queue, next: nat, submitter: nat, niceness: int)
    requires WellFormed(q, next) && Present(q, submitter, niceness)
    ensures q != [] && q[0].niceness <= niceness
  {
    var g :| g in q && HasKey(g, submitter, niceness);
    if g != q[0] { assert g in q[1..]; }
  }

  lemma TailPresent(q: Queue, submitter: nat, niceness: int)
    requires Present(q, submitter, niceness) && !HasKey(q[0], submitter, niceness)
    ensures Present(q[1..], submitter, niceness)
  {
    var g :| g in q && HasKey(g, submitter, niceness);
    assert g in q[1..];
  }

  lemma {:induction false} AheadInsert(q: Queue, next: nat, g: Group, submitter: nat, niceness: int)
    requires WellFormed(q, next) && Present(q, submitter, niceness) && !HasKey(g, submitter, niceness)
    ensures Present(InsertGroup(q, g), submitter, niceness)
    ensures Ahead(InsertGroup(q, g), submitter, niceness)
         == Ahead(q, submitter, niceness) + if g.niceness < niceness then |g.l| else 0
  {
    InsertMembers(q, g);
    HeadMinimal(q, next, submitter, niceness);
    if q[0].niceness > g.niceness {
      assert ([g] + q)[1..] == q;
    } else {
      var r := InsertGroup(q[1..], g);
      assert ([q[0]] + r)[1..] == r;
      if !HasKey(q[0], submitter, niceness) {
        TailPresent(q, submitter, niceness);
        AheadInsert(q[1..], next, g, submitter, niceness);
      }
    }
  }

  /** A dispatch that does not serve the group brings it exactly one closer. */
  lemma DispatchAdvances(q: Queue, next: nat, submitter: nat, niceness: int)
    requires WellFormed(q, next) && Present(q, submitter, niceness)
    requires !HasKey(q[0], submitter, niceness)
    ensures Present(Dispatch(q), submitter, niceness)
    ensures Ahead(Dispatch(q), submitter, niceness) == Ahead(q, submitter, niceness) - 1
  {
    HeadMinimal(q, next, submitter, niceness);
    TailPresent(q, submitter, niceness);
    var rest := Without(q[0].l, q[0].l[0]);
    assert rest == q[0].l[1..];
    if rest != [] {
      AheadInsert(q[1..], next, q[0].(l := rest), submitter, niceness);
    }
  }

  lemma {:induction false} AheadUpdate(q: Queue, next: nat, k: nat, l: seq<nat>, submitter: nat, niceness: int)
    requires WellFormed(q, next) && Present(q, submitter, niceness) && k < |q|
    ensures var r := q[k := q[k].(l := l)];
            Present(r, submitter, niceness)
            && Ahead(r, submitter, niceness) == Ahead(q, submitter, niceness)
               + if q[k].niceness < niceness then |l| - |q[k].l| else 0
  {
    var r := q[k := q[k].(l := l)];
    HeadMinimal(q, next, submitter, niceness);
    if k == 0 {
      assert r[1..] == q[1..];
      if !HasKey(q[0], submitter, niceness) { TailPresent(q, submitter, niceness); }
      assert forall g :: g in r <==> g == r[0] || g in q[1..];
      if HasKey(q[0], submitter, niceness) { assert HasKey(r[0], submitter, niceness); }
    } else {
      assert r[1..] == q[1..][k - 1 := q[1..][k - 1].(l := l)];
      assert forall g :: g in r <==> g == q[0] || g in r[1..];
      if HasKey(q[0], submitter, niceness) {
        assert q[k] in q[1..];
      } else {
        TailPresent(q, submitter, niceness);
        AheadUpdate(q[1..], next, k - 1, l, submitter, niceness);
      }
    }
  }

  /** Submitting moves a group back by one exactly when the new job's niceness is smaller. */
  lemma EnqueueMoves(q: Queue, id: nat, s: nat, n: int, submitter: nat, niceness: int)
    requires WellFormed(q, id) && Present(q, submitter, niceness)
    ensures Present(Enqueue(q, id, s, n), submitter, niceness)
    ensures Ahead(Enqueue(q, id, s, n), submitter, niceness)
         == Ahead(q, submitter, niceness) + if n < niceness then 1 else 0
  {
    var k := Find(q, s, n);
    FindPresent(q, s, n);
    if k < |q| {
      AheadUpdate(q, id, k, q[k].l + [id], submitter, niceness);
    } else {
      AheadInsert(q, id, Group(s, n, [id]), submitter, niceness);
    }
  }

  lemma {:induction false} AheadDropAt(q: Queue, k: nat, submitter: nat, niceness: int)
    requires k < |q| && !HasKey(q[k], submitter, niceness)
    ensures Ahead(DropAt(q, k), submitter, niceness) <= Ahead(q, submitter, niceness)
  {
    if k > 0 {
      AheadDropAt(q[1..], k - 1, submitter, niceness);
      var d := DropAt(q[1..], k - 1);
      assert ([q[0]] + d)[1..] == d;
    }
  }

  /** A cancellation that leaves the group in the queue never moves it back. */
  lemma CancelMoves(q: Queue, next: nat, k: nat, id: nat, submitter: nat, niceness: int)
    requires WellFormed(q, next) && k < |q| && Present(q, submitter, niceness)
    requires Present(Cancel(q, k, id), submitter, niceness)
    ensures Ahead(Cancel(q, k, id), submitter, niceness) <= Ahead(q, submitter, niceness)
  {
    var rest := Without(q[k].l, id);
    WithoutShorter(q[k].l, id);
    if rest == [] {
      DropAtKeeps(q, k, next);
      AheadDropAt(q, k, submitter, niceness);
    } else {
      AheadUpdate(q, next, k, rest, submitter, niceness);
    }
  }

  /** Removing another submitter never moves a group back. */
  lemma {:induction false} DropMoves(q: Queue, s: nat, submitter: nat, niceness: int)
    requires s != submitter
    ensures Ahead(DropSubmitter(q, s), submitter, niceness) <= Ahead(q, submitter, niceness)
  {
    if q != [] {
      DropMoves(q[1..], s, submitter, niceness);
      var d := DropSubmitter(q[1..], s);
      assert ([q[0]] + d)[1..] == d;
    }
  }

  /** The job served next has the smallest niceness queued, and is the oldest of its group. */
  lemma ServedNext(q: Queue, next: nat)
    requires WellFormed(q, next) && q != []
    ensures forall g :: g in q ==> q[0].niceness <= g.niceness
    ensures forall g, id :: g in q && HasKey(g, q[0].submitter, q[0].niceness) && id in g.l ==> q[0].l[0] <= id
  {
    forall g | g in q ensures g == q[0] || Before(q[0], g) {
      assert g == q[0] || g in q[1..];
    }
  }
}
