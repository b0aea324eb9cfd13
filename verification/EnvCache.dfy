/** The sizes of the daemon's environments (daemon/main.cpp). */
module EnvCache {
  import opened Common

  /** A received environment, named by its key, or a native one with the name of its tarball; `creating` while a
      process makes it. */
  datatype Env = Env(key: string, name: string, lastUse: int, size: nat, creating: bool)

  type Envs = seq<Env>

  function Total(l: Envs): nat {
    if l == [] then 0 else l[0].size + Total(l[1..])
  }

  function Keys(l: Envs): set<string> {
    if l == [] then {} else {l[0].key} + Keys(l[1..])
  }

  /** An environment that is not made yet has neither name nor size. */
  predicate Made(e: Env) {
    e.key != "" && (e.creating ==> e.name == "") && (e.name == "" ==> e.size == 0)
  }

  /** The order of the maps' keys. */
  predicate Precedes(a: string, b: string) {
    b != "" && (a == "" || a[0] < b[0] || (a[0] == b[0] && Precedes(a[1..], b[1..])))
  }

  lemma {:induction false} OneOrder(a: string, b: string)
    ensures !Precedes(a, a) && !(Precedes(a, b) && Precedes(b, a))
    ensures a == b || Precedes(a, b) || Precedes(b, a)
  {
    if a != "" { OneOrder(a[1..], if b == "" then "" else b[1..]); }
    if a != "" && b != "" && a[0] == b[0] {
      assert a == [a[0]] + a[1..] && b == [b[0]] + b[1..];
    }
  }

  lemma {:induction false} OrderChains(a: string, b: string, c: string)
    requires Precedes(a, b) && Precedes(b, c)
    ensures Precedes(a, c)
  {
    if a != "" && a[0] == b[0] && b[0] == c[0] { OrderChains(a[1..], b[1..], c[1..]); }
  }

  /** Every key once, and in their order. */
  ghost predicate Good(l: Envs) {
    l == [] || (
      && l[0].key !in Keys(l[1..]) && (forall k :: k in Keys(l[1..]) ==> Precedes(l[0].key, k))
      && Made(l[0]) && Good(l[1..]))
  }

  function Lookup(l: Envs, key: string): (e: Env)
    requires key in Keys(l)
    ensures e in l && e.key == key
  {
    if l[0].key == key then l[0] else Lookup(l[1..], key)
  }

  function SizeOf(l: Envs, key: string): nat {
    if key in Keys(l) then Lookup(l, key).size else 0
  }

  function Remove(l: Envs, key: string): (r: Envs)
    ensures key in Keys(l) ==> |r| < |l|
    ensures |r| <= |l|
  {
    if l == [] then [] else if l[0].key == key then l[1..] else [l[0]] + Remove(l[1..], key)
  }

  /** The entry is changed in place, or joins the others at its place. */
  function Store(l: Envs, e: Env): Envs {
    if l == [] || Precedes(e.key, l[0].key) then [e] + l
    else if l[0].key == e.key then [e] + l[1..]
    else [l[0]] + Store(l[1..], e)
  }

  lemma {:induction false} Members(l: Envs, e: Env)
    requires e in l
    ensures e.key in Keys(l) && e.size <= Total(l)
    ensures Good(l) ==> Lookup(l, e.key) == e && Made(e)
  {
    if l[0] != e { Members(l[1..], e); }
  }

  lemma {:induction false} RemoveFacts(l: Envs, key: string)
    ensures key in Keys(l) ==> Total(Remove(l, key)) == Total(l) - Lookup(l, key).size && Lookup(l, key).size <= Total(l)
    ensures key !in Keys(l) ==> Remove(l, key) == l
    ensures Keys(Remove(l, key)) <= Keys(l) && (Good(l) ==> Good(Remove(l, key)) && key !in Keys(Remove(l, key)))
    ensures forall e :: e in Remove(l, key) ==> e in l
    ensures forall e :: e in l && e.key != key ==> e in Remove(l, key)
  {
    if l != [] && l[0].key != key {
      RemoveFacts(l[1..], key);
      var r := Remove(l[1..], key);
      assert ([l[0]] + r)[1..] == r;
    }
  }

  /** A key that comes before the first is not there, and comes before all. */
  lemma BeforeAll(l: Envs, key: string)
    requires Good(l) && l != [] && Precedes(key, l[0].key)
    ensures key !in Keys(l) && forall k :: k in Keys(l) ==> Precedes(key, k)
  {
    forall k | k in Keys(l) ensures Precedes(key, k) {
      if k != l[0].key { OrderChains(key, l[0].key, k); }
    }
    OneOrder(key, key);
  }

  lemma {:induction false} StoreFacts(l: Envs, e: Env)
    requires Good(l)
    ensures Total(Store(l, e)) == Total(l) - SizeOf(l, e.key) + e.size && SizeOf(l, e.key) <= Total(l)
    ensures Keys(Store(l, e)) == Keys(l) + {e.key}
    ensures Made(e) ==> Good(Store(l, e))
    ensures Lookup(Store(l, e), e.key) == e
  {
    hide Precedes, Made;
    if l == [] || Precedes(e.key, l[0].key) {
      assert ([e] + l)[1..] == l;
      if l != [] { BeforeAll(l, e.key); }
    } else if l[0].key != e.key {
      OneOrder(e.key, l[0].key);
      StoreFacts(l[1..], e);
      var r := Store(l[1..], e);
      assert ([l[0]] + r)[1..] == r;
    } else {
      assert ([e] + l[1..])[1..] == l[1..];
    }
  }

  // ---------------------------------------------------------------- what may go

  const KEEP := 200
  const DAY := 24 * 60 * 60

  /** Received environments go if their files are missing, or if they are idle and no job uses them. */
  predicate ReceivedMayGo(e: Env, now: int, missing: set<string>, used: set<string>) {
    e.key in missing || (now - e.lastUse > KEEP && e.key !in used)
  }

  function NativeKeep(e: Env, count: nat): int {
    if e.creating then 365 * DAY else if count < 5 then DAY else KEEP
  }

  predicate NativeGone(e: Env, missing: set<string>) {
    e.name != "" && e.name in missing
  }

  predicate NativeMayGo(e: Env, now: int, missing: set<string>, count: nat) {
    NativeGone(e, missing) || now - e.lastUse > NativeKeep(e, count)
  }

  /** The scan for the received environment to remove, and how long ago it was used: of the idle and unused ones
      the least recently used; a missing one ends the scan. */
  function PickReceived(l: Envs, now: int, missing: set<string>, used: set<string>, oldest: string, time: int): (r: (string, int))
    ensures r.0 == oldest || r.0 in Keys(l)
  {
    if l == [] then (oldest, time)
    else if l[0].key in missing then (l[0].key, 0)
    else if l[0].lastUse < time && now - l[0].lastUse > KEEP && l[0].key !in used then
      PickReceived(l[1..], now, missing, used, l[0].key, l[0].lastUse)
    else PickReceived(l[1..], now, missing, used, oldest, time)
  }

  /** The same for native environments, of which there are `count`. */
  function PickNative(l: Envs, count: nat, now: int, missing: set<string>, oldest: string, time: int): (r: string)
    ensures r == oldest || r in Keys(l)
  {
    if l == [] then oldest
    else if NativeGone(l[0], missing) then l[0].key
    else if l[0].lastUse < time && now - l[0].lastUse > NativeKeep(l[0], count) then
      PickNative(l[1..], count, now, missing, l[0].key, l[0].lastUse)
    else PickNative(l[1..], count, now, missing, oldest, time)
  }

  lemma {:induction false} KeysOf(l: Envs)
    ensures forall e :: e in l ==> e.key in Keys(l)
  {
    if l != [] { KeysOf(l[1..]); }
  }

  /** A missing environment is picked if there is one, otherwise the least recently used of those that may go and
      are older than `time`. */
  lemma {:induction false} ReceivedPicked(l: Envs, now: int, missing: set<string>, used: set<string>, oldest: string, time: int)
    requires Good(l) && oldest !in Keys(l)
    ensures var (key, t) := PickReceived(l, now, missing, used, oldest, time);
      if exists e :: e in l && e.key in missing then key in Keys(l) && key in missing && t == 0
      else
        && (if key == oldest then t == time
            else key in Keys(l) && ReceivedMayGo(Lookup(l, key), now, missing, used) && t == Lookup(l, key).lastUse < time)
        && forall e :: e in l && ReceivedMayGo(e, now, missing, used) ==> t <= e.lastUse
  {
    if l != [] {
      assert forall e :: e in l <==> e == l[0] || e in l[1..];
      if l[0].key !in missing {
        KeysOf(l[1..]);
        var older := l[0].lastUse < time && now - l[0].lastUse > KEEP && l[0].key !in used;
        ReceivedPicked(l[1..], now, missing, used, if older then l[0].key else oldest, if older then l[0].lastUse else time);
      }
    }
  }

  lemma {:induction false} NativePicked(l: Envs, count: nat, now: int, missing: set<string>, oldest: string, time: int)
    requires Good(l) && oldest !in Keys(l)
    ensures var key := PickNative(l, count, now, missing, oldest, time);
      if exists e :: e in l && NativeGone(e, missing) then key in Keys(l) && NativeGone(Lookup(l, key), missing)
      else if key == oldest then forall e :: e in l && NativeMayGo(e, now, missing, count) ==> time <= e.lastUse
      else
        && key in Keys(l) && NativeMayGo(Lookup(l, key), now, missing, count) && Lookup(l, key).lastUse < time
        && forall e :: e in l && NativeMayGo(e, now, missing, count) ==> Lookup(l, key).lastUse <= e.lastUse
  {
    if l != [] {
      assert forall e :: e in l <==> e == l[0] || e in l[1..];
      if !NativeGone(l[0], missing) {
        KeysOf(l[1..]);
        var older := l[0].lastUse < time && now - l[0].lastUse > NativeKeep(l[0], count);
        NativePicked(l[1..], count, now, missing, if older then l[0].key else oldest, if older then l[0].lastUse else time);
      }
    }
  }

  /** The scan over the received environments. */
  method OldestReceived(l: Envs, now: int, missing: set<string>, used: set<string>) returns (oldest: string, time: int)
    ensures (oldest, time) == PickReceived(l, now, missing, used, "", now + 90000)
  {
    oldest, time := "", now + 90000;
    assert l[0..] == l;
    for i := 0 to |l|
      invariant PickReceived(l[i..], now, missing, used, oldest, time) == PickReceived(l, now, missing, used, "", now + 90000)
    {
      assert l[i..][1..] == l[i + 1..];
      if l[i].key in missing {
        return l[i].key, 0;
      }
      if l[i].lastUse < time && now - l[i].lastUse > KEEP && l[i].key !in used {
        oldest, time := l[i].key, l[i].lastUse;
      }
    }
  }

  /** The scan over the native environments, which must also be older than `bound`. */
  method OldestNative(l: Envs, now: int, missing: set<string>, bound: int) returns (oldest: string)
    ensures oldest == PickNative(l, |l|, now, missing, "", bound)
  {
    oldest := "";
    var time := bound;
    assert l[0..] == l;
    for i := 0 to |l|
      invariant PickNative(l[i..], |l|, now, missing, oldest, time) == PickNative(l, |l|, now, missing, "", bound)
    {
      assert l[i..][1..] == l[i + 1..];
      if NativeGone(l[i], missing) {
        return l[i].key;
      }
      var keep := KEEP;
      if |l| < 5 {
        keep := DAY;
      }
      if l[i].creating {
        keep := 365 * DAY;
      }
      if l[i].lastUse < time && now - l[i].lastUse > keep {
        oldest, time := l[i].key, l[i].lastUse;
      }
    }
  }

  // ---------------------------------------------------------------- cleaning up

  /** Both maps, and the size the daemon reckons with. */
  datatype Cache = Cache(received: Envs, native: Envs, size: nat)

  datatype Removal = Received(key: string) | Native(key: string)

  predicate Holds(c: Cache, r: Removal) {
    match r
    case Received(key) => key in Keys(c.received)
    case Native(key) => key in Keys(c.native)
  }

  /** The environment that goes next: the native one picked, or else the received one; none if both picks are
      empty or the new environment. */
  function Pick(c: Cache, newEnv: string, now: int, missing: set<string>, used: set<string>): (r: Option<Removal>)
    ensures r.Some? ==> Holds(c, r.value) && r.value != Received(newEnv)
  {
    var (received, time) := PickReceived(c.received, now, missing, used, "", now + 90000);
    var native := PickNative(c.native, |c.native|, now, missing, "", time);
    if (received == "" || received == newEnv) && (native == "" || native == newEnv) then None
    else Some(if native != "" then Native(native) else Received(received))
  }

  function Removed(c: Cache, r: Removal): Cache {
    match r
    case Received(key) => c.(received := Remove(c.received, key), size := Max(0, c.size - SizeOf(c.received, key)))
    case Native(key) => c.(native := Remove(c.native, key), size := Max(0, c.size - SizeOf(c.native, key)))
  }

  /** While the cache is above its limit, one environment after the other goes. */
  function Cleaned(c: Cache, limit: nat, newEnv: string, now: int, missing: set<string>, used: set<string>): Cache
    decreases |c.received| + |c.native|
  {
    var r := Pick(c, newEnv, now, missing, used);
    if c.size <= limit || r == None then c
    else Cleaned(Removed(c, r.value), limit, newEnv, now, missing, used)
  }

  /** Every key once, and the size covers all sizes. */
  ghost predicate Covers(c: Cache) {
    Good(c.received) && Good(c.native) && Total(c.received) + Total(c.native) <= c.size
  }

  /** How far the size exceeds the sum of sizes. */
  function Surplus(c: Cache): int {
    c.size - Total(c.received) - Total(c.native)
  }

  predicate MayGo(c: Cache, r: Removal, now: int, missing: set<string>, used: set<string>) {
    && Holds(c, r)
    && match r
       case Received(key) => ReceivedMayGo(Lookup(c.received, key), now, missing, used)
       case Native(key) => NativeMayGo(Lookup(c.native, key), now, missing, |c.native|)
  }

  lemma NoKey(l: Envs)
    requires Good(l)
    ensures "" !in Keys(l)
  {
    if l != [] { NoKey(l[1..]); }
  }

  lemma PickMayGo(c: Cache, newEnv: string, now: int, missing: set<string>, used: set<string>)
    requires Good(c.received) && Good(c.native) && Pick(c, newEnv, now, missing, used).Some?
    ensures MayGo(c, Pick(c, newEnv, now, missing, used).value, now, missing, used)
  {
    NoKey(c.received);
    NoKey(c.native);
    ReceivedPicked(c.received, now, missing, used, "", now + 90000);
    var (_, time) := PickReceived(c.received, now, missing, used, "", now + 90000);
    NativePicked(c.native, |c.native|, now, missing, "", time);
  }

  lemma RemovedFacts(c: Cache, r: Removal)
    requires Covers(c) && Holds(c, r)
    ensures Covers(Removed(c, r)) && Surplus(Removed(c, r)) == Surplus(c) && Removed(c, r).size <= c.size
    ensures forall k :: Holds(Removed(c, r), k) ==> k != r && Holds(c, k)
  {
    RemoveFacts(c.received, r.key);
    RemoveFacts(c.native, r.key);
  }

  function Entry(c: Cache, r: Removal): Env
    requires Holds(c, r)
  {
    match r
    case Received(key) => Lookup(c.received, key)
    case Native(key) => Lookup(c.native, key)
  }

  lemma {:induction false} RemoveLookup(l: Envs, key: string, other: string)
    requires Good(l) && other in Keys(l) && other != key
    ensures other in Keys(Remove(l, key)) && Lookup(Remove(l, key), other) == Lookup(l, other)
  {
    if l[0].key != key && l[0].key != other {
      RemoveLookup(l[1..], key, other);
      var r := Remove(l[1..], key);
      assert ([l[0]] + r)[1..] == r;
    }
  }

  lemma RemovedEntry(c: Cache, r: Removal, k: Removal)
    requires Covers(c) && Holds(c, r) && Holds(c, k) && k != r
    ensures Holds(Removed(c, r), k) && Entry(Removed(c, r), k) == Entry(c, k)
  {
    if k.Received? && r.Received? { RemoveLookup(c.received, r.key, k.key); }
    if k.Native? && r.Native? { RemoveLookup(c.native, r.key, k.key); }
  }

  /** Fewer native environments are kept for longer. */
  lemma FewerKept(c: Cache, t: Cache, k: Removal, now: int, missing: set<string>, used: set<string>)
    requires Holds(c, k) && Holds(t, k) && Entry(t, k) == Entry(c, k) && |t.native| <= |c.native|
    ensures MayGo(t, k, now, missing, used) ==> MayGo(c, k, now, missing, used)
    ensures k.Received? ==> (MayGo(t, k, now, missing, used) <==> MayGo(c, k, now, missing, used))
  {
  }

  /** Cleaning up keeps the size right and every environment that may not go, and above all the new one, and it
      stops under the limit or when nothing is picked. */
  lemma {:induction false} CleanedKeeps(c: Cache, limit: nat, newEnv: string, now: int, missing: set<string>, used: set<string>)
    requires Covers(c)
    ensures var t := Cleaned(c, limit, newEnv, now, missing, used);
      && Covers(t) && Surplus(t) == Surplus(c) && t.size <= c.size && |t.native| <= |c.native|
      && (forall k :: Holds(t, k) ==> Holds(c, k) && Entry(t, k) == Entry(c, k))
      && (forall k :: Holds(c, k) && !Holds(t, k) ==> MayGo(c, k, now, missing, used) && k != Received(newEnv))
      && (t.size <= limit || Pick(t, newEnv, now, missing, used) == None)
    decreases |c.received| + |c.native|
  {
    var p := Pick(c, newEnv, now, missing, used);
    if c.size > limit && p.Some? {
      var r := p.value;
      var d := Removed(c, r);
      PickMayGo(c, newEnv, now, missing, used);
      hide Covers, Pick, Removed, Surplus, MayGo, Entry, Holds;
      RemovedFacts(c, r);
      RemovedSmaller(c, r);
      CleanedKeeps(d, limit, newEnv, now, missing, used);
      forall k | Holds(c, k) && k != r ensures Holds(d, k) && Entry(d, k) == Entry(c, k) {
        RemovedEntry(c, r, k);
      }
      forall k | Holds(d, k) ensures Holds(c, k) && (MayGo(d, k, now, missing, used) ==> MayGo(c, k, now, missing, used)) {
        FewerKept(c, d, k, now, missing, used);
      }
    }
  }

  lemma RemovedSmaller(c: Cache, r: Removal)
    requires Holds(c, r)
    ensures |Removed(c, r).received| + |Removed(c, r).native| < |c.received| + |c.native| && |Removed(c, r).native| <= |c.native|
  {
  }

  /** Nothing is picked: then nothing may go, exactly if the new environment may not. */
  lemma Stuck(c: Cache, newEnv: string, now: int, missing: set<string>, used: set<string>)
    requires Covers(c) && Pick(c, newEnv, now, missing, used) == None
    ensures (forall k :: !MayGo(c, k, now, missing, used))
       <==> !MayGo(c, Received(newEnv), now, missing, used) && !MayGo(c, Native(newEnv), now, missing, used)
  {
    NoKey(c.received);
    NoKey(c.native);
    ReceivedPicked(c.received, now, missing, used, "", now + 90000);
    var (received, time) := PickReceived(c.received, now, missing, used, "", now + 90000);
    NativePicked(c.native, |c.native|, now, missing, "", time);
    if !MayGo(c, Received(newEnv), now, missing, used) && !MayGo(c, Native(newEnv), now, missing, used) {
      assert received == "";
      forall k ensures !MayGo(c, k, now, missing, used) {
      }
    }
  }

  /** The loop stops above the limit with nothing left that may go if and only if the new environment itself may
      not go; and that one stays, so it may go afterwards exactly if it may before. */
  lemma CleanedStops(c: Cache, limit: nat, newEnv: string, now: int, missing: set<string>, used: set<string>)
    requires Covers(c)
    ensures var t := Cleaned(c, limit, newEnv, now, missing, used);
      && (t.size > limit ==>
            ((forall k :: !MayGo(t, k, now, missing, used))
             <==> !MayGo(t, Received(newEnv), now, missing, used) && !MayGo(t, Native(newEnv), now, missing, used)))
      && (MayGo(t, Received(newEnv), now, missing, used) <==> MayGo(c, Received(newEnv), now, missing, used))
      && (MayGo(t, Native(newEnv), now, missing, used) ==> MayGo(c, Native(newEnv), now, missing, used))
  {
    var t := Cleaned(c, limit, newEnv, now, missing, used);
    CleanedKeeps(c, limit, newEnv, now, missing, used);
    hide Covers, Pick, Entry, Cleaned;
    if t.size > limit { Stuck(t, newEnv, now, missing, used); }
    FewerKeptBoth(c, t, newEnv, now, missing, used);
  }

  lemma FewerKeptBoth(c: Cache, t: Cache, newEnv: string, now: int, missing: set<string>, used: set<string>)
    requires forall k :: Holds(t, k) ==> Holds(c, k) && Entry(t, k) == Entry(c, k)
    requires Holds(c, Received(newEnv)) ==> Holds(t, Received(newEnv))
    requires |t.native| <= |c.native|
    ensures MayGo(t, Received(newEnv), now, missing, used) <==> MayGo(c, Received(newEnv), now, missing, used)
    ensures MayGo(t, Native(newEnv), now, missing, used) ==> MayGo(c, Native(newEnv), now, missing, used)
  {
    if Holds(t, Received(newEnv)) { FewerKept(c, t, Received(newEnv), now, missing, used); }
    if Holds(t, Native(newEnv)) { FewerKept(c, t, Native(newEnv), now, missing, used); }
  }

  /** A cached environment whose new transfer was cancelled has lost its files. The scan ends at it, and the loop
      stops above the limit although another environment has been idle for long. */
  lemma CleanedGivesUp()
    ensures var c := Cache([Env("a", "a", 1000, 5, false), Env("b", "b", 0, 7, false)], [], 12);
      && Covers(c) && Cleaned(c, 10, "a", 1000, {"a"}, {}) == c && c.size > 10
      && MayGo(c, Received("b"), 1000, {"a"}, {})
  {
    var a, b := Env("a", "a", 1000, 5, false), Env("b", "b", 0, 7, false);
    var l := [a, b];
    assert l[1..] == [b] && [b][1..] == [];
    assert "a" != "b";
    assert Keys([b]) == {"b"} && Total([b]) == 7 && Good([b]);
    assert Lookup(l, "b") == b;
    assert PickReceived(l, 1000, {"a"}, {}, "", 91000) == ("a", 0);
    assert PickNative([], 0, 1000, {"a"}, "", 0) == "";
  }

  // ---------------------------------------------------------------- what joins the cache

  /** The time stamp of a received environment; the lookup makes an empty entry if there is none. */
  function Touched(l: Envs, key: string, now: int): Envs {
    Store(l, Env(key, key, now, SizeOf(l, key), false))
  }

  /** The same for a native one. */
  function Stamped(l: Envs, key: string, now: int): Envs {
    Store(l, (if key in Keys(l) then Lookup(l, key) else Env(key, "", 0, 0, false)).(lastUse := now))
  }

  /** The making of a native environment is started, unless it is under way. */
  function Requested(l: Envs, key: string): Envs {
    if key in Keys(l) && Lookup(l, key).creating then l else Store(l, Env(key, "", 0, 0, true))
  }

  /** An environment whose files have changed is to be made again; what is removed is the entry whose key is the
      name of its tarball. */
  function Refreshed(c: Cache, key: string, stale: bool): Cache {
    if Available(c.native, key) && stale then Removed(c, Native(Lookup(c.native, key).name)) else c
  }

  /** So a changed environment is made again if and only if its key is the name of its tarball; if that name is no
      key at all, nothing happens. */
  lemma StaleStays(c: Cache, key: string)
    requires Good(c.native) && Available(c.native, key)
    ensures var name := Lookup(c.native, key).name;
      && (Available(Refreshed(c, key, true).native, key) <==> name != key)
      && (Refreshed(c, key, true) == c <==> name !in Keys(c.native))
  {
    var name := Lookup(c.native, key).name;
    RemoveFacts(c.native, name);
    if name != key { RemoveLookup(c.native, name, key); }
  }

  lemma {:induction false} StoreTwice(l: Envs, d: Env, e: Env)
    requires d.key == e.key
    ensures Store(Store(l, d), e) == Store(l, e)
  {
    hide Precedes;
    OneOrder(e.key, e.key);
    if l == [] || Precedes(e.key, l[0].key) {
      assert ([d] + l)[1..] == l;
    } else if l[0].key != e.key {
      StoreTwice(l[1..], d, e);
      var r := Store(l[1..], d);
      assert ([l[0]] + r)[1..] == r;
    } else {
      assert ([d] + l[1..])[1..] == l[1..];
    }
  }

  lemma StampedTwice(l: Envs, key: string, now: int)
    requires Good(l)
    ensures Stamped(Stamped(l, key, now), key, now) == Stamped(l, key, now)
  {
    var e := (if key in Keys(l) then Lookup(l, key) else Env(key, "", 0, 0, false)).(lastUse := now);
    StoreFacts(l, e);
    StoreTwice(l, e, e);
  }

  /** A received environment that was finalized with that size; 0 says that finalizing failed. */
  function Added(c: Cache, key: string, size: nat, now: int): Cache {
    if size == 0 then c
    else c.(received := Store(c.received, Env(key, key, now, size, false)), size := c.size + size)
  }

  /** Is a native environment there, and not only being made? */
  predicate Available(l: Envs, key: string) {
    key in Keys(l) && Lookup(l, key).name != ""
  }

  function AddedNative(c: Cache, key: string, name: string, size: nat, now: int): Cache {
    c.(native := Store(c.native, Env(key, name, now, size, false)), size := c.size + size)
  }

  /** An environment just installed survives the clean-up with its size and time. If its assembler is there and no
      native environment of that name may go, the clean-up ends under the limit or when nothing may go. */
  lemma InstalledStays(c: Cache, key: string, size: nat, limit: nat, now: int, missing: set<string>, used: set<string>)
    requires Covers(c) && key != "" && size > 0
    ensures var a := Added(c, key, size, now);
      var t := Cleaned(a, limit, key, now, missing, used);
      && Holds(t, Received(key)) && Entry(t, Received(key)) == Env(key, key, now, size, false)
      && Surplus(t) == Surplus(c) + SizeOf(c.received, key)
      && (key !in missing && !MayGo(c, Native(key), now, missing, used) ==>
            t.size <= limit || forall k :: !MayGo(t, k, now, missing, used))
  {
    var a := Added(c, key, size, now);
    StoreFacts(c.received, Env(key, key, now, size, false));
    AddedMayGo(c, key, size, now, missing, used);
    hide Added, Cleaned, Pick, MayGo;
    CleanedKeeps(a, limit, key, now, missing, used);
    CleanedStops(a, limit, key, now, missing, used);
  }

  lemma AddedMayGo(c: Cache, key: string, size: nat, now: int, missing: set<string>, used: set<string>)
    requires Covers(c) && key != "" && size > 0
    ensures var a := Added(c, key, size, now);
      && Covers(a) && Holds(a, Received(key)) && Entry(a, Received(key)) == Env(key, key, now, size, false)
      && Surplus(a) == Surplus(c) + SizeOf(c.received, key)
      && (MayGo(a, Received(key), now, missing, used) <==> key in missing)
      && (MayGo(a, Native(key), now, missing, used) <==> MayGo(c, Native(key), now, missing, used))
  {
    StoreFacts(c.received, Env(key, key, now, size, false));
  }
}
