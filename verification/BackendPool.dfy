/** The pool of backend connections: how many are in use per backend, which are idle, and
    what holds however the phases of concurrent callers interleave. */
module BackendPools {
  import opened HttpSyntax

  // ---- keys ----

  /** "%d" of a non-negative number. */
  function NatToString(n: nat): string {
    if n < 10 then [('0' as int + n) as char]
    else NatToString(n / 10) + [('0' as int + n % 10) as char]
  }

  function IntToString(n: int): string {
    if n < 0 then "-" + NatToString(-n) else NatToString(n)
  }

  function MakeKey(host: string, port: int): string {
    host + ":" + IntToString(port)
  }

  lemma {:induction false} NatToStringReads(n: nat)
    ensures NatToString(n) != "" && AllDigits(NatToString(n)) && DecimalValue(NatToString(n)) == n
    decreases n
  {
    var s := NatToString(n);
    if n >= 10 {
      NatToStringReads(n / 10);
      assert s[..|s| - 1] == NatToString(n / 10);
    } else {
      assert s[..0] == "" && DecimalValue("") == 0;
    }
  }

  lemma IntToStringInjective(m: int, n: int)
    requires IntToString(m) == IntToString(n)
    ensures m == n
  {
    var a, b := if m < 0 then -m else m, if n < 0 then -n else n;
    NatToStringReads(a);
    NatToStringReads(b);
    assert IsDigit(NatToString(a)[0]) && IsDigit(NatToString(b)[0]);
    if m < 0 && n < 0 {
      assert IntToString(m)[1..] == NatToString(a) && IntToString(n)[1..] == NatToString(b);
    }
  }

  lemma NoColon(n: int)
    ensures ':' !in IntToString(n)
  {
    NatToStringReads(if n < 0 then -n else n);
    var digits := NatToString(if n < 0 then -n else n);
    assert forall i :: 0 <= i < |digits| ==> IsDigit(digits[i]);
  }

  lemma SplitAtLastColon(h1: string, t1: string, h2: string, t2: string)
    requires ':' !in t1 && ':' !in t2 && h1 + ":" + t1 == h2 + ":" + t2
    ensures h1 == h2 && t1 == t2
  {
    var k := h1 + ":" + t1;
    assert k[|h1|] == ':' && k[|h2|] == ':';
    assert forall i :: |h1| < i < |k| ==> k[i] == t1[i - |h1| - 1];
    assert forall i :: |h2| < i < |k| ==> k[i] == t2[i - |h2| - 1];
    assert k[..|h1|] == h1 && k[..|h2|] == h2;
    assert k[|h1| + 1..] == t1 && k[|h2| + 1..] == t2;
  }

  /** Two backends share a key only if they are the same, even when hosts hold colons. */
  lemma MakeKeyInjective(h1: string, p1: int, h2: string, p2: int)
    requires MakeKey(h1, p1) == MakeKey(h2, p2)
    ensures h1 == h2 && p1 == p2
  {
    hide IntToString;
    NoColon(p1);
    NoColon(p2);
    SplitAtLastColon(h1, IntToString(p1), h2, IntToString(p2));
    IntToStringInjective(p1, p2);
  }

  // ---- the locked sections, on values ----

  datatype Entry = Entry(idle: seq<nat>, active: nat)
  type Pools = map<string, Entry>

  function EntryOf(pools: Pools, key: string): Entry {
    if key in pools then pools[key] else Entry([], 0)
  }

  /** Dead connections at the front of the queue are thrown away. */
  function DropDead(idle: seq<nat>, alive: set<nat>): seq<nat> {
    if idle == [] || idle[0] in alive then idle else DropDead(idle[1..], alive)
  }

  function AcquireEntry(e: Entry, alive: set<nat>): Entry {
    var rest := DropDead(e.idle, alive);
    Entry(if rest == [] then [] else rest[1..], e.active + 1)
  }

  function LessActive(e: Entry): Entry {
    if e.active > 0 then e.(active := e.active - 1) else e
  }

  function ReleaseEntry(e: Entry, conn: nat, maxIdle: nat): Entry {
    var d := LessActive(e);
    if |d.idle| < maxIdle then d.(idle := d.idle + [conn]) else d
  }

  function Fresh(idle: seq<nat>, expired: set<nat>): seq<nat> {
    if idle == [] then []
    else (if idle[0] in expired then [] else [idle[0]]) + Fresh(idle[1..], expired)
  }

  /** What is dropped in front are dead connections, and the first one left is alive. */
  lemma {:induction false} DropDeadSplits(idle: seq<nat>, alive: set<nat>) returns (k: nat)
    ensures k <= |idle| && DropDead(idle, alive) == idle[k..]
    ensures (forall i :: 0 <= i < k ==> idle[i] !in alive) && (k < |idle| ==> idle[k] in alive)
    decreases |idle|
  {
    if idle == [] || idle[0] in alive {
      k := 0;
    } else {
      k := DropDeadSplits(idle[1..], alive);
      k := k + 1;
    }
  }

  lemma {:induction false} FreshAppend(a: seq<nat>, b: seq<nat>, expired: set<nat>)
    ensures Fresh(a + b, expired) == Fresh(a, expired) + Fresh(b, expired)
    decreases |a|
  {
    if a == [] {
      assert a + b == b;
    } else {
      FreshAppend(a[1..], b, expired);
      assert (a + b)[0] == a[0] && (a + b)[1..] == a[1..] + b;
      Regrouped(if a[0] in expired then [] else [a[0]], Fresh(a[1..], expired), Fresh(b, expired));
    }
  }

  lemma Regrouped(a: seq<nat>, b: seq<nat>, c: seq<nat>)
    ensures a + (b + c) == a + b + c
  {
  }

  /** A cleaned queue keeps exactly the connections that have not expired, in their order. */
  lemma FreshKeeps(a: seq<nat>, c: nat, b: seq<nat>, expired: set<nat>)
    ensures Fresh(a + ([c] + b), expired) ==
              Fresh(a, expired) + ((if c in expired then [] else [c]) + Fresh(b, expired))
  {
    FreshAppend(a, [c] + b, expired);
    assert ([c] + b)[1..] == b;
  }

  function Cleaned(pools: Pools, expired: set<nat>): Pools {
    map key | key in pools :: pools[key].(idle := Fresh(pools[key].idle, expired))
  }

  // ---- the object ----

  class BackendPool {
    var pools: Pools
    const maxIdle: nat

    constructor (maxIdle: nat)
      ensures pools == map[] && this.maxIdle == maxIdle
    {
      pools, this.maxIdle := map[], maxIdle;
    }

    /** First section of `acquire`: count the caller in and look for a live idle one. */
    method AcquireIdle(key: string, alive: set<nat>) returns (found: bool, conn: nat)
      modifies this
      ensures pools == old(pools)[key := AcquireEntry(EntryOf(old(pools), key), alive)]
      ensures var rest := DropDead(EntryOf(old(pools), key).idle, alive);
              found == (rest != []) && (found ==> conn == rest[0] && conn in alive)
      ensures found <==> exists c :: c in EntryOf(old(pools), key).idle && c in alive
    {
      var entry := EntryOf(pools, key);
      ghost var start := entry.idle;
      entry := entry.(active := entry.active + 1);
      found, conn := false, 0;
      while entry.idle != [] && !found
        invariant entry.active == EntryOf(old(pools), key).active + 1
        invariant found ==> DropDead(start, alive) == [conn] + entry.idle && conn in alive
        invariant !found ==> DropDead(start, alive) == DropDead(entry.idle, alive)
        decreases |entry.idle|
      {
        conn := entry.idle[0];
        entry := entry.(idle := entry.idle[1..]);
        found := conn in alive;
      }
      pools := pools[key := entry];
      ghost var k := DropDeadSplits(start, alive);
      assert found ==> start[k..][0] == start[k];
    }

    /** Last section of `acquire` after a failed connect, and all of `evict`. */
    method GiveUp(key: string)
      modifies this
      ensures pools == if key in old(pools) then old(pools)[key := LessActive(old(pools)[key])] else old(pools)
    {
      if key in pools && pools[key].active > 0 {
        pools := pools[key := pools[key].(active := pools[key].active - 1)];
      }
    }

    method Release(key: string, conn: nat, isAlive: bool)
      modifies this
      ensures isAlive ==> pools == old(pools)[key := ReleaseEntry(EntryOf(old(pools), key), conn, maxIdle)]
      ensures !isAlive ==>
                pools == if key in old(pools) then old(pools)[key := LessActive(old(pools)[key])] else old(pools)
    {
      if !isAlive {
        GiveUp(key);
        return;
      }
      var entry := EntryOf(pools, key);
      if entry.active > 0 {
        entry := entry.(active := entry.active - 1);
      }
      if |entry.idle| < maxIdle {
        entry := entry.(idle := entry.idle + [conn]);
      }
      pools := pools[key := entry];
    }

    /** The rotation of `cleanup_idle`: as many pops as there were entries, the ones to
        keep pushed to the back, leave the kept ones in their old order. */
    method Rotate(idle: seq<nat>, expired: set<nat>) returns (kept: seq<nat>)
      ensures kept == Fresh(idle, expired)
    {
      var queue := idle;
      for i := 0 to |idle|
        invariant |idle| - i <= |queue|
        invariant queue[..|idle| - i] == idle[i..]
        invariant Fresh(idle, expired) == queue[|idle| - i..] + Fresh(idle[i..], expired)
      {
        var conn := queue[0];
        assert conn == queue[..|idle| - i][0] == idle[i];
        assert idle[i..][1..] == idle[i + 1..];
        ghost var before := queue;
        queue := queue[1..];
        if conn !in expired {
          queue := queue + [conn];
        }
        assert queue[..|idle| - (i + 1)] == before[..|idle| - i][1..];
        assert queue[|idle| - (i + 1)..] == before[|idle| - i..] + if conn in expired then [] else [conn];
      }
      kept := queue;
    }

    method CleanupIdle(expired: set<nat>)
      modifies this
      ensures pools == Cleaned(old(pools), expired)
    {
      var todo := pools.Keys;
      while todo != {}
        invariant todo <= pools.Keys == old(pools).Keys
        invariant forall key :: key in pools ==>
                    pools[key] == if key in todo then old(pools)[key] else Cleaned(old(pools), expired)[key]
      {
        var key :| key in todo;
        var kept := Rotate(pools[key].idle, expired);
        pools := pools[key := pools[key].(idle := kept)];
        todo := todo - {key};
      }
    }
  }

  // ---- callers ----

  /** One caller of forward_pooled: outside, connecting without the lock, or holding. */
  datatype Caller = Away | Connecting(key: string) | Holding(key: string, conn: nat)

  datatype World = World(pools: Pools, callers: seq<Caller>, nextConn: nat, maxIdle: nat)

  datatype Action =
    | Acquire(t: nat, key: string, alive: set<nat>)
    | Connected(t: nat)
    | ConnectFailed(t: nat)
    | Release(t: nat)
    | Evict(t: nat)
    | Cleanup(expired: set<nat>)

  predicate Enabled(w: World, a: Action) {
    match a
    case Acquire(t, _, _) => t < |w.callers| && w.callers[t].Away?
    case Connected(t) => t < |w.callers| && w.callers[t].Connecting?
    case ConnectFailed(t) => t < |w.callers| && w.callers[t].Connecting?
    case Release(t) => t < |w.callers| && w.callers[t].Holding?
    case Evict(t) => t < |w.callers| && w.callers[t].Holding?
    case Cleanup(_) => true
  }

  function Acquired(w: World, t: nat, key: string, alive: set<nat>): World
    requires t < |w.callers|
  {
    var e := EntryOf(w.pools, key);
    var rest := DropDead(e.idle, alive);
    w.(pools := w.pools[key := AcquireEntry(e, alive)],
       callers := w.callers[t := if rest == [] then Connecting(key) else Holding(key, rest[0])])
  }

  function GivenUp(w: World, t: nat, key: string): World
    requires t < |w.callers|
  {
    w.(pools := if key in w.pools then w.pools[key := LessActive(w.pools[key])] else w.pools,
       callers := w.callers[t := Away])
  }

  function After(w: World, a: Action): World
    requires Enabled(w, a)
  {
    match a
    case Acquire(t, key, alive) => Acquired(w, t, key, alive)
    case Connected(t) =>
      w.(callers := w.callers[t := Holding(w.callers[t].key, w.nextConn)], nextConn := w.nextConn + 1)
    case ConnectFailed(t) => GivenUp(w, t, w.callers[t].key)
    case Release(t) =>
      var key, conn := w.callers[t].key, w.callers[t].conn;
      w.(pools := w.pools[key := ReleaseEntry(EntryOf(w.pools, key), conn, w.maxIdle)],
         callers := w.callers[t := Away])
    case Evict(t) => GivenUp(w, t, w.callers[t].key)
    case Cleanup(expired) => w.(pools := Cleaned(w.pools, expired))
  }

  function Start(callers: nat, maxIdle: nat): World {
    World(map[], seq(callers, _ => Away), 0, maxIdle)
  }

  // ---- accounting ----

  predicate Uses(c: Caller, key: string) {
    !c.Away? && c.key == key
  }

  /** How many callers are connecting to, or holding a connection of, this backend. */
  function Users(callers: seq<Caller>, key: string): nat {
    if callers == [] then 0 else (if Uses(callers[0], key) then 1 else 0) + Users(callers[1..], key)
  }

  lemma {:induction false} UsersUpdate(callers: seq<Caller>, t: nat, c: Caller, key: string)
    requires t < |callers|
    ensures Users(callers[t := c], key) + (if Uses(callers[t], key) then 1 else 0)
         == Users(callers, key) + (if Uses(c, key) then 1 else 0)
    decreases |callers|
  {
    if t > 0 {
      UsersUpdate(callers[1..], t - 1, c, key);
      assert callers[t := c][1..] == callers[1..][t - 1 := c];
    } else {
      assert callers[0 := c][1..] == callers[1..];
    }
  }

  predicate Accounted(w: World) {
    && (forall key :: key in w.pools ==> w.pools[key].active == Users(w.callers, key))
    && (forall t :: 0 <= t < |w.callers| && !w.callers[t].Away? ==> w.callers[t].key in w.pools)
  }

  predicate NoRepeats(idle: seq<nat>) {
    forall i, j :: 0 <= i < j < |idle| ==> idle[i] != idle[j]
  }

  /** Every connection is in one place: in one idle queue once, or with one caller. */
  predicate OnePlace(w: World) {
    && (forall key :: key in w.pools ==> NoRepeats(w.pools[key].idle))
    && (forall key, c :: key in w.pools && c in w.pools[key].idle ==> c < w.nextConn)
    && (forall k1, k2, c :: k1 in w.pools && k2 in w.pools && k1 != k2 && c in w.pools[k1].idle ==>
          c !in w.pools[k2].idle)
    && (forall t :: 0 <= t < |w.callers| && w.callers[t].Holding? ==> w.callers[t].conn < w.nextConn)
    && (forall t, key :: 0 <= t < |w.callers| && w.callers[t].Holding? && key in w.pools ==>
          w.callers[t].conn !in w.pools[key].idle)
    && (forall t, u :: 0 <= t < u < |w.callers| && w.callers[t].Holding? && w.callers[u].Holding? ==>
          w.callers[t].conn != w.callers[u].conn)
  }

  predicate Capped(w: World) {
    forall key :: key in w.pools ==> |w.pools[key].idle| <= w.maxIdle
  }

  ghost predicate Inv(w: World) {
    Accounted(w) && OnePlace(w) && Capped(w)
  }

  /** One caller moves and one entry changes its count with it. */
  lemma AccountedStep(w: World, t: nat, c: Caller, key: string, e: Entry, v: World)
    requires Accounted(w) && t < |w.callers|
    requires v.callers == w.callers[t := c] && v.pools == w.pools[key := e]
    requires w.callers[t].Away? || w.callers[t].key == key
    requires c.Away? || c.key == key
    requires e.active == EntryOf(w.pools, key).active
                         + (if Uses(c, key) then 1 else 0) - (if Uses(w.callers[t], key) then 1 else 0)
    ensures Accounted(v)
  {
    forall k ensures Users(v.callers, k) + (if Uses(w.callers[t], k) then 1 else 0)
                  == Users(w.callers, k) + (if Uses(c, k) then 1 else 0)
    {
      UsersUpdate(w.callers, t, c, k);
    }
    if key !in w.pools {
      NobodyUses(w.callers, key);
    }
  }

  lemma {:induction false} NobodyUses(callers: seq<Caller>, key: string)
    requires forall t :: 0 <= t < |callers| ==> !Uses(callers[t], key)
    ensures Users(callers, key) == 0
    decreases |callers|
  {
    if callers != [] {
      NobodyUses(callers[1..], key);
    }
  }

  lemma {:induction false} SomebodyUses(callers: seq<Caller>, t: nat, key: string)
    requires t < |callers| && Uses(callers[t], key)
    ensures Users(callers, key) > 0
    decreases |callers|
  {
    if t > 0 {
      SomebodyUses(callers[1..], t - 1, key);
    }
  }

  /** The guards against counting below zero never have to act: whoever gives a
      connection back, or gives up connecting, is still counted. */
  lemma GuardsNeverBite(w: World, t: nat)
    requires Accounted(w) && t < |w.callers| && !w.callers[t].Away?
    ensures w.callers[t].key in w.pools && w.pools[w.callers[t].key].active > 0
  {
    SomebodyUses(w.callers, t, w.callers[t].key);
  }

  lemma {:induction false} FreshIs(idle: seq<nat>, expired: set<nat>)
    ensures forall c :: c in Fresh(idle, expired) <==> c in idle && c !in expired
    ensures NoRepeats(idle) ==> NoRepeats(Fresh(idle, expired))
    ensures |Fresh(idle, expired)| <= |idle|
    decreases |idle|
  {
    if idle != [] {
      FreshIs(idle[1..], expired);
      assert idle == [idle[0]] + idle[1..];
      if NoRepeats(idle) {
        assert NoRepeats(idle[1..]);
        assert idle[0] !in idle[1..];
      }
    }
  }

  /** A caller takes one connection out of a queue, or none. */
  lemma TakenOnePlace(w: World, t: nat, key: string, e: Entry, c: Caller, v: World)
    requires OnePlace(w) && Capped(w) && t < |w.callers| && w.callers[t].Away?
    requires v == w.(pools := w.pools[key := e], callers := w.callers[t := c])
    requires NoRepeats(e.idle) && |e.idle| <= |EntryOf(w.pools, key).idle|
    requires forall d :: d in e.idle ==> d in EntryOf(w.pools, key).idle
    requires c.Holding? ==> c.conn in EntryOf(w.pools, key).idle && c.conn !in e.idle
    ensures OnePlace(v) && Capped(v)
  {
  }

  lemma AcquireTakes(e: Entry, alive: set<nat>)
    requires NoRepeats(e.idle)
    ensures var idle, rest := AcquireEntry(e, alive).idle, DropDead(e.idle, alive);
            && NoRepeats(idle) && |idle| <= |e.idle|
            && (forall d :: d in idle ==> d in e.idle)
            && (rest != [] ==> rest[0] in e.idle && rest[0] !in idle)
  {
    var k := DropDeadSplits(e.idle, alive);
    hide DropDead, NoRepeats;
    if k < |e.idle| {
      assert e.idle[k..][1..] == e.idle[k + 1..];
      AfterFirst(e.idle, k);
    } else {
      EmptyHasNoRepeats();
    }
  }

  lemma AfterFirst(s: seq<nat>, k: nat)
    requires NoRepeats(s) && k < |s|
    ensures NoRepeats(s[k + 1..]) && s[k] !in s[k + 1..]
    ensures forall d :: d in s[k + 1..] ==> d in s
  {
  }

  lemma {:induction false} DropDeadKeepsLast(idle: seq<nat>, conn: nat, alive: set<nat>)
    requires conn in alive
    ensures DropDead(idle + [conn], alive) == DropDead(idle, alive) + [conn]
    decreases |idle|
  {
    if idle == [] {
      assert idle + [conn] == [conn];
    } else {
      assert (idle + [conn])[1..] == idle[1..] + [conn];
      DropDeadKeepsLast(idle[1..], conn, alive);
    }
  }

  /** A connection given back alive waits behind those already idle and is handed out
      again in its turn, unless the queue is full; a release undoes an acquire in the
      count. */
  lemma ReleasedComesBack(e: Entry, conn: nat, maxIdle: nat, alive: set<nat>)
    requires conn in alive && e.active > 0
    ensures var released := ReleaseEntry(e, conn, maxIdle);
            && DropDead(released.idle, alive) == DropDead(e.idle, alive) + (if |e.idle| < maxIdle then [conn] else [])
            && AcquireEntry(released, alive).active == e.active
  {
    DropDeadKeepsLast(e.idle, conn, alive);
    assert DropDead(e.idle, alive) + [] == DropDead(e.idle, alive);
  }

  lemma AcquireKeeps(w: World, t: nat, key: string, alive: set<nat>)
    requires Inv(w) && t < |w.callers| && w.callers[t].Away?
    ensures Inv(Acquired(w, t, key, alive))
  {
    hide Accounted, Capped, NoRepeats, DropDead;
    var e := EntryOf(w.pools, key);
    assert NoRepeats(e.idle) by { EmptyHasNoRepeats(); }
    hide OnePlace;
    var v := Acquired(w, t, key, alive);
    AcquireTakes(e, alive);
    AccountedStep(w, t, v.callers[t], key, v.pools[key], v);
    TakenOnePlace(w, t, key, v.pools[key], v.callers[t], v);
  }

  lemma EmptyHasNoRepeats()
    ensures NoRepeats([])
  {
  }

  lemma ConnectedKeeps(w: World, t: nat, v: World)
    requires Inv(w) && t < |w.callers| && w.callers[t].Connecting?
    requires v == w.(callers := w.callers[t := Holding(w.callers[t].key, w.nextConn)], nextConn := w.nextConn + 1)
    ensures Inv(v)
  {
    var key := w.callers[t].key;
    assert w.pools[key := w.pools[key]] == w.pools;
    AccountedStep(w, t, v.callers[t], key, w.pools[key], v);
  }

  lemma GivenUpKeeps(w: World, t: nat)
    requires Inv(w) && t < |w.callers| && !w.callers[t].Away?
    ensures Inv(GivenUp(w, t, w.callers[t].key))
  {
    var key := w.callers[t].key;
    GuardsNeverBite(w, t);
    var v := GivenUp(w, t, key);
    AccountedStep(w, t, Away, key, v.pools[key], v);
  }

  lemma ReleaseKeeps(w: World, t: nat)
    requires Inv(w) && Enabled(w, Release(t))
    ensures Inv(After(w, Release(t)))
  {
    hide Accounted;
    var key := w.callers[t].key;
    GuardsNeverBite(w, t);
    var v := After(w, Release(t));
    AccountedStep(w, t, Away, key, v.pools[key], v);
  }

  lemma CleanupKeeps(w: World, expired: set<nat>)
    requires Inv(w)
    ensures Inv(w.(pools := Cleaned(w.pools, expired)))
  {
    forall key | key in w.pools
      ensures var old', new' := w.pools[key].idle, Fresh(w.pools[key].idle, expired);
              && (forall c :: c in new' ==> c in old') && (NoRepeats(old') ==> NoRepeats(new')) && |new'| <= |old'|
    {
      FreshIs(w.pools[key].idle, expired);
    }
  }

  lemma StepKeepsInv(w: World, a: Action)
    requires Inv(w) && Enabled(w, a)
    ensures Inv(After(w, a))
  {
    hide Inv, Acquired, GivenUp;
    match a
    case Acquire(t, key, alive) => AcquireKeeps(w, t, key, alive);
    case Connected(t) => ConnectedKeeps(w, t, After(w, a));
    case ConnectFailed(t) => GivenUpKeeps(w, t);
    case Release(t) => ReleaseKeeps(w, t);
    case Evict(t) => GivenUpKeeps(w, t);
    case Cleanup(expired) => CleanupKeeps(w, expired);
  }

  // ---- every run ----

  ghost predicate Next(w: World, v: World) {
    exists a :: Enabled(w, a) && v == After(w, a)
  }

  ghost predicate IsRun(states: seq<World>) {
    && states != []
    && (exists callers, maxIdle :: states[0] == Start(callers, maxIdle))
    && forall n :: 0 <= n < |states| - 1 ==> Next(states[n], states[n + 1])
  }

  /** However the callers interleave: the count of a backend is the number of callers
      connecting to it or holding one of its connections, every connection is idle in
      one queue or held by one caller and never both, and no queue exceeds the cap. */
  lemma {:induction false} EveryRunAccounted(states: seq<World>, n: nat)
    requires IsRun(states) && n < |states|
    ensures Accounted(states[n]) && OnePlace(states[n]) && Capped(states[n])
    decreases n
  {
    hide After, Enabled;
    if n == 0 {
      assert Inv(states[0]);
    } else {
      EveryRunAccounted(states, n - 1);
      assert Next(states[n - 1], states[n]);
      var a :| Enabled(states[n - 1], a) && states[n] == After(states[n - 1], a);
      StepKeepsInv(states[n - 1], a);
    }
  }
}
