/** The timer: a binary heap of entries ordered by deadline, with cancellation that only
    flags an entry and periodic entries that are put back when they fire. Times are in
    nanoseconds, delays and intervals in milliseconds. */
module Timers {
  import opened Numbers
  import opened Options

  /** `callback` is emptied when the entry is cancelled. */
  datatype Entry = Entry(id: nat, expire: int, interval: int, callback: Option<nat>, cancelled: bool)

  // ---- heaps ----

  function Parent(i: nat): nat
    requires i > 0
  {
    (i - 1) / 2
  }

  predicate Ordered(h: seq<Entry>) {
    forall i :: 0 < i < |h| ==> h[Parent(i)].expire <= h[i].expire
  }

  predicate DistinctIds(h: seq<Entry>) {
    forall i, j :: 0 <= i < j < |h| ==> h[i].id != h[j].id
  }

  function Elems(h: seq<Entry>): set<Entry> {
    set e | e in h
  }

  function Swapped(h: seq<Entry>, i: nat, j: nat): (s: seq<Entry>)
    requires i < |h| && j < |h|
    ensures |s| == |h|
  {
    h[i := h[j]][j := h[i]]
  }

  lemma SwapKeeps(h: seq<Entry>, i: nat, j: nat)
    requires i < |h| && j < |h| && DistinctIds(h)
    ensures DistinctIds(Swapped(h, i, j)) && Elems(Swapped(h, i, j)) == Elems(h)
  {
    var s := Swapped(h, i, j);
    forall e ensures e in Elems(s) <==> e in Elems(h) {
      if e in Elems(h) {
        var k :| 0 <= k < |h| && h[k] == e;
        assert s[if k == i then j else if k == j then i else k] == e;
      }
    }
  }

  /** The root of a heap is the earliest entry. */
  lemma {:induction false} RootEarliest(h: seq<Entry>, i: nat)
    requires Ordered(h) && i < |h|
    ensures h[0].expire <= h[i].expire
    decreases i
  {
    if i > 0 {
      RootEarliest(h, Parent(i));
    }
  }

  /** In order except that entry i may be too early for its place. */
  predicate Rising(h: seq<Entry>, i: nat) {
    && i < |h|
    && (forall k :: 0 < k < |h| && k != i ==> h[Parent(k)].expire <= h[k].expire)
    && (forall k :: 0 < k < |h| && i > 0 && Parent(k) == i ==> h[Parent(i)].expire <= h[k].expire)
  }

  lemma RiseStep(h: seq<Entry>, i: nat)
    requires Rising(h, i) && i > 0 && h[Parent(i)].expire > h[i].expire
    ensures Rising(Swapped(h, i, Parent(i)), Parent(i))
  {
    var p, s := Parent(i), Swapped(h, i, Parent(i));
    forall k | 0 < k < |s| && k != p
      ensures s[Parent(k)].expire <= s[k].expire
    {
      assert k != i ==> h[Parent(k)].expire <= h[k].expire;
    }
    forall k | 0 < k < |s| && p > 0 && Parent(k) == p
      ensures s[Parent(p)].expire <= s[k].expire
    {
      assert h[Parent(p)].expire <= h[p].expire;
      assert k != i ==> h[Parent(k)].expire <= h[k].expire;
    }
  }

  /** In order except that entry i may be too late for its place. */
  predicate Sinking(h: seq<Entry>, i: nat) {
    && (forall k :: 0 < k < |h| && Parent(k) != i ==> h[Parent(k)].expire <= h[k].expire)
    && (forall k :: 0 < k < |h| && 0 < i < |h| && Parent(k) == i ==> h[Parent(i)].expire <= h[k].expire)
  }

  lemma SinkStep(h: seq<Entry>, i: nat, child: nat)
    requires Sinking(h, i) && i < |h| && 0 < child < |h| && Parent(child) == i
    requires h[i].expire > h[child].expire
    requires forall k :: 0 < k < |h| && Parent(k) == i ==> h[child].expire <= h[k].expire
    ensures Sinking(Swapped(h, i, child), child)
  {
    var s := Swapped(h, i, child);
    forall k | 0 < k < |s| && Parent(k) != child
      ensures s[Parent(k)].expire <= s[k].expire
    {
      assert Parent(k) != i ==> h[Parent(k)].expire <= h[k].expire;
      assert k == i ==> h[Parent(i)].expire <= h[child].expire;
    }
    forall k | 0 < k < |s| && Parent(k) == child
      ensures s[Parent(child)].expire <= s[k].expire
    {
      assert h[Parent(k)].expire <= h[k].expire;
    }
  }

  /** `std::push_heap`: the last entry rises to its place. */
  method PushHeap(h: seq<Entry>) returns (r: seq<Entry>)
    requires h != [] && Ordered(h[..|h| - 1]) && DistinctIds(h)
    ensures |r| == |h| && Ordered(r) && DistinctIds(r) && Elems(r) == Elems(h)
  {
    hide DistinctIds, Elems, Swapped;
    r := h;
    var i: nat := |h| - 1;
    StartsRising(h);
    while i > 0 && r[Parent(i)].expire > r[i].expire
      invariant |r| == |h| && DistinctIds(r) && Elems(r) == Elems(h)
      invariant Rising(r, i)
    {
      SwapKeeps(r, i, Parent(i));
      RiseStep(r, i);
      r := Swapped(r, i, Parent(i));
      i := Parent(i);
    }
  }

  lemma StartsRising(h: seq<Entry>)
    requires h != [] && Ordered(h[..|h| - 1])
    ensures Rising(h, |h| - 1)
  {
    var t := h[..|h| - 1];
    forall k | 0 < k < |h| && k != |h| - 1 ensures h[Parent(k)].expire <= h[k].expire {
      assert t[Parent(k)].expire <= t[k].expire;
    }
  }

  /** `std::pop_heap` and `pop_back`: the root leaves, the last entry sinks. */
  method PopHeap(h: seq<Entry>) returns (root: Entry, r: seq<Entry>)
    requires h != [] && Ordered(h) && DistinctIds(h)
    ensures root == h[0] && |r| == |h| - 1
    ensures Ordered(r) && DistinctIds(r) && Elems(r) == Elems(h) - {root}
  {
    hide DistinctIds, Elems, Swapped, Sinking, Ordered;
    root := h[0];
    var n := |h| - 1;
    SwapKeeps(h, 0, n);
    r := Swapped(h, 0, n)[..n];
    StartsSinking(h);
    var i: nat := 0;
    while 2 * i + 1 < n
      invariant |r| == n && DistinctIds(r) && Elems(r) == Elems(h) - {root}
      invariant Sinking(r, i)
      decreases n - i
    {
      var child := 2 * i + 1;
      if child + 1 < n && r[child + 1].expire < r[child].expire {
        child := child + 1;
      }
      SmallestChild(r, i, child);
      if r[i].expire <= r[child].expire {
        Sunk(r, i);
        return;
      }
      SwapKeeps(r, i, child);
      SinkStep(r, i, child);
      r := Swapped(r, i, child);
      i := child;
    }
    Sunk(r, i);
  }

  lemma SmallestChild(h: seq<Entry>, i: nat, child: nat)
    requires child < |h| && (child == 2 * i + 1 || child == 2 * i + 2)
    requires 2 * i + 1 < |h| ==> h[child].expire <= h[2 * i + 1].expire
    requires 2 * i + 2 < |h| ==> h[child].expire <= h[2 * i + 2].expire
    ensures Parent(child) == i
    ensures forall k :: 0 < k < |h| && Parent(k) == i ==> h[child].expire <= h[k].expire
  {
    forall k | 0 < k < |h| && Parent(k) == i ensures h[child].expire <= h[k].expire {
      assert k == 2 * i + 1 || k == 2 * i + 2;
    }
  }

  lemma StartsSinking(h: seq<Entry>)
    requires h != [] && Ordered(h) && DistinctIds(h)
    ensures var n := |h| - 1;
            var s := Swapped(h, 0, n);
            |s| == |h| && Sinking(s[..n], 0) && DistinctIds(s[..n]) && Elems(s[..n]) == Elems(h) - {h[0]}
  {
    var n := |h| - 1;
    var s := Swapped(h, 0, n);
    SwapKeeps(h, 0, n);
    DropLast(s);
    forall k | 0 < k < n && Parent(k) != 0 ensures s[..n][Parent(k)].expire <= s[..n][k].expire {
      assert h[Parent(k)].expire <= h[k].expire;
    }
  }

  lemma Sunk(h: seq<Entry>, i: nat)
    requires Sinking(h, i)
    requires forall k :: 0 < k < |h| && Parent(k) == i ==> h[i].expire <= h[k].expire
    ensures Ordered(h)
  {
  }

  lemma DropLast(s: seq<Entry>)
    requires s != [] && DistinctIds(s)
    ensures DistinctIds(s[..|s| - 1]) && Elems(s[..|s| - 1]) == Elems(s) - {s[|s| - 1]}
  {
    var n := |s| - 1;
    forall e ensures e in Elems(s[..n]) <==> e in Elems(s) - {s[n]} {
      if e in Elems(s) && e != s[n] {
        var k :| 0 <= k < |s| && s[k] == e;
        assert s[..n][k] == e;
      }
      if e in s[..n] {
        var k :| 0 <= k < n && s[..n][k] == e;
        assert s[k].id != s[n].id;
      }
    }
  }

  // ---- what a tick does, on the set of entries ----

  function Rearmed(e: Entry, now: int): Entry {
    e.(expire := now + e.interval * MS, cancelled := false)
  }

  predicate Fires(e: Entry, now: int) {
    e.expire <= now && !e.cancelled
  }

  /** Entries not yet due stay, periodic entries that fired come back, all others go. */
  function AfterTick(all: set<Entry>, now: int): set<Entry> {
    (set e | e in all && e.expire > now)
    + (set e | e in all && Fires(e, now) && e.interval > 0 :: Rearmed(e, now))
  }

  /** Cancelling flags the entry and takes its callback away. */
  function AfterCancel(all: set<Entry>, id: nat): set<Entry> {
    set e | e in all :: if e.id == id then e.(cancelled := true, callback := None) else e
  }

  predicate ByDeadline(fired: seq<Entry>) {
    forall i, j :: 0 <= i < j < |fired| ==> fired[i].expire <= fired[j].expire
  }

  function Callbacks(fired: seq<Entry>): seq<Option<nat>> {
    seq(|fired|, i requires 0 <= i < |fired| => fired[i].callback)
  }

  lemma CallbacksHave(fired: seq<Entry>)
    ensures forall e :: e in Elems(fired) ==> e.callback in Callbacks(fired)
  {
    forall e | e in Elems(fired)
      ensures e.callback in Callbacks(fired)
    {
      var i :| 0 <= i < |fired| && fired[i] == e;
      assert Callbacks(fired)[i] == e.callback;
    }
  }

  /** Part way through a tick: `done` has left the heap, the live ones of it have fired. */
  ghost predicate Ticking(all: set<Entry>, now: int, done: set<Entry>, fired: seq<Entry>, left: set<Entry>) {
    && done <= all
    && (forall e :: e in done ==> e.expire <= now)
    && Elems(fired) == (set e | e in done && !e.cancelled)
    && DistinctIds(fired)
    && ByDeadline(fired)
    && (forall f, e :: f in fired && e in all - done ==> f.expire <= e.expire)
    && left == (all - done) + (set e | e in done && !e.cancelled && e.interval > 0 :: Rearmed(e, now))
  }

  lemma TickingRoot(all: set<Entry>, now: int, done: set<Entry>, fired: seq<Entry>, left: set<Entry>, root: Entry)
    requires Ticking(all, now, done, fired, left) && root in left && root.expire <= now
    ensures root in all - done
  {
  }

  predicate UniqueIds(all: set<Entry>) {
    forall e, f :: e in all && f in all && e != f ==> e.id != f.id
  }

  lemma FiredNext(all: set<Entry>, done: set<Entry>, fired: seq<Entry>, root: Entry)
    requires UniqueIds(all) && done <= all && root in all - done && !root.cancelled
    requires Elems(fired) == (set e | e in done && !e.cancelled) && DistinctIds(fired) && ByDeadline(fired)
    requires forall f :: f in fired ==> f.expire <= root.expire
    ensures Elems(fired + [root]) == (set e | e in done + {root} && !e.cancelled)
    ensures DistinctIds(fired + [root]) && ByDeadline(fired + [root])
  {
    assert Elems(fired + [root]) == Elems(fired) + {root};
    forall i | 0 <= i < |fired| ensures fired[i].id != root.id && fired[i].expire <= root.expire {
      assert fired[i] in Elems(fired);
    }
  }

  lemma TickingStep(all: set<Entry>, now: int, done: set<Entry>, fired: seq<Entry>, left: set<Entry>, root: Entry)
    requires Ticking(all, now, done, fired, left) && UniqueIds(all)
    requires root in all - done && root.expire <= now
    requires forall e :: e in left ==> root.expire <= e.expire
    ensures var fired' := if root.cancelled then fired else fired + [root];
            var back := if root.cancelled || root.interval <= 0 then {} else {Rearmed(root, now)};
            Ticking(all, now, done + {root}, fired', (left - {root}) + back)
  {
    hide Elems, DistinctIds, ByDeadline, UniqueIds;
    var done' := done + {root};
    RootOnce(all, now, done, fired, left, root);
    if root.cancelled {
      assert (set e | e in done' && !e.cancelled) == (set e | e in done && !e.cancelled);
    } else {
      FiredNext(all, done, fired, root);
      forall f, e | f in fired + [root] && e in all - done' ensures f.expire <= e.expire {
        assert e in left && (f in fired || f == root);
      }
    }
  }

  /** An entry about to be taken is not at the same time a re-armed one. */
  lemma RootOnce(all: set<Entry>, now: int, done: set<Entry>, fired: seq<Entry>, left: set<Entry>, root: Entry)
    requires Ticking(all, now, done, fired, left)
    requires root in all - done && root.expire <= now
    ensures var back := if root.cancelled || root.interval <= 0 then {} else {Rearmed(root, now)};
            var again := set e | e in done + {root} && !e.cancelled && e.interval > 0 :: Rearmed(e, now);
            (left - {root}) + back == (all - (done + {root})) + again
  {
    var back := if root.cancelled || root.interval <= 0 then {} else {Rearmed(root, now)};
    var before := set e | e in done && !e.cancelled && e.interval > 0 :: Rearmed(e, now);
    var after := set e | e in done + {root} && !e.cancelled && e.interval > 0 :: Rearmed(e, now);
    assert after == before + back;
    assert root !in before;
  }

  lemma TickingDone(all: set<Entry>, now: int, done: set<Entry>, fired: seq<Entry>, left: set<Entry>)
    requires Ticking(all, now, done, fired, left) && forall e :: e in left ==> e.expire > now
    ensures left == AfterTick(all, now)
    ensures Elems(fired) == set e | e in all && Fires(e, now)
  {
    assert done == set e | e in all && e.expire <= now;
    assert (set e | e in done && !e.cancelled && e.interval > 0 :: Rearmed(e, now))
        == (set e | e in all && Fires(e, now) && e.interval > 0 :: Rearmed(e, now));
  }

  // ---- the object ----

  lemma IdsInSet(h: seq<Entry>)
    requires DistinctIds(h)
    ensures UniqueIds(Elems(h))
  {
  }

  lemma IdFree(h: seq<Entry>, root: Entry, rest: seq<Entry>, again: Entry)
    requires DistinctIds(h) && DistinctIds(rest) && root in h && Elems(rest) == Elems(h) - {root} && again.id == root.id
    ensures DistinctIds(rest + [again]) && Elems(rest + [again]) == Elems(rest) + {again}
  {
    forall i | 0 <= i < |rest| ensures rest[i].id != root.id {
      assert rest[i] in Elems(rest);
    }
  }

  lemma TickStart(h: seq<Entry>, now: int)
    requires DistinctIds(h)
    ensures UniqueIds(Elems(h)) && Ticking(Elems(h), now, {}, [], Elems(h))
  {
    IdsInSet(h);
    var none: set<Entry> := {};
    assert (set e | e in none && !e.cancelled && e.interval > 0 :: Rearmed(e, now)) == {};
  }

  lemma TickTakes(all: set<Entry>, now: int, done: set<Entry>, fired: seq<Entry>, h: seq<Entry>,
                  root: Entry, left: set<Entry>)
    requires UniqueIds(all) && Ticking(all, now, done, fired, Elems(h)) && Ordered(h)
    requires h != [] && root == h[0] && root.expire <= now && left == Elems(h) - {root}
    ensures root in all && root !in done && root in h
    ensures root.cancelled ==> Ticking(all, now, done + {root}, fired, left)
    ensures !root.cancelled && root.interval <= 0 ==> Ticking(all, now, done + {root}, fired + [root], left)
    ensures !root.cancelled && root.interval > 0 ==>
              Ticking(all, now, done + {root}, fired + [root], left + {Rearmed(root, now)})
  {
    hide Ticking, UniqueIds;
    TickingRoot(all, now, done, fired, Elems(h), root);
    forall e | e in Elems(h) ensures root.expire <= e.expire {
      var i :| 0 <= i < |h| && h[i] == e;
      RootEarliest(h, i);
    }
    TickingStep(all, now, done, fired, Elems(h), root);
    assert left + {} == left;
  }

  lemma TickEnds(all: set<Entry>, now: int, done: set<Entry>, fired: seq<Entry>, h: seq<Entry>)
    requires Ticking(all, now, done, fired, Elems(h)) && Ordered(h)
    requires h == [] || h[0].expire > now
    ensures Elems(h) == AfterTick(all, now)
    ensures Elems(fired) == (set e | e in all && Fires(e, now)) && DistinctIds(fired) && ByDeadline(fired)
    ensures forall e :: e in Elems(h) ==> e.expire > now
  {
    forall e | e in Elems(h) ensures e.expire > now {
      var i :| 0 <= i < |h| && h[i] == e;
      RootEarliest(h, i);
    }
    TickingDone(all, now, done, fired, Elems(h));
  }

  class Timer {
    var heap: seq<Entry>
    var nextId: nat

    ghost predicate Valid()
      reads this
    {
      && Ordered(heap) && DistinctIds(heap)
      && (forall e :: e in Elems(heap) ==> e.id < nextId && (e.cancelled ==> e.callback == None))
    }

    constructor ()
      ensures Valid() && heap == []
    {
      heap, nextId := [], 1;
    }

    /** `run_after` (interval 0) and `run_every`. */
    method Schedule(now: int, delay: int, interval: int, callback: Option<nat>) returns (id: nat)
      requires Valid()
      modifies this
      ensures Valid() && nextId == id + 1
      ensures forall e :: e in old(Elems(heap)) ==> e.id != id
      ensures Elems(heap) == old(Elems(heap)) + {Entry(id, now + delay * MS, interval, callback, false)}
    {
      id := nextId;
      nextId := nextId + 1;
      var entry := Entry(id, now + delay * MS, interval, callback, false);
      var h := heap + [entry];
      assert h[..|h| - 1] == heap;
      assert DistinctIds(h) by {
        assert forall i :: 0 <= i < |heap| ==> heap[i] in Elems(heap);
      }
      assert Elems(h) == Elems(heap) + {entry};
      heap := PushHeap(h);
    }

    /** Only the flag and the callback change; the entry stays where it is. */
    method Cancel(id: nat)
      requires Valid()
      modifies this`heap
      ensures Valid() && |heap| == |old(heap)|
      ensures forall i :: 0 <= i < |heap| ==>
                heap[i] == if old(heap)[i].id == id then old(heap)[i].(cancelled := true, callback := None)
                           else old(heap)[i]
      ensures Elems(heap) == AfterCancel(old(Elems(heap)), id)
    {
      var i := 0;
      while i < |heap|
        invariant 0 <= i <= |heap| && heap == old(heap)
        invariant forall j :: 0 <= j < i ==> heap[j].id != id
      {
        if heap[i].id == id {
          heap := heap[i := heap[i].(cancelled := true, callback := None)];
          assert forall k :: 0 <= k < |heap| ==> heap[k].expire == old(heap)[k].expire && heap[k].id == old(heap)[k].id;
          assert forall k :: 0 <= k < |heap| ==> old(heap)[k] in Elems(old(heap));
          return;
        }
        i := i + 1;
      }
    }

    /** Every live entry that is due fires exactly once and in order of deadline, nothing
        cancelled fires, periodic entries are put back once, and nothing due remains. */
    method Tick(now: int) returns (ready: seq<Option<nat>>, ghost fired: seq<Entry>)
      requires Valid()
      modifies this`heap
      ensures Valid()
      ensures Elems(fired) == set e | e in old(Elems(heap)) && Fires(e, now)
      ensures DistinctIds(fired) && ByDeadline(fired) && ready == Callbacks(fired)
      ensures forall e :: e in old(Elems(heap)) && Fires(e, now) ==> e.callback in ready
      ensures Elems(heap) == AfterTick(old(Elems(heap)), now)
      ensures forall e :: e in Elems(heap) ==> e.expire > now
    {
      hide Elems, DistinctIds, Ticking, UniqueIds, ByDeadline, AfterTick;
      ready, fired := [], [];
      ghost var all, done := Elems(heap), {};
      TickStart(heap, now);
      while heap != []
        invariant Valid() && UniqueIds(all) && ready == Callbacks(fired)
        invariant Ticking(all, now, done, fired, Elems(heap))
        decreases all - done
      {
        if heap[0].expire > now {
          break;
        }
        var root, rest := PopHeap(heap);
        TickTakes(all, now, done, fired, heap, root, Elems(rest));
        done := done + {root};
        if root.cancelled {
          heap := rest;
        } else {
          if root.interval > 0 {
            var again := Rearmed(root, now);
            IdFree(heap, root, rest, again);
            assert (rest + [again])[..|rest|] == rest;
            heap := PushHeap(rest + [again]);
          } else {
            heap := rest;
          }
          ready := ready + [root.callback];
          fired := fired + [root];
        }
      }
      TickEnds(all, now, done, fired, heap);
      CallbacksHave(fired);
    }

    /** `next_timeout_ms`: the scan goes in array order, not in order of deadline. */
    method NextTimeoutMs(now: int) returns (r: int)
      ensures r == -1 <==> forall i: nat :: i < |heap| ==> !Live(heap, i)
      ensures r != -1 ==> exists i: nat :: FirstLive(heap, i) && r == RemainingMs(heap[i], now)
    {
      for i: nat := 0 to |heap|
        invariant forall j: nat :: j < i ==> !Live(heap, j)
      {
        if !heap[i].cancelled {
          assert FirstLive(heap, i);
          return RemainingMs(heap[i], now);
        }
      }
      return -1;
    }
  }

  // ---- the timeout for the event loop ----

  /** `duration_cast` to milliseconds of a remaining time, and never below zero. Cutting
      towards zero and rounding down differ only for negative times. */
  function RemainingMs(e: Entry, now: int): (r: nat)
    ensures e.expire >= now ==> r * MS <= e.expire - now < (r + 1) * MS
    ensures e.expire < now ==> r == 0
  {
    Max0((e.expire - now) / MS)
  }

  predicate Live(h: seq<Entry>, i: nat) {
    i < |h| && !h[i].cancelled
  }

  predicate FirstLive(h: seq<Entry>, i: nat) {
    Live(h, i) && forall j :: 0 <= j < i ==> !Live(h, j)
  }

  predicate EarliestLive(h: seq<Entry>, k: nat) {
    Live(h, k) && forall j :: 0 <= j < |h| && Live(h, j) ==> h[k].expire <= h[j].expire
  }

  /** The timeout is never shorter than the time to the earliest live deadline. */
  lemma NeverUndershoots(h: seq<Entry>, now: int, i: nat, k: nat)
    requires FirstLive(h, i) && EarliestLive(h, k)
    ensures RemainingMs(h[k], now) <= RemainingMs(h[i], now)
  {
    DivMonotone(h[k].expire - now, h[i].expire - now);
  }

  lemma DivMonotone(a: int, b: int)
    requires a <= b
    ensures a / MS <= b / MS
  {
  }

  /** Index i lies on the way from index k to the root. */
  predicate Above(i: nat, k: nat) {
    i == k || (k > 0 && Above(i, Parent(k)))
  }

  lemma {:induction false} AboveEarlier(h: seq<Entry>, i: nat, k: nat)
    requires Ordered(h) && k < |h| && Above(i, k)
    ensures i <= k && h[i].expire <= h[k].expire
    decreases k
  {
    if i != k {
      AboveEarlier(h, i, Parent(k));
    }
  }

  lemma {:induction false} RootAbove(k: nat)
    ensures Above(0, k)
    decreases k
  {
    if k > 0 {
      RootAbove(Parent(k));
    }
  }

  /** A heap whose cancelled entries are exactly those that `flags` marks. */
  predicate Flagged(h: seq<Entry>, flags: seq<bool>) {
    Ordered(h) && |h| == |flags| && forall i :: 0 <= i < |h| ==> h[i].cancelled == flags[i]
  }

  ghost predicate ExactFor(h: seq<Entry>, i: nat)
    requires i < |h|
  {
    forall now: int, k: nat | EarliestLive(h, k) :: RemainingMs(h[i], now) == RemainingMs(h[k], now)
  }

  /** Deadlines that are zero on the way from k to the root and later everywhere else. */
  function Spoiler(flags: seq<bool>, k: nat): seq<Entry> {
    seq(|flags|, j requires 0 <= j < |flags| => Entry(j, if Above(j, k) then 0 else MS, 0, None, flags[j]))
  }

  lemma SpoilerFlagged(flags: seq<bool>, k: nat)
    ensures Flagged(Spoiler(flags, k), flags)
  {
    var h := Spoiler(flags, k);
    forall j | 0 < j < |h| ensures h[Parent(j)].expire <= h[j].expire {
      if Above(j, k) {
        AboveParent(j, k);
      }
    }
  }

  lemma {:induction false} AboveParent(j: nat, k: nat)
    requires j > 0 && Above(j, k)
    ensures Above(Parent(j), k)
    decreases k
  {
    if j != k {
      AboveParent(j, Parent(k));
    }
  }

  /** When the timeout is exact. The deadlines are not the caller's to know, the flags
      are: the scan returns the time to the earliest live deadline on every heap with
      these flags if and only if the first live entry sits above all other live ones.
      A live root is the common case. */
  lemma ExactIffFirstLiveAbove(flags: seq<bool>, i: nat)
    requires i < |flags| && !flags[i] && forall j :: 0 <= j < i ==> flags[j]
    ensures (forall h :: Flagged(h, flags) ==> ExactFor(h, i))
       <==> (forall k :: 0 <= k < |flags| && !flags[k] ==> Above(i, k))
  {
    if k :| 0 <= k < |flags| && !flags[k] && !Above(i, k) {
      var h := Spoiler(flags, k);
      SpoilerFlagged(flags, k);
      assert Above(k, k) && EarliestLive(h, k);
      assert RemainingMs(h[i], 0) != RemainingMs(h[k], 0);
    } else {
      forall h | Flagged(h, flags) ensures ExactFor(h, i) {
        forall now: int, k: nat | EarliestLive(h, k) ensures RemainingMs(h[i], now) == RemainingMs(h[k], now) {
          AboveEarlier(h, i, k);
          assert Live(h, i);
        }
      }
    }
  }

  lemma LiveRootIsExact(h: seq<Entry>)
    requires Ordered(h) && h != [] && !h[0].cancelled
    ensures ExactFor(h, 0)
  {
    var flags := seq(|h|, j requires 0 <= j < |h| => h[j].cancelled);
    forall k: nat ensures Above(0, k) { RootAbove(k); }
    ExactIffFirstLiveAbove(flags, 0);
    assert Flagged(h, flags);
  }

  // ---- timers over many operations ----

  /** What can happen to a timer; `Add` stands for both ways of scheduling. */
  datatype Op = TickAt(now: int) | CancelId(id: nat) | Add(entry: Entry)

  predicate CanAdd(all: set<Entry>, e: Entry) {
    forall f :: f in all ==> f.id != e.id
  }

  function AfterOp(all: set<Entry>, op: Op): set<Entry> {
    match op
    case TickAt(now) => AfterTick(all, now)
    case CancelId(id) => AfterCancel(all, id)
    case Add(e) => all + {e}
  }

  function AfterOps(all: set<Entry>, ops: seq<Op>): set<Entry>
    decreases |ops|
  {
    if ops == [] then all else AfterOps(AfterOp(all, ops[0]), ops[1..])
  }

  /** Every entry added has a new id. */
  predicate Possible(all: set<Entry>, ops: seq<Op>)
    decreases |ops|
  {
    ops == [] || ((ops[0].Add? ==> CanAdd(all, ops[0].entry)) && Possible(AfterOp(all, ops[0]), ops[1..]))
  }

  /** Some entry with this id fires at one of the ticks. */
  ghost predicate IdFires(all: set<Entry>, ops: seq<Op>, id: nat)
    decreases |ops|
  {
    ops != [] &&
    ((ops[0].TickAt? && exists f :: f in all && f.id == id && Fires(f, ops[0].now)) ||
     IdFires(AfterOp(all, ops[0]), ops[1..], id))
  }

  /** No tick as late as `deadline`, and this id is not cancelled. */
  predicate Quiet(ops: seq<Op>, id: nat, deadline: int) {
    forall i :: 0 <= i < |ops| ==> ops[i] != CancelId(id) && (ops[i].TickAt? ==> ops[i].now < deadline)
  }

  lemma TickKeepsIds(all: set<Entry>, now: int)
    requires UniqueIds(all)
    ensures UniqueIds(AfterTick(all, now))
  {
    forall e, f | e in AfterTick(all, now) && f in AfterTick(all, now) && e != f ensures e.id != f.id {
      var e0 :| e0 in all && (e == e0 || e == Rearmed(e0, now));
      var f0 :| f0 in all && (f == f0 || f == Rearmed(f0, now));
    }
  }

  lemma OpKeepsIds(all: set<Entry>, op: Op)
    requires UniqueIds(all) && (op.Add? ==> CanAdd(all, op.entry))
    ensures UniqueIds(AfterOp(all, op))
  {
    if op.TickAt? {
      TickKeepsIds(all, op.now);
    }
  }

  /** An entry stays until its deadline has come, and does not fire before. */
  lemma {:induction false} StaysUntilDue(all: set<Entry>, e: Entry, ops: seq<Op>)
    requires UniqueIds(all) && e in all && Possible(all, ops) && Quiet(ops, e.id, e.expire)
    ensures e in AfterOps(all, ops) && UniqueIds(AfterOps(all, ops)) && !IdFires(all, ops, e.id)
    decreases |ops|
  {
    if ops != [] {
      OpKeepsIds(all, ops[0]);
      assert ops[0] != CancelId(e.id) && (ops[0].TickAt? ==> ops[0].now < e.expire);
      StaysUntilDue(AfterOp(all, ops[0]), e, ops[1..]);
    }
  }

  /** No timer fires before its deadline, however often the timer ticks. */
  lemma NotBeforeDeadline(all: set<Entry>, e: Entry, ops: seq<Op>)
    requires UniqueIds(all) && e in all && Possible(all, ops) && Quiet(ops, e.id, e.expire)
    ensures !IdFires(all, ops, e.id)
  {
    StaysUntilDue(all, e, ops);
  }

  /** And every live one fires at the first tick that is not before its deadline, with the
      callback it was given, and only it under its id. */
  lemma FiresWhenDue(all: set<Entry>, e: Entry, ops: seq<Op>, now: int)
    requires UniqueIds(all) && e in all && !e.cancelled && Possible(all, ops) && Quiet(ops, e.id, e.expire)
    requires now >= e.expire
    ensures forall f :: f in AfterOps(all, ops) && f.id == e.id ==> f == e
    ensures e in AfterOps(all, ops) && Fires(e, now)
  {
    StaysUntilDue(all, e, ops);
  }

  /** A periodic timer that fires does not fire again before its interval has passed, and
      fires at the first tick after that, with the same callback and interval. */
  lemma PeriodicFiresAgain(all: set<Entry>, e: Entry, now: int, ops: seq<Op>, next: int)
    requires UniqueIds(all) && e in all && Fires(e, now) && e.interval > 0
    requires Possible(AfterTick(all, now), ops) && Quiet(ops, e.id, now + e.interval * MS)
    ensures !IdFires(AfterTick(all, now), ops, e.id)
    ensures exists f :: f in AfterOps(AfterTick(all, now), ops) && f.id == e.id &&
                        f.callback == e.callback && f.interval == e.interval &&
                        (Fires(f, next) <==> next >= now + e.interval * MS)
  {
    TickKeepsIds(all, now);
    StaysUntilDue(AfterTick(all, now), Rearmed(e, now), ops);
  }

  /** One that is not periodic does not fire again. */
  lemma OneShotIsGone(all: set<Entry>, e: Entry, now: int, ops: seq<Op>)
    requires UniqueIds(all) && e in all && Fires(e, now) && e.interval <= 0
    requires forall i :: 0 <= i < |ops| && ops[i].Add? ==> ops[i].entry.id != e.id
    ensures !IdFires(AfterTick(all, now), ops, e.id)
  {
    forall f | f in AfterTick(all, now)
      ensures f.id != e.id
    {
      var f0 :| f0 in all && (f == f0 || f == Rearmed(f0, now));
    }
    NoEntryNoFire(AfterTick(all, now), e.id, ops);
  }

  lemma {:induction false} NoEntryNoFire(all: set<Entry>, id: nat, ops: seq<Op>)
    requires forall e :: e in all && e.id == id ==> e.cancelled
    requires forall i :: 0 <= i < |ops| && ops[i].Add? ==> ops[i].entry.id != id
    ensures !IdFires(all, ops, id)
    decreases |ops|
  {
    if ops != [] {
      NoEntryNoFire(AfterOp(all, ops[0]), id, ops[1..]);
    }
  }

  /** A cancelled timer does not fire any more. */
  lemma CancelledNeverFires(all: set<Entry>, id: nat, ops: seq<Op>)
    requires forall i :: 0 <= i < |ops| && ops[i].Add? ==> ops[i].entry.id != id
    ensures !IdFires(AfterCancel(all, id), ops, id)
  {
    NoEntryNoFire(AfterCancel(all, id), id, ops);
  }

  /** A task every five seconds that fired at five seconds is due again at ten. */
  lemma EveryFiveSeconds(all: set<Entry>, e: Entry)
    requires UniqueIds(all) && e in all && Fires(e, 5_000_000_000) && e.interval == 5000
    ensures exists f :: f in AfterTick(all, 5_000_000_000) && f.id == e.id && f.callback == e.callback &&
                        !Fires(f, 9_999_999_999) && Fires(f, 10_000_000_000)
  {
    PeriodicFiresAgain(all, e, 5_000_000_000, [], 10_000_000_000);
    PeriodicFiresAgain(all, e, 5_000_000_000, [], 9_999_999_999);
    TickKeepsIds(all, 5_000_000_000);
  }
}
