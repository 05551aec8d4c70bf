/** The timers of `watch.c`, on an intrusive list. */
module Watch {
  import opened Bytes
  import opened Timeval
  import opened IntrusiveList

  /** What a timer calls: `device_tick`, `msg_key_release`, or one of the callbacks of
      the drivers, which print or ask for a status and may arm timers of their own. */
  datatype Callback = DeviceTick | KeyRelease(key: nat) | Other(id: nat)

  datatype Timer = Timer(tv: Timeval, cb: Callback)

  /** A call of `watch_timer_add`, and the clock reading in it. */
  datatype Arm = Arm(delay: nat, cb: Callback, at: int)

  /** When the timer is due, in microseconds. */
  function Due(a: Arm): int {
    a.at + 1000 * a.delay
  }

  /** The timer that the call makes. */
  function TimerOf(a: Arm): (t: Timer)
    ensures Normal(t.tv) && Micros(t.tv) == Due(a) && t.cb == a.cb
  {
    Timer(Timeval(Due(a) / MICROS, Due(a) % MICROS), a.cb)
  }

  lemma {:induction false} TimerIs(tv: Timeval, a: Arm)
    requires Normal(tv) && Micros(tv) == Due(a)
    ensures Timer(tv, a.cb) == TimerOf(a)
  {
    var t := TimerOf(a).tv;
    assert (tv.sec - t.sec) * MICROS == t.usec - tv.usec;
  }

  function Timers(arms: seq<Arm>): (ts: seq<Timer>)
    ensures |ts| == |arms| && forall i :: 0 <= i < |arms| ==> ts[i] == TimerOf(arms[i])
  {
    seq(|arms|, i requires 0 <= i < |arms| => TimerOf(arms[i]))
  }

  lemma {:induction false} TimersAppend(a: seq<Arm>, b: seq<Arm>)
    ensures Timers(a + b) == Timers(a) + Timers(b)
  {}

  /** The wall clock, taken never to go back. */
  class Clock {
    var now: Timeval

    constructor ()
      ensures Normal(now)
    {
      now := Timeval(0, 0);
    }

    method GetTimeOfDay() returns (t: Timeval)
      requires Normal(now)
      modifies this
      ensures Normal(now) && t == now && Micros(now) >= old(Micros(now))
    {
      var ms: int := *;
      if ms > 0 {
        MacrosAreArithmetic(now, FromMs(ms));
        now := Add(now, FromMs(ms));
      }
      t := now;
    }
  }

  class Watch {
    const timer_watches: List<Timer>
    const clock: Clock
    ghost var items: seq<Timer>

    /** The list is well formed and its nodes carry, in order, `items`. */
    ghost predicate Valid()
      reads this`items, timer_watches, timer_watches.nodes, clock
    {
      && timer_watches.Valid()
      && Normal(clock.now)
      && |timer_watches.xs| == |items|
      && (forall i :: 0 <= i < |items| ==> timer_watches.xs[i].entry == Some(items[i]))
      && (forall i :: 0 <= i < |items| ==> Normal(items[i].tv))
    }

    constructor (clock: Clock)
      requires Normal(clock.now)
      ensures Valid() && items == [] && this.clock == clock && fresh(timer_watches) && fresh(timer_watches.nodes)
    {
      timer_watches := new List();
      this.clock := clock;
      items := [];
    }

    /** Links in a new node behind the others. */
    method Link(node: Node<Timer>)
      requires Valid() && node !in timer_watches.nodes
      requires node.entry.Some? && Normal(node.entry.value.tv)
      modifies this`items, timer_watches`xs, timer_watches`nodes, node
      modifies timer_watches.nodes`prev, timer_watches.nodes`next
      ensures Valid() && timer_watches.nodes == old(timer_watches.nodes) + {node}
      ensures items == old(items) + [old(node.entry.value)]
      ensures timer_watches.xs == old(timer_watches.xs) + [node]
    {
      timer_watches.Admit(node);
      timer_watches.Add(node);
      items := items + [node.entry.value];
    }

    /** Unlinks the node at position `k`. */
    method Unlink(node: Node<Timer>, ghost k: nat)
      requires Valid() && k < |items| && node == timer_watches.xs[k]
      modifies this`items, timer_watches`xs, timer_watches.nodes`prev, timer_watches.nodes`next
      ensures Valid() && items == Remove(old(items), k) && timer_watches.xs == Remove(old(timer_watches.xs), k)
    {
      timer_watches.Del(node, k);
      items := Remove(items, k);
    }

    /** `watch_timer_add`: arms a timer that is due `timeout_ms` from now, behind
        the others. */
    method TimerAdd(timeout_ms: nat, cb: Callback) returns (ghost t: Node<Timer>, ghost arm: Arm)
      requires Valid()
      modifies this`items, timer_watches`xs, timer_watches`nodes, clock
      modifies timer_watches.nodes`prev, timer_watches.nodes`next
      ensures Valid() && Micros(clock.now) >= old(Micros(clock.now))
      ensures arm == Arm(timeout_ms, cb, Micros(clock.now))
      ensures items == old(items) + [TimerOf(arm)] && timer_watches.xs == old(timer_watches.xs) + [t]
      ensures fresh(t) && timer_watches.nodes == old(timer_watches.nodes) + {t}
    {
      var now := clock.GetTimeOfDay();
      MacrosAreArithmetic(now, FromMs(timeout_ms));
      var node := new Node(Some(Timer(Add(now, FromMs(timeout_ms)), cb)));
      t, arm := node, Arm(timeout_ms, cb, Micros(now));
      TimerIs(node.entry.value.tv, arm);
      Link(node);
    }

    /** `watch_timer_next`: how long `select` may sleep. With timers pending it is
        exactly the time to the earliest deadline, or nothing if that has passed. */
    method TimerNext() returns (timeout: Option<Timeval>)
      requires Valid()
      modifies clock
      ensures Valid() && Micros(clock.now) >= old(Micros(clock.now))
      ensures timeout == None <==> items == []
      ensures timeout.Some? ==>
                Normal(timeout.value) && Micros(timeout.value) >= 0
                && exists k :: 0 <= k < |items|
                     && (forall i :: 0 <= i < |items| ==> Micros(items[k].tv) <= Micros(items[i].tv))
                     && Micros(timeout.value) ==
                        if Micros(items[k].tv) > Micros(clock.now) then Micros(items[k].tv) - Micros(clock.now) else 0
    {
      var empty := timer_watches.Empty();
      if empty {
        return None;
      }
      ghost var k, n := 0, 0;
      var next := timer_watches.head.next;
      var t := timer_watches.head.next;
      while t != timer_watches.head
        invariant Valid() && clock.now == old(clock.now)
        invariant 0 <= n <= |items| && t == timer_watches.At(n)
        invariant 0 <= k < |items| && next == timer_watches.xs[k]
        invariant forall i :: 0 <= i < n ==> Micros(items[k].tv) <= Micros(items[i].tv)
        decreases |items| - n
      {
        MacrosAreArithmetic(items[n].tv, items[k].tv);
        if Less(t.entry.value.tv, next.entry.value.tv) {
          next, k := t, n;
        }
        t, n := t.next, n + 1;
      }
      var now := clock.GetTimeOfDay();
      MacrosAreArithmetic(items[k].tv, now);
      var left := Sub(next.entry.value.tv, now);
      if left.sec < 0 {
        left := Timeval(0, 0);
      }
      timeout := Some(left);
    }
  }
}
