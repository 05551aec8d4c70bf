/** The timer pass of `watch_main_loop`: expired timers are called while their
    callbacks append more to the list being walked. */
module EventLoop {
  import opened Bytes
  import opened PowerSequence
  import opened Timeval
  import opened IntrusiveList
  import opened Watch
  import opened Device

  // ---- What a pass does, on values -----------------------------------------

  /** The timers whose deadline is strictly before `now`, in order. */
  function Expired(ts: seq<Timer>, now: Timeval): seq<Timer> {
    if ts == [] then []
    else if Less(ts[0].tv, now) then [ts[0]] + Expired(ts[1..], now)
    else Expired(ts[1..], now)
  }

  /** The others, in order. */
  function Pending(ts: seq<Timer>, now: Timeval): seq<Timer> {
    if ts == [] then []
    else if Less(ts[0].tv, now) then Pending(ts[1..], now)
    else [ts[0]] + Pending(ts[1..], now)
  }

  lemma {:induction false} SplitAppend(a: seq<Timer>, t: Timer, now: Timeval)
    ensures Expired(a + [t], now) == if Less(t.tv, now) then Expired(a, now) + [t] else Expired(a, now)
    ensures Pending(a + [t], now) == if Less(t.tv, now) then Pending(a, now) else Pending(a, now) + [t]
  {
    if a == [] {
      assert a + [t] == [t] && [t][1..] == [];
    } else {
      assert (a + [t])[1..] == a[1..] + [t];
      SplitAppend(a[1..], t, now);
    }
  }

  /** The expired and the pending timers are the timers, told apart by their
      deadlines: none is lost, doubled or misplaced. */
  lemma {:induction false} SplitIsExact(ts: seq<Timer>, now: Timeval)
    ensures multiset(Expired(ts, now)) + multiset(Pending(ts, now)) == multiset(ts)
    ensures forall t :: t in Expired(ts, now) ==> Less(t.tv, now)
    ensures forall t :: t in Pending(ts, now) ==> !Less(t.tv, now)
  {
    if ts != [] {
      SplitIsExact(ts[1..], now);
      assert ts == [ts[0]] + ts[1..];
    }
  }

  ghost predicate AllNormal(ts: seq<Timer>) {
    forall i :: 0 <= i < |ts| ==> Normal(ts[i].tv)
  }

  /** On normalized timers that is a matter of microseconds. */
  lemma {:induction false} ExpiredIff(ts: seq<Timer>, now: Timeval)
    requires AllNormal(ts) && Normal(now)
    ensures forall t :: t in Expired(ts, now) <==> t in ts && Micros(t.tv) < Micros(now)
  {
    if ts != [] {
      MacrosAreArithmetic(ts[0].tv, now);
      ExpiredIff(ts[1..], now);
      assert ts == [ts[0]] + ts[1..];
    }
  }

  lemma {:induction false} SplitSnoc(ts: seq<Timer>, i: nat, now: Timeval)
    requires i < |ts|
    ensures Expired(ts[..i + 1], now) ==
            if Less(ts[i].tv, now) then Expired(ts[..i], now) + [ts[i]] else Expired(ts[..i], now)
    ensures Pending(ts[..i + 1], now) ==
            if Less(ts[i].tv, now) then Pending(ts[..i], now) else Pending(ts[..i], now) + [ts[i]]
  {
    assert ts[..i + 1] == ts[..i] + [ts[i]];
    SplitAppend(ts[..i], ts[i], now);
  }

  /** What a callback does to the device; those of the drivers leave it alone. */
  function Apply(c: Config, d: Dev, cb: Callback): Dev {
    match cb
    case DeviceTick => PowerSequence.Tick(c, d).dev
    case KeyRelease(key) =>
      if key == DEVICE_KEY_FASTBOOT then SetFastbootKey(c, d, false)
      else if key == DEVICE_KEY_POWER then SetPowerKey(c, d, false) else d
    case Other(_) => d
  }

  /** The device after the callbacks of `fired`, in order. */
  function ApplyAll(c: Config, d: Dev, fired: seq<Timer>): Dev
    decreases |fired|
  {
    if fired == [] then d else ApplyAll(c, Apply(c, d, fired[0].cb), fired[1..])
  }

  ghost predicate ForDrivers(arms: seq<Arm>) {
    forall k :: 0 <= k < |arms| ==> arms[k].cb.Other?
  }

  /** A call of a callback: the clock when it returned, and the timers it armed. */
  datatype Call = Call(at: int, arms: seq<Arm>)

  /** What a callback may arm: a tick what the sequence says, a key release nothing,
      and one of a driver any timers, with any delays, for callbacks of drivers: the
      device's and the server's are static functions of their files. */
  ghost predicate CallOk(c: Config, d: Dev, cb: Callback, call: Call) {
    match cb
    case DeviceTick =>
      var delays := PowerSequence.Tick(c, d).armed;
      (forall i :: 0 <= i < |delays| ==> delays[i] >= 0) && call.arms == TickArms(delays, call.at)
    case KeyRelease(_) => call.arms == []
    case Other(_) => ForDrivers(call.arms)
  }

  ghost predicate CallsOk(c: Config, d: Dev, fired: seq<Timer>, calls: seq<Call>)
    decreases |fired|
  {
    && |calls| == |fired|
    && (fired == [] ||
        (CallOk(c, d, fired[0].cb, calls[0]) && CallsOk(c, Apply(c, d, fired[0].cb), fired[1..], calls[1..])))
  }

  /** Everything these calls armed, in order. */
  function ArmedBy(calls: seq<Call>): seq<Arm> {
    if calls == [] then [] else calls[0].arms + ArmedBy(calls[1..])
  }

  lemma {:induction false} ArmedBySnoc(calls: seq<Call>, call: Call)
    ensures ArmedBy(calls + [call]) == ArmedBy(calls) + call.arms
  {
    if calls == [] {
      assert calls + [call] == [call] && [call][1..] == [];
      assert call.arms + [] == call.arms;
    } else {
      assert (calls + [call])[1..] == calls[1..] + [call];
      ArmedBySnoc(calls[1..], call);
      ConcatAssoc(calls[0].arms, ArmedBy(calls[1..]), call.arms);
    }
  }

  lemma {:induction false} CallsSnoc(c: Config, d: Dev, fired: seq<Timer>, t: Timer, calls: seq<Call>, call: Call)
    requires CallsOk(c, d, fired, calls) && CallOk(c, ApplyAll(c, d, fired), t.cb, call)
    ensures CallsOk(c, d, fired + [t], calls + [call])
    ensures ApplyAll(c, d, fired + [t]) == Apply(c, ApplyAll(c, d, fired), t.cb)
    decreases |fired|
  {
    if fired == [] {
      assert fired + [t] == [t] && calls + [call] == [call] && [t][1..] == [] && [call][1..] == [];
    } else {
      assert (fired + [t])[1..] == fired[1..] + [t] && (calls + [call])[1..] == calls[1..] + [call];
      CallsSnoc(c, Apply(c, d, fired[0].cb), fired[1..], t, calls[1..], call);
    }
  }

  /** The clock readings of a call lie between `from` and its end. */
  ghost predicate Between(from: int, call: Call) {
    from <= call.at && forall k :: 0 <= k < |call.arms| ==> from <= call.arms[k].at <= call.at
  }

  /** Clock readings that do not go back and start no earlier than `from`. */
  ghost predicate Rising(calls: seq<Call>, from: int) {
    && (forall i :: 0 <= i < |calls| ==> Between(from, calls[i]))
    && forall i, j :: 0 <= i < j < |calls| ==> Between(calls[i].at, calls[j])
  }

  ghost predicate NoneBefore(ts: seq<Timer>, now: Timeval) {
    forall i :: 0 <= i < |ts| ==> !Less(ts[i].tv, now)
  }

  /** A pass under way over the timers `orig`: it has dealt with the first `i` of
      them, keeping `kept`, and looked at `j` of those armed since; it has called
      `fired`, and `calls` says what these callbacks did. */
  datatype Walk = Walk(c: Config, d0: Dev, orig: seq<Timer>, now: Timeval, i: nat, j: nat,
                       kept: seq<Timer>, fired: seq<Timer>, calls: seq<Call>)
  {
    /** The position in the list of the next timer to look at. */
    function Pos(): nat {
      |kept| + j
    }

    function Armed(): seq<Timer> {
      Timers(ArmedBy(calls))
    }

    function Skipped(): Walk
      requires i < |orig|
    {
      this.(i := i + 1, kept := kept + [orig[i]])
    }

    function Fired(call: Call): Walk
      requires i < |orig|
    {
      this.(i := i + 1, fired := fired + [orig[i]], calls := calls + [call])
    }
  }

  /** The callbacks made so far, and what they did. */
  ghost predicate Called(s: Walk, d: Dev) {
    && s.i <= |s.orig|
    && s.fired == Expired(s.orig[..s.i], s.now) && s.kept == Pending(s.orig[..s.i], s.now)
    && d == ApplyAll(s.c, s.d0, s.fired)
    && CallsOk(s.c, s.d0, s.fired, s.calls)
  }

  /** What is on the list. */
  ghost predicate Laid(s: Walk, items: seq<Timer>) {
    && s.i <= |s.orig| && s.j <= |s.Armed()| && (s.j > 0 ==> s.i == |s.orig|)
    && items == s.kept + s.orig[s.i..] + s.Armed()
    && NoneBefore(s.Armed(), s.now)
  }

  /** The clock now reads `clk`, no earlier than at any callback. */
  ghost predicate Clocked(s: Walk, clk: int) {
    && Micros(s.now) <= clk
    && Rising(s.calls, Micros(s.now))
    && forall i :: 0 <= i < |s.calls| ==> s.calls[i].at <= clk
  }

  /** The same pass over the same timers. */
  ghost predicate SamePass(s: Walk, s': Walk) {
    s'.c == s.c && s'.d0 == s.d0 && s'.orig == s.orig && s'.now == s.now
  }

  function Start(c: Config, d: Dev, orig: seq<Timer>, now: Timeval): Walk {
    Walk(c, d, orig, now, 0, 0, [], [], [])
  }

  lemma {:induction false} StartOk(c: Config, d: Dev, orig: seq<Timer>, now: Timeval)
    ensures Called(Start(c, d, orig, now), d) && Laid(Start(c, d, orig, now), orig) && Start(c, d, orig, now).Pos() == 0
  {
    assert orig[..0] == [] && orig[0..] == orig;
    assert [] + orig + [] == orig;
  }

  lemma {:induction false} MoveOver<T>(a: seq<T>, s: seq<T>, i: nat)
    requires i < |s|
    ensures a + s[i..] == (a + [s[i]]) + s[i + 1..]
  {}

  lemma {:induction false} SkipCalled(s: Walk, d: Dev)
    requires Called(s, d) && s.i < |s.orig| && !Less(s.orig[s.i].tv, s.now)
    ensures Called(s.Skipped(), d)
  {
    SplitSnoc(s.orig, s.i, s.now);
  }

  lemma {:induction false} SkipLaid(s: Walk, items: seq<Timer>)
    requires Laid(s, items) && s.i < |s.orig|
    ensures Laid(s.Skipped(), items)
  {
    MoveOver(s.kept, s.orig, s.i);
  }

  /** The timer at the position of the pass. */
  lemma {:induction false} TimerAt(s: Walk, items: seq<Timer>)
    requires Laid(s, items) && s.Pos() < |items|
    ensures s.i < |s.orig| ==> items[s.Pos()] == s.orig[s.i]
    ensures s.i == |s.orig| ==> s.j < |s.Armed()| && !Less(items[s.Pos()].tv, s.now)
    ensures s.Pos() + 1 == |items| ==> s.i + 1 >= |s.orig|
  {
    assert s.i == |s.orig| ==> items[s.Pos()] == s.Armed()[s.j];
  }

  /** Looking at a timer that is not due. */
  lemma {:induction false} LookOn(s: Walk, d: Dev, items: seq<Timer>, clk: int) returns (s': Walk)
    requires Called(s, d) && Laid(s, items) && Clocked(s, clk)
    requires s.Pos() < |items| && !Less(items[s.Pos()].tv, s.now)
    ensures Called(s', d) && Laid(s', items) && Clocked(s', clk) && SamePass(s, s')
    ensures s'.Pos() == s.Pos() + 1 && s'.calls == s.calls
    ensures s.i < s'.i || (s.i == s'.i && s.j < s'.j)
    ensures s.Pos() + 1 == |items| ==> s'.i == |s.orig|
  {
    TimerAt(s, items);
    if s.i < |s.orig| {
      SkipCalled(s, d);
      SkipLaid(s, items);
      s' := s.Skipped();
    } else {
      s' := s.(j := s.j + 1);
    }
  }

  lemma {:induction false} FireCalled(s: Walk, d: Dev, call: Call)
    requires Called(s, d) && s.i < |s.orig| && Less(s.orig[s.i].tv, s.now)
    requires CallOk(s.c, d, s.orig[s.i].cb, call)
    ensures Called(s.Fired(call), Apply(s.c, d, s.orig[s.i].cb))
  {
    SplitSnoc(s.orig, s.i, s.now);
    CallsSnoc(s.c, s.d0, s.fired, s.orig[s.i], s.calls, call);
  }

  lemma {:induction false} FireClocked(s: Walk, clk: int, call: Call)
    requires Clocked(s, clk) && Between(clk, call) && s.i < |s.orig|
    ensures Clocked(s.Fired(call), call.at) && SamePass(s, s.Fired(call))
  {
    var cs := s.Fired(call).calls;
    forall i, j | 0 <= i < j < |cs| ensures Between(cs[i].at, cs[j]) {
      if j == |s.calls| {
        assert s.calls[i].at <= clk;
      }
    }
  }

  lemma {:induction false} FireLaid(s: Walk, items: seq<Timer>, call: Call)
    requires Laid(s, items) && s.i < |s.orig| && NoneBefore(Timers(call.arms), s.now)
    ensures s.Pos() < |items| && items[s.Pos()] == s.orig[s.i]
    ensures Laid(s.Fired(call), Remove(items, s.Pos()) + Timers(call.arms)) && s.Fired(call).Pos() == s.Pos()
  {
    var after, armed, more := s.orig[s.i + 1..], s.Armed(), Timers(call.arms);
    assert s.orig[s.i..] == [s.orig[s.i]] + after;
    assert Remove(items, |s.kept|) == s.kept + after + armed;
    ConcatAssoc(s.kept + after, armed, more);
    ArmedBySnoc(s.calls, call);
    TimersAppend(ArmedBy(s.calls), call.arms);
  }

  lemma {:induction false} FinishOk(s: Walk, d: Dev, items: seq<Timer>)
    requires Called(s, d) && Laid(s, items) && s.i == |s.orig|
    ensures s.fired == Expired(s.orig, s.now) && items == Pending(s.orig, s.now) + s.Armed()
  {
    assert s.orig[..s.i] == s.orig;
    assert s.orig[s.i..] == [];
    assert s.kept + [] == s.kept;
  }

  /** Nothing a callback arms is due before the pass began: delays are not negative. */
  lemma {:induction false} ArmedIsLater(call: Call, now: Timeval)
    requires Normal(now) && Between(Micros(now), call)
    ensures NoneBefore(Timers(call.arms), now)
  {
    forall k | 0 <= k < |call.arms| ensures !Less(Timers(call.arms)[k].tv, now) {
      MacrosAreArithmetic(TimerOf(call.arms[k]).tv, now);
    }
  }

  /** No timer is due before `at`, in microseconds. */
  ghost predicate NoneDue(ts: seq<Timer>, at: int) {
    forall i :: 0 <= i < |ts| ==> Micros(ts[i].tv) >= at
  }

  /** What a pass leaves on the list is not due before its snapshot of the clock. */
  lemma {:induction false} PassLeavesNoneDue(ts: seq<Timer>, now: Timeval, calls: seq<Call>)
    requires AllNormal(ts) && Normal(now) && Rising(calls, Micros(now))
    ensures NoneDue(Pending(ts, now) + Timers(ArmedBy(calls)), Micros(now))
  {
    PendingNotDue(ts, now);
    ArmedNotDue(calls, Micros(now));
  }

  lemma {:induction false} PendingNotDue(ts: seq<Timer>, now: Timeval)
    requires AllNormal(ts) && Normal(now)
    ensures NoneDue(Pending(ts, now), Micros(now))
  {
    if ts != [] {
      MacrosAreArithmetic(ts[0].tv, now);
      PendingNotDue(ts[1..], now);
    }
  }

  lemma {:induction false} ArmedNotDue(calls: seq<Call>, from: int)
    requires forall i :: 0 <= i < |calls| ==> Between(from, calls[i])
    ensures NoneDue(Timers(ArmedBy(calls)), from)
  {
    if calls != [] {
      assert Between(from, calls[0]);
      ArmedNotDue(calls[1..], from);
      TimersAppend(calls[0].arms, ArmedBy(calls[1..]));
    }
  }

  // ---- Key releases --------------------------------------------------------

  /** The callback at `i` releases the key, and no tick is called behind it. */
  ghost predicate ReleasedAt(fired: seq<Timer>, i: nat, key: nat) {
    i < |fired| && fired[i].cb == KeyRelease(key) && forall j :: i < j < |fired| ==> fired[j].cb != DeviceTick
  }

  lemma {:induction false} StaysUp(c: Config, d: Dev, fired: seq<Timer>)
    requires forall j :: 0 <= j < |fired| ==> fired[j].cb != DeviceTick
    ensures !d.powerKey ==> !ApplyAll(c, d, fired).powerKey
    ensures !d.fastbootKey ==> !ApplyAll(c, d, fired).fastbootKey
    decreases |fired|
  {
    if fired != [] {
      StaysUp(c, Apply(c, d, fired[0].cb), fired[1..]);
    }
  }

  /** A release lets go of its key, and only a tick can press it again. */
  lemma {:induction false} ReleaseHolds(c: Config, d: Dev, fired: seq<Timer>, i: nat)
    requires c.canKey && i < |fired|
    ensures ReleasedAt(fired, i, 0) ==> !ApplyAll(c, d, fired).fastbootKey
    ensures ReleasedAt(fired, i, 1) ==> !ApplyAll(c, d, fired).powerKey
    decreases |fired|
  {
    if i > 0 {
      var rest := fired[1..];
      assert forall key :: ReleasedAt(fired, i, key) ==> ReleasedAt(rest, i - 1, key) by {
        assert forall j :: i - 1 < j < |rest| ==> rest[j] == fired[j + 1];
      }
      ReleaseHolds(c, Apply(c, d, fired[0].cb), rest, i - 1);
    } else if ReleasedAt(fired, 0, 0) || ReleasedAt(fired, 0, 1) {
      StaysUp(c, Apply(c, d, fired[0].cb), fired[1..]);
    }
  }

  // ---- A pass is a run of the power sequence -------------------------------

  /** When the ticks among these timers are due. */
  function TickDues(ts: seq<Timer>): seq<int> {
    if ts == [] then []
    else (if ts[0].cb == DeviceTick then [Micros(ts[0].tv)] else []) + TickDues(ts[1..])
  }

  /** When the ticks among these newly armed timers are due. */
  function ArmedDues(arms: seq<Arm>): seq<int> {
    if arms == [] then [] else (if arms[0].cb == DeviceTick then [Due(arms[0])] else []) + ArmedDues(arms[1..])
  }

  lemma {:induction false} ArmedDuesAppend(a: seq<Arm>, b: seq<Arm>)
    ensures ArmedDues(a + b) == ArmedDues(a) + ArmedDues(b)
  {
    if a == [] {
      assert a + b == b;
    } else {
      assert (a + b)[1..] == a[1..] + b;
      ArmedDuesAppend(a[1..], b);
      var first := if a[0].cb == DeviceTick then [Due(a[0])] else [];
      ConcatAssoc(first, ArmedDues(a[1..]), ArmedDues(b));
    }
  }

  /** The callbacks of the drivers arm no ticks. */
  lemma {:induction false} DriversArmNoTicks(arms: seq<Arm>)
    requires ForDrivers(arms)
    ensures ArmedDues(arms) == []
    decreases |arms|
  {
    if arms != [] {
      DriversArmNoTicks(arms[1..]);
    }
  }

  ghost predicate NoRelease(ts: seq<Timer>) {
    forall i :: 0 <= i < |ts| ==> !ts[i].cb.KeyRelease?
  }

  /** The same but for the lines that requests change as well, the keys and USB. */
  ghost predicate SameSequence(a: Dev, b: Dev) {
    a.stage == b.stage && a.power == b.power
  }

  lemma {:induction false} TickPower(c: Config, d: Dev)
    ensures PowerSequence.Tick(c, d).dev.power == (d.power || d.stage == CONNECT)
  {}

  /** The sequence does not depend on those lines. */
  lemma {:induction false} LinesDoNotMatter(c: Config, a: Dev, b: Dev)
    requires SameSequence(a, b)
    ensures SameSequence(PowerSequence.Tick(c, a).dev, PowerSequence.Tick(c, b).dev)
    ensures PowerSequence.Tick(c, a).armed == PowerSequence.Tick(c, b).armed
  {
    TickPower(c, a);
    TickPower(c, b);
  }

  lemma {:induction false} OthersKeepSequence(c: Config, d: Dev, cb: Callback)
    requires cb != DeviceTick
    ensures SameSequence(Apply(c, d, cb), d) && (!cb.KeyRelease? ==> Apply(c, d, cb) == d)
  {}

  lemma {:induction false} TickArmsDues(delays: seq<int>, at: int)
    requires |delays| <= 1 && forall i :: 0 <= i < |delays| ==> delays[i] >= 0
    ensures ArmedDues(TickArms(delays, at)) == Deadlines(delays, at)
  {
    if delays != [] {
      assert TickArms(delays, at)[1..] == [];
    }
  }

  lemma {:induction false} OneTick(c: Config, d: Dev)
    ensures |PowerSequence.Tick(c, d).armed| <= 1
  {}

  ghost predicate AllFires(es: seq<Event>) {
    forall i :: 0 <= i < |es| ==> es[i].Fire?
  }

  /** The clock at the end of the last call. */
  function Ends(from: int, calls: seq<Call>): int {
    if calls == [] then from else calls[|calls| - 1].at
  }

  /** What a run has to show for a pass over the timers `ts` that keeps the deadlines
      `kept` in front of theirs and has armed the deadlines `armed` behind them. */
  ghost predicate Follows(c: Config, s: Sys, d: Dev, kept: seq<int>, ts: seq<Timer>, armed: seq<int>,
                          now: Timeval, calls: seq<Call>, es: seq<Event>)
  {
    && AllFires(es) && |es| == |TickDues(Expired(ts, now))|
    && CanRun(c, s, es) && Run(c, s, es).now <= Ends(s.now, calls)
    && SameSequence(Run(c, s, es).dev, ApplyAll(c, d, Expired(ts, now)))
    && (s.dev == d && NoRelease(Expired(ts, now)) ==> Run(c, s, es).dev == ApplyAll(c, d, Expired(ts, now)))
    && Run(c, s, es).ticks == kept + TickDues(Pending(ts, now)) + (armed + ArmedDues(ArmedBy(calls)))
  }

  /** What such a pass finds on the list, and when its calls are made. */
  ghost predicate ListStarts(ticks: seq<int>, at: int, kept: seq<int>, ts: seq<Timer>, armed: seq<int>,
                             now: Timeval, calls: seq<Call>)
  {
    && ticks == kept + TickDues(ts) + armed && AllNormal(ts) && Normal(now)
    && |calls| == |Expired(ts, now)|
    && Rising(calls, Micros(now)) && forall i :: 0 <= i < |calls| ==> at <= calls[i].at
  }

  ghost predicate Starts(c: Config, s: Sys, d: Dev, kept: seq<int>, ts: seq<Timer>, armed: seq<int>,
                         now: Timeval, calls: seq<Call>)
  {
    && ListStarts(s.ticks, s.now, kept, ts, armed, now, calls)
    && SameSequence(s.dev, d) && CallsOk(c, d, Expired(ts, now), calls)
  }

  lemma {:induction false} PendingIsRun(c: Config, s: Sys, d: Dev, kept: seq<int>, ts: seq<Timer>, armed: seq<int>,
                                        now: Timeval, calls: seq<Call>)
    returns (es: seq<Event>)
    requires Starts(c, s, d, kept, ts, armed, now, calls) && ts != [] && !Less(ts[0].tv, now)
    ensures Follows(c, s, d, kept, ts, armed, now, calls, es)
    decreases |ts|, 0
  {
    var due := if ts[0].cb == DeviceTick then [Micros(ts[0].tv)] else [];
    assert TickDues(ts) == due + TickDues(ts[1..]);
    assert TickDues(Pending(ts, now)) == due + TickDues(Pending(ts[1..], now));
    ConcatAssoc(kept, due, TickDues(ts[1..]));
    es := RestIsRun(c, s, d, kept + due, ts[1..], armed, now, calls);
    ConcatAssoc(kept, due, TickDues(Pending(ts[1..], now)));
  }

  /** The calls behind the first. */
  lemma {:induction false} CallsRest(fired: seq<Timer>, calls: seq<Call>, from: int)
    requires fired != [] && |calls| == |fired| && Rising(calls, from)
    ensures Rising(calls[1..], from)
    ensures forall i :: 0 <= i < |calls| - 1 ==> calls[0].at <= calls[1..][i].at
  {
    forall i | 0 <= i < |calls| - 1 ensures calls[0].at <= calls[1..][i].at {
      assert Between(calls[0].at, calls[i + 1]);
    }
  }

  /** What is left on the list behind a tick that fires at `calls[0].at`. */
  lemma {:induction false} TickStarts(ticks: seq<int>, at: int, kept: seq<int>, ts: seq<Timer>, armed: seq<int>,
                                      now: Timeval, calls: seq<Call>)
    requires ListStarts(ticks, at, kept, ts, armed, now, calls)
    requires ts != [] && Less(ts[0].tv, now) && ts[0].cb == DeviceTick
    ensures |kept| < |ticks| && ticks[|kept|] < calls[0].at && at <= calls[0].at
    ensures var more := ArmedDues(calls[0].arms);
            && ListStarts(Without(ticks, |kept|) + more, calls[0].at, kept, ts[1..], armed + more, now, calls[1..])
            && armed + ArmedDues(ArmedBy(calls)) == (armed + more) + ArmedDues(ArmedBy(calls[1..]))
  {
    var rest, more := TickDues(ts[1..]), ArmedDues(calls[0].arms);
    assert Expired(ts, now)[1..] == Expired(ts[1..], now);
    CallsRest(Expired(ts, now), calls, Micros(now));
    MacrosAreArithmetic(ts[0].tv, now);
    assert ticks[|kept|] == Micros(ts[0].tv);
    assert Without(ticks, |kept|) == kept + rest + armed;
    ConcatAssoc(kept + rest, armed, more);
    ArmedDuesAppend(calls[0].arms, ArmedBy(calls[1..]));
    ConcatAssoc(armed, more, ArmedDues(ArmedBy(calls[1..])));
  }

  lemma {:induction false} ReleaseRest(fired: seq<Timer>)
    requires fired != [] && NoRelease(fired)
    ensures NoRelease(fired[1..])
  {}

  /** A tick that fires takes the system on to where the rest of the pass starts. */
  lemma {:induction false} TickFires(c: Config, s: Sys, d: Dev, kept: seq<int>, ts: seq<Timer>, armed: seq<int>,
                                     now: Timeval, calls: seq<Call>)
    requires Starts(c, s, d, kept, ts, armed, now, calls) && ts != [] && Less(ts[0].tv, now) && ts[0].cb == DeviceTick
    ensures var e := Event.Fire(|kept|, calls[0].at);
            && Enabled(s, e)
            && Starts(c, Next(c, s, e), Apply(c, d, DeviceTick), kept, ts[1..], armed + ArmedDues(calls[0].arms),
                      now, calls[1..])
    ensures s.dev == d ==> Next(c, s, Event.Fire(|kept|, calls[0].at)).dev == Apply(c, d, DeviceTick)
    ensures armed + ArmedDues(ArmedBy(calls)) == armed + ArmedDues(calls[0].arms) + ArmedDues(ArmedBy(calls[1..]))
  {
    TickStarts(s.ticks, s.now, kept, ts, armed, now, calls);
    LinesDoNotMatter(c, s.dev, d);
    OneTick(c, d);
    TickArmsDues(PowerSequence.Tick(c, d).armed, calls[0].at);
    assert Expired(ts, now)[1..] == Expired(ts[1..], now);
  }

  lemma {:induction false} RunCons(c: Config, s: Sys, e: Event, later: seq<Event>)
    requires Enabled(s, e) && CanRun(c, Next(c, s, e), later)
    ensures CanRun(c, s, [e] + later) && Run(c, s, [e] + later) == Run(c, Next(c, s, e), later)
  {
    assert ([e] + later)[1..] == later;
  }

  lemma {:induction false} FiresCons(e: Event, later: seq<Event>)
    requires e.Fire? && AllFires(later)
    ensures AllFires([e] + later)
  {}

  /** What a tick in front adds to a pass. */
  lemma {:induction false} TickInFront(ts: seq<Timer>, now: Timeval)
    requires ts != [] && Less(ts[0].tv, now) && ts[0].cb == DeviceTick
    ensures Expired(ts, now) == [ts[0]] + Expired(ts[1..], now) && Pending(ts, now) == Pending(ts[1..], now)
    ensures |TickDues(Expired(ts, now))| == 1 + |TickDues(Expired(ts[1..], now))|
  {
    assert Expired(ts, now)[1..] == Expired(ts[1..], now);
  }

  lemma {:induction false} ApplyTick(c: Config, d: Dev, t: Timer, fired: seq<Timer>)
    requires t.cb == DeviceTick
    ensures ApplyAll(c, d, [t] + fired) == ApplyAll(c, Apply(c, d, DeviceTick), fired)
    ensures NoRelease([t] + fired) ==> NoRelease(fired)
  {
    assert ([t] + fired)[1..] == fired;
    if NoRelease([t] + fired) {
      ReleaseRest([t] + fired);
    }
  }

  /** A run of the rest of the pass, with the tick in front. */
  lemma {:induction false} TickFollows(c: Config, s: Sys, d: Dev, kept: seq<int>, ts: seq<Timer>, armed: seq<int>,
                                       more: seq<int>, now: Timeval, calls: seq<Call>, e: Event, later: seq<Event>)
    requires ts != [] && calls != [] && Less(ts[0].tv, now) && ts[0].cb == DeviceTick && e.Fire? && Enabled(s, e)
    requires e.at == calls[0].at
    requires Follows(c, Next(c, s, e), Apply(c, d, DeviceTick), kept, ts[1..], armed + more, now, calls[1..], later)
    requires s.dev == d ==> Next(c, s, e).dev == Apply(c, d, DeviceTick)
    requires armed + ArmedDues(ArmedBy(calls)) == armed + more + ArmedDues(ArmedBy(calls[1..]))
    ensures Follows(c, s, d, kept, ts, armed, now, calls, [e] + later)
  {
    TickInFront(ts, now);
    ApplyTick(c, d, ts[0], Expired(ts[1..], now));
    RunCons(c, s, e, later);
    FiresCons(e, later);
  }

  lemma {:induction false} TickIsRun(c: Config, s: Sys, d: Dev, kept: seq<int>, ts: seq<Timer>, armed: seq<int>,
                                     now: Timeval, calls: seq<Call>)
    returns (es: seq<Event>)
    requires Starts(c, s, d, kept, ts, armed, now, calls) && ts != [] && Less(ts[0].tv, now) && ts[0].cb == DeviceTick
    ensures Follows(c, s, d, kept, ts, armed, now, calls, es)
    decreases |ts|, 0
  {
    TickFires(c, s, d, kept, ts, armed, now, calls);
    var e, more := Event.Fire(|kept|, calls[0].at), ArmedDues(calls[0].arms);
    var later := RestIsRun(c, Next(c, s, e), Apply(c, d, DeviceTick), kept, ts[1..], armed + more, now, calls[1..]);
    TickFollows(c, s, d, kept, ts, armed, more, now, calls, e, later);
    es := [e] + later;
  }

  /** What is left on the list behind a callback that is no tick. */
  lemma {:induction false} OtherStarts(ticks: seq<int>, at: int, kept: seq<int>, ts: seq<Timer>, armed: seq<int>,
                                       now: Timeval, calls: seq<Call>)
    requires ListStarts(ticks, at, kept, ts, armed, now, calls)
    requires ts != [] && Less(ts[0].tv, now) && ts[0].cb != DeviceTick
    requires ArmedDues(calls[0].arms) == []
    ensures ListStarts(ticks, at, kept, ts[1..], armed, now, calls[1..])
    ensures ArmedDues(ArmedBy(calls)) == ArmedDues(ArmedBy(calls[1..]))
  {
    assert Expired(ts, now)[1..] == Expired(ts[1..], now);
    CallsRest(Expired(ts, now), calls, Micros(now));
    var rest, more := TickDues(ts[1..]), ArmedDues(ArmedBy(calls[1..]));
    ArmedDuesAppend(calls[0].arms, ArmedBy(calls[1..]));
    assert TickDues(ts) == [] + rest == rest;
    assert [] + more == more;
  }

  lemma {:induction false} OtherIsRun(c: Config, s: Sys, d: Dev, kept: seq<int>, ts: seq<Timer>, armed: seq<int>,
                                      now: Timeval, calls: seq<Call>)
    returns (es: seq<Event>)
    requires Starts(c, s, d, kept, ts, armed, now, calls) && ts != [] && Less(ts[0].tv, now) && ts[0].cb != DeviceTick
    ensures Follows(c, s, d, kept, ts, armed, now, calls, es)
    decreases |ts|, 0
  {
    var fired := Expired(ts, now);
    assert fired[0] == ts[0] && fired[1..] == Expired(ts[1..], now);
    if ts[0].cb.Other? {
      DriversArmNoTicks(calls[0].arms);
    }
    OtherStarts(s.ticks, s.now, kept, ts, armed, now, calls);
    OthersKeepSequence(c, d, ts[0].cb);
    es := RestIsRun(c, s, Apply(c, d, ts[0].cb), kept, ts[1..], armed, now, calls[1..]);
    if NoRelease(fired) {
      ReleaseRest(fired);
      assert !fired[0].cb.KeyRelease?;
    }
  }

  lemma {:induction false} RestIsRun(c: Config, s: Sys, d: Dev, kept: seq<int>, ts: seq<Timer>, armed: seq<int>,
                                     now: Timeval, calls: seq<Call>)
    returns (es: seq<Event>)
    requires Starts(c, s, d, kept, ts, armed, now, calls)
    ensures Follows(c, s, d, kept, ts, armed, now, calls, es)
    decreases |ts|, 1
  {
    if ts == [] {
      assert armed + [] == armed;
      es := [];
    } else if !Less(ts[0].tv, now) {
      es := PendingIsRun(c, s, d, kept, ts, armed, now, calls);
    } else if ts[0].cb == DeviceTick {
      es := TickIsRun(c, s, d, kept, ts, armed, now, calls);
    } else {
      es := OtherIsRun(c, s, d, kept, ts, armed, now, calls);
    }
  }

  /** A timer pass is a run of the power sequence in which each expired tick fires
      once, whatever other timers expire with them: what holds of all runs holds of
      the event loop. The other lines agree as long as they did and no key release
      expires. */
  lemma {:induction false} PassIsRun(c: Config, s: Sys, d: Dev, ts: seq<Timer>, now: Timeval, calls: seq<Call>)
    returns (es: seq<Event>)
    requires s.ticks == TickDues(ts) && AllNormal(ts) && Normal(now) && s.now <= Micros(now) && SameSequence(s.dev, d)
    requires CallsOk(c, d, Expired(ts, now), calls)
    requires Rising(calls, Micros(now))
    ensures AllFires(es) && |es| == |TickDues(Expired(ts, now))|
    ensures CanRun(c, s, es) && Run(c, s, es).now <= Ends(s.now, calls)
    ensures var r, d' := Run(c, s, es), ApplyAll(c, d, Expired(ts, now));
            && SameSequence(r.dev, d') && (s.dev == d && NoRelease(Expired(ts, now)) ==> r.dev == d')
            && r.ticks == TickDues(Pending(ts, now)) + ArmedDues(ArmedBy(calls))
  {
    var none: seq<int> := [];
    assert none + TickDues(ts) + none == TickDues(ts);
    es := RestIsRun(c, s, d, none, ts, none, now, calls);
    var kept, armed := TickDues(Pending(ts, now)), ArmedDues(ArmedBy(calls));
    assert none + kept == kept && none + armed == armed;
  }

  // ---- The pass on the list ------------------------------------------------

  lemma {:induction false} OneMoreArmed(items: seq<Timer>, arms: seq<Arm>, arm: Arm)
    ensures items + Timers(arms) + [TimerOf(arm)] == items + Timers(arms + [arm])
  {
    TimersAppend(arms, [arm]);
  }

  lemma {:induction false} OneMoreNode<T>(xs: seq<T>, all: set<T>, nodes: seq<T>, node: T)
    ensures xs + nodes + [node] == xs + (nodes + [node])
    ensures all + (set n | n in nodes) + {node} == all + (set n | n in nodes + [node])
  {}

  /** A callback of a driver: any timers, with any delays, for callbacks of drivers. */
  method RunOther(w: Watch) returns (ghost call: Call, ghost nodes: seq<Node<Timer>>)
    requires w.Valid()
    modifies w`items, w.timer_watches`xs, w.timer_watches`nodes, w.clock
    modifies w.timer_watches.nodes`prev, w.timer_watches.nodes`next
    ensures w.Valid() && Between(old(Micros(w.clock.now)), call) && call.at == Micros(w.clock.now)
    ensures ForDrivers(call.arms)
    ensures w.items == old(w.items) + Timers(call.arms) && w.timer_watches.xs == old(w.timer_watches.xs) + nodes
    ensures fresh(nodes) && w.timer_watches.nodes == old(w.timer_watches.nodes) + set n | n in nodes
  {
    ghost var arms: seq<Arm> := [];
    nodes := [];
    var left: nat := *;
    while left > 0
      invariant w.Valid() && old(Micros(w.clock.now)) <= Micros(w.clock.now)
      invariant forall k :: 0 <= k < |arms| ==> old(Micros(w.clock.now)) <= arms[k].at <= Micros(w.clock.now)
      invariant ForDrivers(arms)
      invariant w.items == old(w.items) + Timers(arms) && w.timer_watches.xs == old(w.timer_watches.xs) + nodes
      invariant fresh(nodes) && w.timer_watches.nodes == old(w.timer_watches.nodes) + set n | n in nodes
    {
      var delay: nat := *;
      var id: nat := *;
      ghost var node, arm;
      node, arm := w.TimerAdd(delay, Other(id));
      OneMoreArmed(old(w.items), arms, arm);
      OneMoreNode(old(w.timer_watches.xs), old(w.timer_watches.nodes), nodes, node);
      arms, nodes := arms + [arm], nodes + [node];
      left := left - 1;
    }
    call := Call(Micros(w.clock.now), arms);
  }

  /** `t->cb(t->data)`. */
  method RunCallback(w: Watch, d: Device, cb: Callback) returns (ghost call: Call, ghost nodes: seq<Node<Timer>>)
    requires w.Valid() && DelaysOk(d.config)
    modifies d, w`items, w.timer_watches`xs, w.timer_watches`nodes, w.clock
    modifies w.timer_watches.nodes`prev, w.timer_watches.nodes`next
    ensures w.Valid() && Between(old(Micros(w.clock.now)), call) && call.at == Micros(w.clock.now)
    ensures d.View() == Apply(d.config, old(d.View()), cb) && CallOk(d.config, old(d.View()), cb, call)
    ensures w.items == old(w.items) + Timers(call.arms) && w.timer_watches.xs == old(w.timer_watches.xs) + nodes
    ensures fresh(nodes) && w.timer_watches.nodes == old(w.timer_watches.nodes) + set n | n in nodes
  {
    match cb
    case DeviceTick =>
      ghost var arms;
      arms, nodes := d.Tick(w);
      call := Call(Micros(w.clock.now), arms);
    case KeyRelease(key) =>
      d.Key(key, false);
      call, nodes := Call(Micros(w.clock.now), []), [];
    case Other(_) =>
      call, nodes := RunOther(w);
  }

  /** The body of the pass for an expired timer: calls it, then unlinks it. */
  method Fire(w: Watch, d: Device, t: Node<Timer>, ghost p: nat) returns (ghost call: Call)
    requires w.Valid() && DelaysOk(d.config) && p < |w.items| && t == w.timer_watches.xs[p]
    modifies d, w`items, w.timer_watches`xs, w.timer_watches`nodes, w.clock
    modifies w.timer_watches.nodes`prev, w.timer_watches.nodes`next
    ensures w.Valid() && Between(old(Micros(w.clock.now)), call) && call.at == Micros(w.clock.now)
    ensures d.View() == Apply(d.config, old(d.View()), old(w.items[p].cb))
    ensures CallOk(d.config, old(d.View()), old(w.items[p].cb), call)
    ensures w.items == Remove(old(w.items), p) + Timers(call.arms)
    ensures forall k :: p < k < |old(w.timer_watches.xs)| ==>
              k - 1 < |w.timer_watches.xs| && w.timer_watches.xs[k - 1] == old(w.timer_watches.xs[k])
    ensures forall n :: n in w.timer_watches.nodes && n !in old(w.timer_watches.nodes) ==> fresh(n)
  {
    ghost var items, xs := w.items, w.timer_watches.xs;
    ghost var nodes;
    call, nodes := RunCallback(w, d, t.entry.value.cb);
    RemoveAppend(items, p, Timers(call.arms));
    RemoveAppend(xs, p, nodes);
    w.Unlink(t, p);
  }

  /** A turn of the pass at an expired timer: what was behind it on the list
      takes its position. */
  method TurnExpired(w: Watch, d: Device, t: Node<Timer>, ghost s: Walk) returns (ghost s': Walk)
    requires w.Valid() && DelaysOk(d.config) && Normal(s.now)
    requires Called(s, d.View()) && Laid(s, w.items) && s.c == d.config
    requires Clocked(s, Micros(w.clock.now))
    requires s.i < |s.orig| && Less(s.orig[s.i].tv, s.now)
    requires s.Pos() < |w.items| && t == w.timer_watches.xs[s.Pos()]
    modifies d, w`items, w.timer_watches`xs, w.timer_watches`nodes, w.clock
    modifies w.timer_watches.nodes`prev, w.timer_watches.nodes`next
    ensures w.Valid() && Called(s', d.View()) && Laid(s', w.items)
    ensures SamePass(s, s') && Clocked(s', Micros(w.clock.now))
    ensures s'.i == s.i + 1 && s'.j == s.j && s'.Pos() == s.Pos()
    ensures s.Pos() + 1 < |old(w.items)| ==>
              s.Pos() < |w.items| && w.timer_watches.xs[s.Pos()] == old(w.timer_watches.xs[s.Pos() + 1])
    ensures forall n :: n in w.timer_watches.nodes && n !in old(w.timer_watches.nodes) ==> fresh(n)
  {
    ghost var items, dev, p, clk := w.items, d.View(), s.Pos(), Micros(w.clock.now);
    TimerAt(s, items);
    ghost var call := Fire(w, d, t, p);
    FireClocked(s, clk, call);
    ArmedIsLater(call, s.now);
    FireCalled(s, dev, call);
    FireLaid(s, items, call);
    s' := s.Fired(call);
  }

  /** Looks at the timer `t`, at position `s.Pos()`. What was behind it on the list
      is now at position `s'.Pos()`. */
  method Look(w: Watch, d: Device, t: Node<Timer>, now: Timeval, ghost s: Walk) returns (ghost s': Walk)
    requires w.Valid() && DelaysOk(d.config) && Normal(now)
    requires Called(s, d.View()) && Laid(s, w.items) && s.c == d.config && s.now == now
    requires Clocked(s, Micros(w.clock.now))
    requires s.Pos() < |w.items| && t == w.timer_watches.xs[s.Pos()]
    modifies d, w`items, w.timer_watches`xs, w.timer_watches`nodes, w.clock
    modifies w.timer_watches.nodes`prev, w.timer_watches.nodes`next
    ensures w.Valid() && Called(s', d.View()) && Laid(s', w.items)
    ensures SamePass(s, s') && Clocked(s', Micros(w.clock.now))
    ensures s.i < s'.i || (s.i == s'.i && s.calls == s'.calls && s.j < s'.j)
    ensures s.Pos() + 1 == |old(w.items)| ==> s'.i == |s.orig|
    ensures s.Pos() + 1 < |old(w.items)| ==>
              s'.Pos() < |w.items| && w.timer_watches.xs[s'.Pos()] == old(w.timer_watches.xs[s.Pos() + 1])
    ensures forall n :: n in w.timer_watches.nodes && n !in old(w.timer_watches.nodes) ==> fresh(n)
  {
    TimerAt(s, w.items);
    if Less(t.entry.value.tv, now) {
      s' := TurnExpired(w, d, t, s);
    } else {
      s' := LookOn(s, d.View(), w.items, Micros(w.clock.now));
    }
  }

  /** The pass goes on at `t`, with `tmp` behind it, or has come to the end. */
  ghost predicate AtTimer(list: List<Timer>, s: Walk, t: Node<Timer>, tmp: Node<Timer>)
    reads list`xs
  {
    if t == list.head then s.i == |s.orig|
    else s.Pos() < |list.xs| && t == list.xs[s.Pos()] && tmp == list.At(s.Pos() + 1)
  }

  /** The lookahead at `t`. */
  method Behind(list: List<Timer>, ghost s: Walk, t: Node<Timer>) returns (tmp: Node<Timer>)
    requires list.Valid() && (t == list.head ==> s.i == |s.orig|)
    requires t != list.head ==> s.Pos() < |list.xs| && t == list.xs[s.Pos()]
    ensures AtTimer(list, s, t, tmp)
  {
    tmp := t.next;
    if t != list.head {
      list.NextAt(s.Pos());
    }
  }

  /** One turn of the pass, with the lookahead of `list_for_each_entry_safe`. */
  method Turn(w: Watch, d: Device, t: Node<Timer>, tmp: Node<Timer>, now: Timeval, ghost s: Walk)
    returns (t': Node<Timer>, tmp': Node<Timer>, ghost s': Walk)
    requires w.Valid() && DelaysOk(d.config) && Normal(now)
    requires Called(s, d.View()) && Laid(s, w.items) && s.c == d.config && s.now == now
    requires Clocked(s, Micros(w.clock.now))
    requires t != w.timer_watches.head && AtTimer(w.timer_watches, s, t, tmp)
    modifies d, w`items, w.timer_watches`xs, w.timer_watches`nodes, w.clock
    modifies w.timer_watches.nodes`prev, w.timer_watches.nodes`next
    ensures w.Valid() && Called(s', d.View()) && Laid(s', w.items)
    ensures SamePass(s, s') && Clocked(s', Micros(w.clock.now))
    ensures s.i < s'.i || (s.i == s'.i && s.calls == s'.calls && s.j < s'.j)
    ensures AtTimer(w.timer_watches, s', t', tmp')
    ensures forall n :: n in w.timer_watches.nodes && n !in old(w.timer_watches.nodes) ==> fresh(n)
  {
    ghost var end := s.Pos() + 1 == |w.items|;
    w.timer_watches.EndAt(s.Pos() + 1);
    assert end ==> tmp == w.timer_watches.head;
    assert !end ==> tmp == w.timer_watches.xs[s.Pos() + 1] != w.timer_watches.head;
    s' := Look(w, d, t, now, s);
    t' := tmp;
    tmp' := Behind(w.timer_watches, s', t');
  }

  /** The loop of the pass. */
  method WalkTimers(w: Watch, d: Device, now: Timeval, ghost s0: Walk) returns (ghost s: Walk)
    requires w.Valid() && DelaysOk(d.config) && Normal(now)
    requires Called(s0, d.View()) && Laid(s0, w.items) && s0.c == d.config && s0.now == now
    requires Clocked(s0, Micros(w.clock.now)) && s0.Pos() == s0.i == 0 && s0.orig == w.items
    modifies d, w`items, w.timer_watches`xs, w.timer_watches`nodes, w.clock
    modifies w.timer_watches.nodes`prev, w.timer_watches.nodes`next
    ensures w.Valid() && Called(s, d.View()) && Laid(s, w.items) && s.i == |s.orig|
    ensures SamePass(s0, s) && Clocked(s, Micros(w.clock.now))
    ensures forall n :: n in w.timer_watches.nodes && n !in old(w.timer_watches.nodes) ==> fresh(n)
  {
    s := s0;
    var t := w.timer_watches.head.next;
    var tmp := t.next;
    while t != w.timer_watches.head
      invariant w.Valid() && Called(s, d.View()) && Laid(s, w.items)
      invariant forall n :: n in w.timer_watches.nodes && n !in old(w.timer_watches.nodes) ==> fresh(n)
      invariant SamePass(s0, s) && Clocked(s, Micros(w.clock.now))
      invariant AtTimer(w.timer_watches, s, t, tmp)
      decreases t != w.timer_watches.head, |s.orig| - s.i, |s.Armed()| - s.j
    {
      t, tmp, s := Turn(w, d, t, tmp, now, s);
    }
  }

  /** `watch_timer_invoke`. With a clock that does not go back it calls exactly
      the timers pending at its start whose deadline is before `now`, once each
      and in list order, however many timers their callbacks arm meanwhile, and
      whatever these call; and it leaves the others, followed by everything armed,
      on the list. */
  method WatchTimerInvoke(w: Watch, d: Device) returns (ghost now: Timeval, ghost fired: seq<Timer>,
                          ghost calls: seq<Call>)
    requires w.Valid() && DelaysOk(d.config)
    modifies d, w`items, w.timer_watches`xs, w.timer_watches`nodes, w.clock
    modifies w.timer_watches.nodes`prev, w.timer_watches.nodes`next
    ensures w.Valid() && Normal(now)
    ensures old(Micros(w.clock.now)) <= Micros(now) <= Micros(w.clock.now)
    ensures forall i :: 0 <= i < |calls| ==> calls[i].at <= Micros(w.clock.now)
    ensures forall n :: n in w.timer_watches.nodes && n !in old(w.timer_watches.nodes) ==> fresh(n)
    ensures fired == Expired(old(w.items), now)
    ensures forall t :: t in fired <==> t in old(w.items) && Micros(t.tv) < Micros(now)
    ensures w.items == Pending(old(w.items), now) + Timers(ArmedBy(calls))
    ensures CallsOk(d.config, old(d.View()), fired, calls) && Rising(calls, Micros(now))
    ensures d.View() == ApplyAll(d.config, old(d.View()), fired)
    ensures NoneDue(w.items, Micros(now))
    ensures forall i: nat :: d.config.canKey && ReleasedAt(fired, i, 0) ==> !d.fastboot_key
    ensures forall i: nat :: d.config.canKey && ReleasedAt(fired, i, 1) ==> !d.power_key
  {
    ghost var dev := d.View();
    var tv := w.clock.GetTimeOfDay();
    now := tv;
    ghost var s;
    ghost var s0 := Start(d.config, d.View(), w.items, now);
    StartOk(d.config, d.View(), w.items, now);
    s := WalkTimers(w, d, tv, s0);
    ExpiredIff(s0.orig, now);
    FinishOk(s, d.View(), w.items);
    fired, calls := s.fired, s.calls;
    PassLeavesNoneDue(s0.orig, now, calls);
    forall i: nat | d.config.canKey && (ReleasedAt(fired, i, 0) || ReleasedAt(fired, i, 1))
      ensures ReleasedAt(fired, i, 0) ==> !d.fastboot_key
      ensures ReleasedAt(fired, i, 1) ==> !d.power_key
    {
      ReleaseHolds(d.config, dev, fired, i);
    }
  }
}
