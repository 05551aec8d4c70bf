/** The event loop with the device on it: what the timers and the requests do to the
    object is a run of the power sequence. */
module Board {
  import opened Bytes
  import opened PowerSequence
  import opened Timeval
  import opened IntrusiveList
  import opened Watch
  import opened Device
  import opened EventLoop

  const KEY_PRESS_PULSE: nat := 2

  // ---- Armed timers and armed ticks ----------------------------------------

  lemma {:induction false} TickDuesAppend(a: seq<Timer>, b: seq<Timer>)
    ensures TickDues(a + b) == TickDues(a) + TickDues(b)
    decreases |a|
  {
    if a == [] {
      assert a + b == b;
    } else {
      assert (a + b)[1..] == a[1..] + b;
      TickDuesAppend(a[1..], b);
      ConcatAssoc(if a[0].cb == DeviceTick then [Micros(a[0].tv)] else [], TickDues(a[1..]), TickDues(b));
    }
  }

  lemma {:induction false} TickDuesTimers(arms: seq<Arm>)
    ensures TickDues(Timers(arms)) == ArmedDues(arms)
    decreases |arms|
  {
    if arms != [] {
      assert Timers(arms)[1..] == Timers(arms[1..]);
      TickDuesTimers(arms[1..]);
    }
  }

  /** Arming timers behind others arms the ticks among them behind the others' ticks. */
  lemma {:induction false} TicksArmed(ts: seq<Timer>, arms: seq<Arm>)
    ensures TickDues(ts + Timers(arms)) == TickDues(ts) + ArmedDues(arms)
  {
    TickDuesAppend(ts, Timers(arms));
    TickDuesTimers(arms);
  }

  lemma {:induction false} ReleaseSplit(ts: seq<Timer>, now: Timeval)
    requires NoRelease(ts)
    ensures NoRelease(Expired(ts, now)) && NoRelease(Pending(ts, now))
    decreases |ts|
  {
    if ts != [] {
      ReleaseSplit(ts[1..], now);
    }
  }

  /** No callback of a timer arms a key release. */
  lemma {:induction false} ReleaseArms(c: Config, d: Dev, fired: seq<Timer>, calls: seq<Call>)
    requires CallsOk(c, d, fired, calls)
    ensures NoRelease(Timers(ArmedBy(calls)))
    decreases |fired|
  {
    if fired != [] {
      ReleaseArms(c, Apply(c, d, fired[0].cb), fired[1..], calls[1..]);
      TimersAppend(calls[0].arms, ArmedBy(calls[1..]));
    }
  }

  // ---- The object and the sequence -----------------------------------------

  /** The device and its timers are where the sequence is, but for the lines that
      requests change as well. */
  ghost predicate Mirrors(s: Sys, w: Watch, d: Device)
    reads w, w.clock, d
  {
    MirrorsOf(s, TickDues(w.items), d.View(), Micros(w.clock.now))
  }

  ghost predicate MirrorsOf(s: Sys, ticks: seq<int>, d: Dev, clk: int) {
    s.ticks == ticks && SameSequence(s.dev, d) && s.now <= clk
  }

  /** Timers armed when the clock read `clk` or later. */
  ghost predicate Later(arms: seq<Arm>, clk: int) {
    forall k :: 0 <= k < |arms| ==> arms[k].at >= clk
  }

  lemma {:induction false} LaterNotDue(ts: seq<Timer>, arms: seq<Arm>, clk: int, at: int)
    requires NoneDue(ts, at) && Later(arms, clk) && at <= clk
    ensures NoneDue(ts + Timers(arms), at)
  {}

  lemma {:induction false} MoreArmed(ts: seq<Timer>, a: seq<Arm>, b: seq<Arm>)
    ensures ts + Timers(a) + Timers(b) == ts + Timers(a + b)
  {
    TimersAppend(a, b);
    ConcatAssoc(ts, Timers(a), Timers(b));
  }

  lemma {:induction false} NoneArmed(ts: seq<Timer>)
    ensures ts + Timers([]) == ts
  {}

  ghost predicate ArmsNoRelease(arms: seq<Arm>) {
    forall k :: 0 <= k < |arms| ==> !arms[k].cb.KeyRelease?
  }

  lemma {:induction false} ArmedNoRelease(ts: seq<Timer>, arms: seq<Arm>)
    requires NoRelease(ts) && ArmsNoRelease(arms)
    ensures NoRelease(ts + Timers(arms))
  {}

  lemma {:induction false} OnMirrors(c: Config, s: Sys, d: Dev, at: int)
    requires SameSequence(s.dev, d) && at >= s.now && DelaysOk(c)
    ensures var r, t := PowerOn(c, d), Next(c, s, On(at));
            && (forall i :: 0 <= i < |r.armed| ==> r.armed[i] >= 0)
            && t.ticks == s.ticks + ArmedDues(TickArms(r.armed, at)) && t.now == at
            && SameSequence(t.dev, r.dev) && (s.dev == d ==> t.dev == r.dev)
  {
    var start := Stage.START;
    TickDelays(c, d.(stage := start));
    LinesDoNotMatter(c, s.dev.(stage := start), d.(stage := start));
    OneTick(c, d.(stage := start));
    TickArmsDues(PowerOn(c, d).armed, at);
  }

  /** `device_power(device, true)` is a power-on of the sequence. */
  method TurnOn(w: Watch, d: Device, ghost s: Sys) returns (ghost e: Event, ghost arms: seq<Arm>)
    requires w.Valid() && DelaysOk(d.config) && Mirrors(s, w, d)
    modifies d, w`items, w.timer_watches`xs, w.timer_watches`nodes, w.clock
    modifies w.timer_watches.nodes`prev, w.timer_watches.nodes`next
    ensures w.Valid() && e.On? && Enabled(s, e) && Mirrors(Next(d.config, s, e), w, d)
    ensures s.dev == old(d.View()) ==> Next(d.config, s, e).dev == d.View()
    ensures d.View() == PowerOn(d.config, old(d.View())).dev && Micros(w.clock.now) >= old(Micros(w.clock.now))
    ensures w.items == old(w.items) + Timers(arms) && Later(arms, old(Micros(w.clock.now))) && ArmsNoRelease(arms)
    ensures forall n :: n in w.timer_watches.nodes && n !in old(w.timer_watches.nodes) ==> fresh(n)
  {
    ghost var items, dev := w.items, d.View();
    arms := d.PowerOn(w);
    e := On(Micros(w.clock.now));
    OnMirrors(d.config, s, dev, e.at);
    TicksArmed(items, arms);
  }

  /** `device_power(device, false)` is a power-off of the sequence. */
  method TurnOff(w: Watch, d: Device, ghost s: Sys) returns (ghost e: Event)
    requires w.Valid() && Mirrors(s, w, d)
    modifies d
    ensures w.Valid() && e.Off? && Enabled(s, e) && Mirrors(Next(d.config, s, e), w, d)
    ensures d.View() == PowerOff(d.config, old(d.View()))
    ensures s.dev == old(d.View()) ==> Next(d.config, s, e).dev == d.View()
  {
    d.PowerOff();
    e := Off(Micros(w.clock.now));
  }

  /** What a `struct key_press` asks of the key lines: fastboot is key 0, power key 1,
      and state 0 lets go of it. */
  function Pressed(c: Config, d: Dev, key: nat, state: nat): Dev {
    if !c.canKey then d
    else if key == 0 then d.(fastbootKey := state != 0)
    else if key == 1 then d.(powerKey := state != 0)
    else d
  }

  /** `msg_key_press`: changes key lines alone, and arms no tick; a message of another
      length is ignored. */
  method KeyPress(w: Watch, d: Device, data: seq<byte>, ghost s: Sys) returns (ghost arms: seq<Arm>)
    requires w.Valid() && Mirrors(s, w, d)
    modifies d, w`items, w.timer_watches`xs, w.timer_watches`nodes, w.clock
    modifies w.timer_watches.nodes`prev, w.timer_watches.nodes`next
    ensures w.Valid() && Mirrors(s, w, d) && Micros(w.clock.now) >= old(Micros(w.clock.now))
    ensures d.View() == if |data| == 2 then Pressed(d.config, old(d.View()), data[0], data[1]) else old(d.View())
    ensures w.items == old(w.items) + Timers(arms)
    ensures arms == if |data| != 2 || data[1] != 2 then [] else [Arm(100, KeyRelease(data[0]), Micros(w.clock.now))]
    ensures forall n :: n in w.timer_watches.nodes && n !in old(w.timer_watches.nodes) ==> fresh(n)
  {
    ghost var items := w.items;
    NoneArmed(items);
    arms := [];
    if |data| != 2 {
      return;
    }
    var key, state: int := data[0], data[1];
    if state == KEY_PRESS_PULSE {
      d.Key(key, true);
      ghost var t, arm;
      t, arm := w.TimerAdd(100, KeyRelease(key));
      arms := [arm];
      TicksArmed(items, arms);
      assert Timers(arms) == [TimerOf(arm)];
    } else {
      d.Key(key, state != 0);
    }
  }

  /** A pass over the timers is a run of the sequence in which each tick that is due at
      its snapshot `now` of the clock fires once; nothing that was due is left on the
      list. Unless it released a key (`released`) all lines agree, if they did; the last
      release of a key with no tick behind it has let go of it. */
  method TimerPass(w: Watch, d: Device, ghost s: Sys)
    returns (ghost es: seq<Event>, ghost now: Timeval, ghost released: bool)
    requires w.Valid() && DelaysOk(d.config) && Mirrors(s, w, d)
    modifies d, w`items, w.timer_watches`xs, w.timer_watches`nodes, w.clock
    modifies w.timer_watches.nodes`prev, w.timer_watches.nodes`next
    ensures w.Valid() && AllFires(es) && CanRun(d.config, s, es) && Mirrors(Run(d.config, s, es), w, d)
    ensures Normal(now) && old(Micros(w.clock.now)) <= Micros(now) <= Micros(w.clock.now)
    ensures |es| == |TickDues(Expired(old(w.items), now))| && NoneDue(w.items, Micros(now))
    ensures d.View() == ApplyAll(d.config, old(d.View()), Expired(old(w.items), now))
    ensures Pending(old(w.items), now) <= w.items
    ensures !released && s.dev == old(d.View()) ==> Run(d.config, s, es).dev == d.View()
    ensures NoRelease(old(w.items)) ==> NoRelease(w.items) && !released
    ensures forall i: nat :: d.config.canKey && ReleasedAt(Expired(old(w.items), now), i, 0) ==> !d.fastboot_key
    ensures forall i: nat :: d.config.canKey && ReleasedAt(Expired(old(w.items), now), i, 1) ==> !d.power_key
    ensures forall n :: n in w.timer_watches.nodes && n !in old(w.timer_watches.nodes) ==> fresh(n)
  {
    ghost var items, dev := w.items, d.View();
    ghost var fired, calls;
    now, fired, calls := WatchTimerInvoke(w, d);
    released := !NoRelease(fired);
    es := PassIsRun(d.config, s, dev, items, now, calls);
    TicksArmed(Pending(items, now), ArmedBy(calls));
    if NoRelease(items) {
      ReleaseSplit(items, now);
      ReleaseArms(d.config, dev, fired, calls);
    }
  }

  /** A pulse of a key, and a pass over the timers after it: once the release is due, the
      pass leaves the key up, whatever else it calls; until then the release stays on
      the list. */
  method Pulse(w: Watch, d: Device, key: byte, ghost s: Sys) returns (ghost pressed: int, ghost now: Timeval)
    requires w.Valid() && DelaysOk(d.config) && Mirrors(s, w, d) && d.config.canKey
    modifies d, w`items, w.timer_watches`xs, w.timer_watches`nodes, w.clock
    modifies w.timer_watches.nodes`prev, w.timer_watches.nodes`next
    ensures w.Valid() && old(Micros(w.clock.now)) <= pressed <= Micros(now) <= Micros(w.clock.now)
    ensures Micros(now) > pressed + 100_000 && key == 0 ==> !d.fastboot_key
    ensures Micros(now) > pressed + 100_000 && key == 1 ==> !d.power_key
    ensures Micros(now) <= pressed + 100_000 ==> exists t :: t in w.items && t.cb == KeyRelease(key)
  {
    ghost var items := w.items;
    ghost var arms := KeyPress(w, d, [key, 2], s);
    pressed := Micros(w.clock.now);
    ghost var t := TimerOf(Arm(100, KeyRelease(key), pressed));
    assert Timers(arms) == [t];
    now := PulsePass(w, d, items, t);
  }

  /** The pass behind a release that was armed last. */
  method PulsePass(w: Watch, d: Device, ghost items: seq<Timer>, ghost t: Timer) returns (ghost now: Timeval)
    requires w.Valid() && DelaysOk(d.config) && d.config.canKey
    requires w.items == items + [t] && t.cb.KeyRelease?
    modifies d, w`items, w.timer_watches`xs, w.timer_watches`nodes, w.clock
    modifies w.timer_watches.nodes`prev, w.timer_watches.nodes`next
    ensures w.Valid() && Normal(now) && old(Micros(w.clock.now)) <= Micros(now) <= Micros(w.clock.now)
    ensures Micros(now) > Micros(t.tv) && t.cb == KeyRelease(0) ==> !d.fastboot_key
    ensures Micros(now) > Micros(t.tv) && t.cb == KeyRelease(1) ==> !d.power_key
    ensures Micros(now) <= Micros(t.tv) ==> t in w.items
  {
    ghost var fired, calls;
    now, fired, calls := WatchTimerInvoke(w, d);
    MacrosAreArithmetic(t.tv, now);
    SplitAppend(items, t, now);
    if Micros(now) > Micros(t.tv) {
      ghost var last := |fired| - 1;
      assert fired[last] == t && forall key :: t.cb == KeyRelease(key) ==> ReleasedAt(fired, last, key);
    }
  }

  // ---- The whole loop ------------------------------------------------------

  lemma {:induction false} RunAppend(c: Config, s: Sys, a: seq<Event>, b: seq<Event>)
    requires CanRun(c, s, a) && CanRun(c, Run(c, s, a), b)
    ensures CanRun(c, s, a + b) && Run(c, s, a + b) == Run(c, Run(c, s, a), b)
    decreases |a|
  {
    if a == [] {
      assert a + b == b;
    } else {
      assert (a + b)[1..] == a[1..] + b;
      RunAppend(c, Next(c, s, a[0]), a[1..], b);
    }
  }

  lemma {:induction false} RunSnoc(c: Config, s: Sys, es: seq<Event>, e: Event)
    requires CanRun(c, s, es) && Enabled(Run(c, s, es), e)
    ensures CanRun(c, s, es + [e]) && Run(c, s, es + [e]) == Next(c, Run(c, s, es), e)
  {
    RunOne(c, Run(c, s, es), e);
    RunAppend(c, s, es, [e]);
  }

  /** What a handler may ask of the device: power, USB power (which booting an image
      switches off too), or a key message. */
  datatype Request = Power(on: bool) | Vbus(on: bool) | Press(data: seq<byte>)

  /** What happens to the device: a callback of a timer, or a request. */
  datatype Act = Called(cb: Callback) | Served(r: Request)

  function Effect(c: Config, d: Dev, a: Act): Dev {
    match a
    case Called(cb) => Apply(c, d, cb)
    case Served(Power(on)) => if on then PowerOn(c, d).dev else PowerOff(c, d)
    case Served(Vbus(on)) => d.(usb := on)
    case Served(Press(data)) => if |data| == 2 then Pressed(c, d, data[0], data[1]) else d
  }

  function Effects(c: Config, d: Dev, acts: seq<Act>): Dev {
    if acts == [] then d else Effect(c, Effects(c, d, acts[..|acts| - 1]), acts[|acts| - 1])
  }

  /** The requests among the acts, in order. */
  function ServedIn(acts: seq<Act>): seq<Request> {
    if acts == [] then []
    else ServedIn(acts[..|acts| - 1]) + if acts[|acts| - 1].Served? then [acts[|acts| - 1].r] else []
  }

  function Calls(fired: seq<Timer>): (acts: seq<Act>)
    ensures |acts| == |fired| && forall i :: 0 <= i < |fired| ==> acts[i] == Called(fired[i].cb)
  {
    seq(|fired|, i requires 0 <= i < |fired| => Called(fired[i].cb))
  }

  lemma {:induction false} ActSnoc(c: Config, d: Dev, acts: seq<Act>, a: Act)
    ensures Effects(c, d, acts + [a]) == Effect(c, Effects(c, d, acts), a)
    ensures ServedIn(acts + [a]) == ServedIn(acts) + if a.Served? then [a.r] else []
  {
    assert (acts + [a])[..|acts|] == acts;
  }

  lemma {:induction false} CallsCons(fired: seq<Timer>)
    requires fired != []
    ensures Calls(fired) == [Called(fired[0].cb)] + Calls(fired[1..])
  {}

  /** The callbacks of a pass, one after the other. */
  lemma {:induction false} CallsAct(c: Config, d: Dev, acts: seq<Act>, fired: seq<Timer>)
    ensures Effects(c, d, acts + Calls(fired)) == ApplyAll(c, Effects(c, d, acts), fired)
    ensures ServedIn(acts + Calls(fired)) == ServedIn(acts)
    decreases |fired|
  {
    if fired == [] {
      assert acts + [] == acts;
    } else {
      var a, rest := Called(fired[0].cb), Calls(fired[1..]);
      ActSnoc(c, d, acts, a);
      CallsAct(c, d, acts + [a], fired[1..]);
      CallsCons(fired);
      ConcatAssoc(acts, [a], rest);
    }
  }

  /** What was asked of the power by requests, and by events. */
  function Asked(rs: seq<Request>): seq<bool> {
    if rs == [] then [] else Asked(rs[..|rs| - 1]) + if rs[|rs| - 1].Power? then [rs[|rs| - 1].on] else []
  }

  lemma {:induction false} AskedSnoc(rs: seq<Request>, r: Request)
    ensures Asked(rs + [r]) == Asked(rs) + if r.Power? then [r.on] else []
  {
    assert (rs + [r])[..|rs|] == rs;
  }

  /** The requests of all turns, in order. */
  function Flatten(turns: seq<seq<Request>>): seq<Request> {
    if turns == [] then [] else Flatten(turns[..|turns| - 1]) + turns[|turns| - 1]
  }

  ghost predicate PowerOnly(rs: seq<Request>) {
    forall i :: 0 <= i < |rs| ==> rs[i].Power?
  }

  ghost predicate PowerOnlyIn(turns: seq<seq<Request>>) {
    forall i :: 0 <= i < |turns| ==> PowerOnly(turns[i])
  }

  function Powers(es: seq<Event>): seq<bool> {
    if es == [] then []
    else Powers(es[..|es| - 1]) + if es[|es| - 1].Fire? then [] else [es[|es| - 1].On?]
  }

  lemma {:induction false} FiresAskNothing(a: seq<Event>, b: seq<Event>)
    requires AllFires(b)
    ensures Powers(a + b) == Powers(a)
    decreases |b|
  {
    if b == [] {
      assert a + b == a;
    } else {
      assert (a + b)[..|a + b| - 1] == a + b[..|b| - 1];
      FiresAskNothing(a, b[..|b| - 1]);
    }
  }

  /** What has happened: the acts on the device, the events of the sequence, whether a
      key or USB was switched other than by the sequence, and the clock where each turn
      began. */
  datatype Log = Log(acts: seq<Act>, es: seq<Event>, touched: bool, starts: seq<int>)

  /** `b` has the events of `a` and behind them some that are no ticks. */
  ghost predicate NoMoreFires(a: seq<Event>, b: seq<Event>) {
    a <= b && forall i :: |a| <= i < |b| ==> !b[i].Fire?
  }

  /** What the loop keeps: the device is as the acts on it have left it, and the events
      so far are a run from the initial state to where it is, with the power requests
      that were made, in order; as long as nothing else touched them all lines agree. */
  ghost predicate Tracks(c: Config, from: int, log: Log, w: Watch, d: Device)
    reads w, w.clock, d
  {
    TracksOf(c, from, log, TickDues(w.items), d.View(), Micros(w.clock.now))
  }

  ghost predicate TracksOf(c: Config, from: int, log: Log, ticks: seq<int>, d: Dev, clk: int) {
    && d == Effects(c, OffAtStart, log.acts)
    && CanRun(c, Initial(from), log.es) && Powers(log.es) == Asked(ServedIn(log.acts))
    && MirrorsOf(Run(c, Initial(from), log.es), ticks, d, clk)
    && (!log.touched ==> Run(c, Initial(from), log.es).dev == d)
  }

  lemma {:induction false} PowerTracks(c: Config, from: int, log: Log, ticks: seq<int>, d: Dev, clk: int, on: bool,
                                       e: Event, ticks': seq<int>, d': Dev, clk': int)
    requires TracksOf(c, from, log, ticks, d, clk) && e.On? == on && e.Off? == !on
    requires var s := Run(c, Initial(from), log.es);
             && Enabled(s, e) && MirrorsOf(Next(c, s, e), ticks', d', clk')
             && (s.dev == d ==> Next(c, s, e).dev == d')
    requires d' == if on then PowerOn(c, d).dev else PowerOff(c, d)
    ensures TracksOf(c, from, log.(acts := log.acts + [Served(Power(on))], es := log.es + [e]), ticks', d', clk')
  {
    ActSnoc(c, OffAtStart, log.acts, Served(Power(on)));
    AskedSnoc(ServedIn(log.acts), Power(on));
    RunSnoc(c, Initial(from), log.es, e);
    assert (log.es + [e])[..|log.es|] == log.es;
  }

  lemma {:induction false} OtherTracks(c: Config, from: int, log: Log, ticks: seq<int>, d: Dev, clk: int, r: Request,
                                       ticks': seq<int>, d': Dev, clk': int)
    requires TracksOf(c, from, log, ticks, d, clk) && !r.Power? && d' == Effect(c, d, Served(r))
    requires MirrorsOf(Run(c, Initial(from), log.es), ticks', d', clk')
    ensures TracksOf(c, from, log.(acts := log.acts + [Served(r)], touched := true), ticks', d', clk')
  {
    ActSnoc(c, OffAtStart, log.acts, Served(r));
    AskedSnoc(ServedIn(log.acts), r);
    assert Asked(ServedIn(log.acts)) + [] == Asked(ServedIn(log.acts));
  }

  lemma {:induction false} PassTracks(c: Config, from: int, log: Log, ticks: seq<int>, d: Dev, clk: int,
                                      es: seq<Event>, fired: seq<Timer>, touched: bool, start: int,
                                      ticks': seq<int>, d': Dev, clk': int)
    requires TracksOf(c, from, log, ticks, d, clk) && AllFires(es) && d' == ApplyAll(c, d, fired)
    requires var s := Run(c, Initial(from), log.es);
             && CanRun(c, s, es) && MirrorsOf(Run(c, s, es), ticks', d', clk')
             && (!touched && s.dev == d ==> Run(c, s, es).dev == d')
    ensures TracksOf(c, from, Log(log.acts + Calls(fired), log.es + es, log.touched || touched, log.starts + [start]),
                     ticks', d', clk')
  {
    CallsAct(c, OffAtStart, log.acts, fired);
    RunAppend(c, Initial(from), log.es, es);
    FiresAskNothing(log.es, es);
  }

  /** The log goes on with these requests, and no ticks. */
  ghost predicate Adds(log: Log, log': Log, rs: seq<Request>) {
    ServedIn(log'.acts) == ServedIn(log.acts) + rs && log.acts <= log'.acts && NoMoreFires(log.es, log'.es)
  }

  /** The log goes on with these requests, which armed these timers: nothing but power
      requests leaves the other lines alone and arms no release. */
  ghost predicate Handled(log: Log, log': Log, rs: seq<Request>, arms: seq<Arm>, clk: int) {
    && Adds(log, log', rs) && log'.starts == log.starts && Later(arms, clk)
    && (PowerOnly(rs) ==> log'.touched == log.touched && ArmsNoRelease(arms))
  }

  lemma {:induction false} HandledNone(log: Log, clk: int)
    ensures Handled(log, log, [], [], clk)
  {}

  lemma {:induction false} HandledThen(a: Log, b: Log, c: Log, x: seq<Request>, y: seq<Request>, arms: seq<Arm>,
                                       more: seq<Arm>, clk: int, clk': int)
    requires Handled(a, b, x, arms, clk) && Handled(b, c, y, more, clk') && clk <= clk'
    ensures Handled(a, c, x + y, arms + more, clk)
  {
    AddsThen(a, b, c, x, y);
    if PowerOnly(x + y) {
      assert forall i :: 0 <= i < |x| ==> x[i] == (x + y)[i];
      assert forall i :: 0 <= i < |y| ==> y[i] == (x + y)[|x| + i];
    }
  }

  lemma {:induction false} AddsOne(log: Log, r: Request, es: seq<Event>)
    requires forall i :: 0 <= i < |es| ==> !es[i].Fire?
    ensures forall touched :: Adds(log, Log(log.acts + [Served(r)], log.es + es, touched, log.starts), [r])
    ensures es == [] ==> log.es + es == log.es
  {
    assert (log.acts + [Served(r)])[..|log.acts|] == log.acts;
  }

  lemma {:induction false} AddsThen(a: Log, b: Log, c: Log, x: seq<Request>, y: seq<Request>)
    requires Adds(a, b, x) && Adds(b, c, y)
    ensures Adds(a, c, x + y)
  {
    ConcatAssoc(ServedIn(a.acts), x, y);
    forall i | |a.es| <= i < |c.es|
      ensures !c.es[i].Fire?
    {
      if i < |b.es| {
        assert c.es[i] == b.es[i];
      }
    }
  }

  /** The timers' part of a turn. */
  method RunTimers(w: Watch, d: Device, ghost from: int, ghost log: Log)
    returns (ghost log': Log, ghost es: seq<Event>, ghost now: Timeval)
    requires w.Valid() && DelaysOk(d.config) && Tracks(d.config, from, log, w, d)
    modifies d, w`items, w.timer_watches`xs, w.timer_watches`nodes, w.clock
    modifies w.timer_watches.nodes`prev, w.timer_watches.nodes`next
    ensures w.Valid() && Tracks(d.config, from, log', w, d)
    ensures log'.acts == log.acts + Calls(Expired(old(w.items), now))
    ensures log'.starts == log.starts + [old(Micros(w.clock.now))] && Pending(old(w.items), now) <= w.items
    ensures AllFires(es) && |es| == |TickDues(Expired(old(w.items), now))| && log'.es == log.es + es
    ensures old(Micros(w.clock.now)) <= Micros(now) <= Micros(w.clock.now) && NoneDue(w.items, Micros(now))
    ensures NoRelease(old(w.items)) ==> NoRelease(w.items) && log'.touched == log.touched
    ensures forall n :: n in w.timer_watches.nodes && n !in old(w.timer_watches.nodes) ==> fresh(n)
  {
    ghost var clk, items, dev, released := Micros(w.clock.now), w.items, d.View(), false;
    es, now, released := TimerPass(w, d, Run(d.config, Initial(from), log.es));
    ghost var fired := Expired(items, now);
    log' := Log(log.acts + Calls(fired), log.es + es, log.touched || released, log.starts + [clk]);
    PassTracks(d.config, from, log, TickDues(items), dev, clk, es, fired, released, clk,
               TickDues(w.items), d.View(), Micros(w.clock.now));
  }

  method HandleOn(w: Watch, d: Device, ghost from: int, ghost log: Log) returns (ghost log': Log, ghost arms: seq<Arm>)
    requires w.Valid() && DelaysOk(d.config) && Tracks(d.config, from, log, w, d)
    modifies d, w`items, w.timer_watches`xs, w.timer_watches`nodes, w.clock
    modifies w.timer_watches.nodes`prev, w.timer_watches.nodes`next
    ensures w.Valid() && Tracks(d.config, from, log', w, d) && Adds(log, log', [Power(true)])
    ensures log'.starts == log.starts && log'.touched == log.touched
    ensures Micros(w.clock.now) >= old(Micros(w.clock.now))
    ensures w.items == old(w.items) + Timers(arms) && Later(arms, old(Micros(w.clock.now))) && ArmsNoRelease(arms)
    ensures forall n :: n in w.timer_watches.nodes && n !in old(w.timer_watches.nodes) ==> fresh(n)
  {
    ghost var ticks, dev, clk := TickDues(w.items), d.View(), Micros(w.clock.now);
    ghost var e;
    e, arms := TurnOn(w, d, Run(d.config, Initial(from), log.es));
    PowerTracks(d.config, from, log, ticks, dev, clk, true, e, TickDues(w.items), d.View(), Micros(w.clock.now));
    AddsOne(log, Power(true), [e]);
    log' := log.(acts := log.acts + [Served(Power(true))], es := log.es + [e]);
  }

  method HandleOff(w: Watch, d: Device, ghost from: int, ghost log: Log) returns (ghost log': Log)
    requires w.Valid() && Tracks(d.config, from, log, w, d)
    modifies d
    ensures w.Valid() && Tracks(d.config, from, log', w, d) && Adds(log, log', [Power(false)])
    ensures log'.starts == log.starts && log'.touched == log.touched
  {
    ghost var ticks, dev, clk := TickDues(w.items), d.View(), Micros(w.clock.now);
    ghost var e := TurnOff(w, d, Run(d.config, Initial(from), log.es));
    PowerTracks(d.config, from, log, ticks, dev, clk, false, e, ticks, d.View(), clk);
    AddsOne(log, Power(false), [e]);
    log' := log.(acts := log.acts + [Served(Power(false))], es := log.es + [e]);
  }

  method HandlePress(w: Watch, d: Device, data: seq<byte>, ghost from: int, ghost log: Log)
    returns (ghost log': Log, ghost arms: seq<Arm>)
    requires w.Valid() && DelaysOk(d.config) && Tracks(d.config, from, log, w, d)
    modifies d, w`items, w.timer_watches`xs, w.timer_watches`nodes, w.clock
    modifies w.timer_watches.nodes`prev, w.timer_watches.nodes`next
    ensures w.Valid() && Tracks(d.config, from, log', w, d) && Adds(log, log', [Press(data)])
    ensures log'.starts == log.starts && Micros(w.clock.now) >= old(Micros(w.clock.now))
    ensures w.items == old(w.items) + Timers(arms)
    ensures arms == if |data| != 2 || data[1] != 2 then [] else [Arm(100, KeyRelease(data[0]), Micros(w.clock.now))]
    ensures forall n :: n in w.timer_watches.nodes && n !in old(w.timer_watches.nodes) ==> fresh(n)
  {
    ghost var items, dev, clk := w.items, d.View(), Micros(w.clock.now);
    arms := KeyPress(w, d, data, Run(d.config, Initial(from), log.es));
    OtherTracks(d.config, from, log, TickDues(items), dev, clk, Press(data), TickDues(w.items), d.View(),
                Micros(w.clock.now));
    AddsOne(log, Press(data), []);
    log' := log.(acts := log.acts + [Served(Press(data))], touched := true);
  }

  method HandleVbus(w: Watch, d: Device, on: bool, ghost from: int, ghost log: Log) returns (ghost log': Log)
    requires w.Valid() && DelaysOk(d.config) && Tracks(d.config, from, log, w, d)
    modifies d
    ensures w.Valid() && Tracks(d.config, from, log', w, d) && Adds(log, log', [Vbus(on)])
    ensures log'.starts == log.starts
  {
    ghost var dev := d.View();
    d.Usb(on);
    OtherTracks(d.config, from, log, TickDues(w.items), dev, Micros(w.clock.now), Vbus(on), TickDues(w.items), d.View(),
                Micros(w.clock.now));
    AddsOne(log, Vbus(on), []);
    log' := log.(acts := log.acts + [Served(Vbus(on))], touched := true);
  }

  /** A handler's part of a turn. */
  method HandleRequest(w: Watch, d: Device, r: Request, ghost from: int, ghost log: Log)
    returns (ghost log': Log, ghost arms: seq<Arm>)
    requires w.Valid() && DelaysOk(d.config) && Tracks(d.config, from, log, w, d)
    modifies d, w`items, w.timer_watches`xs, w.timer_watches`nodes, w.clock
    modifies w.timer_watches.nodes`prev, w.timer_watches.nodes`next
    ensures w.Valid() && Tracks(d.config, from, log', w, d)
    ensures Handled(log, log', [r], arms, old(Micros(w.clock.now)))
    ensures Micros(w.clock.now) >= old(Micros(w.clock.now)) && w.items == old(w.items) + Timers(arms)
    ensures forall n :: n in w.timer_watches.nodes && n !in old(w.timer_watches.nodes) ==> fresh(n)
  {
    match r {
      case Power(on) =>
        if on {
          log', arms := HandleOn(w, d, from, log);
        } else {
          NoneArmed(w.items);
          arms := [];
          log' := HandleOff(w, d, from, log);
        }
      case Press(data) =>
        log', arms := HandlePress(w, d, data, from, log);
      case Vbus(on) =>
        NoneArmed(w.items);
        arms := [];
        log' := HandleVbus(w, d, on, from, log);
    }
  }

  /** A request behind those handled since `log0`, with `items0` on the list. */
  method HandleNext(w: Watch, d: Device, r: Request, ghost from: int, ghost log0: Log, ghost log: Log,
                    ghost rs: seq<Request>, ghost items0: seq<Timer>, ghost arms: seq<Arm>, ghost clk: int)
    returns (ghost log': Log, ghost arms': seq<Arm>)
    requires w.Valid() && DelaysOk(d.config) && Tracks(d.config, from, log, w, d)
    requires Handled(log0, log, rs, arms, clk) && Micros(w.clock.now) >= clk && w.items == items0 + Timers(arms)
    modifies d, w`items, w.timer_watches`xs, w.timer_watches`nodes, w.clock
    modifies w.timer_watches.nodes`prev, w.timer_watches.nodes`next
    ensures w.Valid() && Tracks(d.config, from, log', w, d)
    ensures Handled(log0, log', rs + [r], arms', clk) && Micros(w.clock.now) >= clk && w.items == items0 + Timers(arms')
    ensures forall n :: n in w.timer_watches.nodes && n !in old(w.timer_watches.nodes) ==> fresh(n)
  {
    ghost var clk1, more := Micros(w.clock.now), [];
    log', more := HandleRequest(w, d, r, from, log);
    HandledThen(log0, log, log', rs, [r], arms, more, clk, clk1);
    MoreArmed(items0, arms, more);
    arms' := arms + more;
  }

  /** The handlers' part of a turn. */
  method HandleRequests(w: Watch, d: Device, rs: seq<Request>, ghost from: int, ghost log: Log)
    returns (ghost log': Log, ghost arms: seq<Arm>)
    requires w.Valid() && DelaysOk(d.config) && Tracks(d.config, from, log, w, d)
    modifies d, w`items, w.timer_watches`xs, w.timer_watches`nodes, w.clock
    modifies w.timer_watches.nodes`prev, w.timer_watches.nodes`next
    ensures w.Valid() && Tracks(d.config, from, log', w, d)
    ensures Handled(log, log', rs, arms, old(Micros(w.clock.now))) && w.items == old(w.items) + Timers(arms)
    ensures forall n :: n in w.timer_watches.nodes && n !in old(w.timer_watches.nodes) ==> fresh(n)
  {
    ghost var items, clk, done: seq<Request> := w.items, Micros(w.clock.now), [];
    log', arms := log, [];
    var i := 0;
    NoneArmed(items);
    HandledNone(log, clk);
    while i < |rs|
      invariant 0 <= i <= |rs| && w.Valid() && Tracks(d.config, from, log', w, d)
      invariant done == rs[..i] && Handled(log, log', done, arms, clk)
      invariant Micros(w.clock.now) >= clk && w.items == items + Timers(arms)
      invariant forall n :: n in w.timer_watches.nodes && n !in old(w.timer_watches.nodes) ==> fresh(n)
    {
      TakeSnoc(rs, i);
      log', arms := HandleNext(w, d, rs[i], from, log, log', done, items, arms, clk);
      done := done + [rs[i]];
      i := i + 1;
    }
    TakeAll(rs);
  }

  lemma {:induction false} TakeSnoc<T>(s: seq<T>, i: nat)
    requires i < |s|
    ensures s[..i + 1] == s[..i] + [s[i]]
  {}

  lemma {:induction false} TakeAll<T>(s: seq<T>)
    ensures s[..|s|] == s
  {}

  /** A turn: the timers, then the handlers. Every tick that is due at the snapshot
      `now` fires, once, and nothing that was due when the turn began is left. */
  method ServeTurn(w: Watch, d: Device, rs: seq<Request>, ghost from: int, ghost log: Log)
    returns (ghost log': Log, ghost es: seq<Event>, ghost now: Timeval)
    requires w.Valid() && DelaysOk(d.config) && Tracks(d.config, from, log, w, d)
    modifies d, w`items, w.timer_watches`xs, w.timer_watches`nodes, w.clock
    modifies w.timer_watches.nodes`prev, w.timer_watches.nodes`next
    ensures w.Valid() && Tracks(d.config, from, log', w, d)
    ensures log.acts + Calls(Expired(old(w.items), now)) <= log'.acts
    ensures ServedIn(log'.acts) == ServedIn(log.acts) + rs && log'.starts == log.starts + [old(Micros(w.clock.now))]
    ensures AllFires(es) && |es| == |TickDues(Expired(old(w.items), now))| && NoMoreFires(log.es + es, log'.es)
    ensures old(Micros(w.clock.now)) <= Micros(now) && NoneDue(w.items, Micros(now))
    ensures NoRelease(old(w.items)) && PowerOnly(rs) ==> NoRelease(w.items) && log'.touched == log.touched
    ensures forall n :: n in w.timer_watches.nodes && n !in old(w.timer_watches.nodes) ==> fresh(n)
  {
    ghost var items := w.items;
    log', es, now := RunTimers(w, d, from, log);
    CallsAct(d.config, OffAtStart, log.acts, Expired(items, now));
    ghost var items1, clk1, arms := w.items, Micros(w.clock.now), [];
    log', arms := HandleRequests(w, d, rs, from, log');
    LaterNotDue(items1, arms, clk1, Micros(now));
    if NoRelease(items1) && ArmsNoRelease(arms) {
      ArmedNoRelease(items1, arms);
    }
  }

  lemma {:induction false} Idle(c: Config, from: int)
    ensures TracksOf(c, from, Log([], [], false, []), [], OffAtStart, from)
  {}

  /** What follows for the device: a started sequence has a tick armed, and as long as
      nothing else touched them its key lines follow the stage. */
  lemma {:induction false} TracksKeepsInv(c: Config, from: int, log: Log, ticks: seq<int>, d: Dev, clk: int)
    requires TracksOf(c, from, log, ticks, d, clk)
    ensures Started(d.stage) ==> ticks != []
    ensures !log.touched ==> LinesFollowStage(c, d)
  {
    LineInvariant(c, from, log.es);
  }

  /** What the loop has done in these turns, when it began with `items0` on the list. */
  ghost predicate InService(log: Log, turns: seq<seq<Request>>, items0: seq<Timer>, items: seq<Timer>) {
    && ServedIn(log.acts) == Flatten(turns) && |log.starts| == |turns|
    && (turns != [] ==> NoneDue(items, log.starts[|turns| - 1]))
    && (NoRelease(items0) && PowerOnlyIn(turns) ==> NoRelease(items) && !log.touched)
  }

  lemma {:induction false} ServiceNext(log: Log, log': Log, turns: seq<seq<Request>>, rs: seq<Request>,
                                       items0: seq<Timer>, items: seq<Timer>, items': seq<Timer>, start: int, now: int)
    requires InService(log, turns, items0, items) && ServedIn(log'.acts) == ServedIn(log.acts) + rs
    requires log'.starts == log.starts + [start] && start <= now && NoneDue(items', now)
    requires NoRelease(items) && PowerOnly(rs) ==> NoRelease(items') && log'.touched == log.touched
    ensures InService(log', turns + [rs], items0, items')
  {
    assert (turns + [rs])[..|turns|] == turns;
    if PowerOnlyIn(turns + [rs]) {
      assert (turns + [rs])[|turns|] == rs;
      assert forall i :: 0 <= i < |turns| ==> (turns + [rs])[i] == turns[i];
    }
  }

  /** The turns of the loop. */
  method RunTurns(w: Watch, d: Device, turns: seq<seq<Request>>) returns (ghost log: Log)
    requires w.Valid() && DelaysOk(d.config) && d.View() == OffAtStart && TickDues(w.items) == []
    modifies d, w`items, w.timer_watches`xs, w.timer_watches`nodes, w.clock
    modifies w.timer_watches.nodes`prev, w.timer_watches.nodes`next
    ensures w.Valid() && Tracks(d.config, old(Micros(w.clock.now)), log, w, d)
    ensures InService(log, turns, old(w.items), w.items)
  {
    ghost var from, items0 := Micros(w.clock.now), w.items;
    log := Log([], [], false, []);
    Idle(d.config, from);
    var i := 0;
    while i < |turns|
      invariant 0 <= i <= |turns| && w.Valid() && Tracks(d.config, from, log, w, d)
      invariant InService(log, turns[..i], items0, w.items)
      invariant forall n :: n in w.timer_watches.nodes && n !in old(w.timer_watches.nodes) ==> fresh(n)
    {
      ghost var was, items, start, es, now := log, w.items, Micros(w.clock.now), [], Timeval(0, 0);
      TakeSnoc(turns, i);
      log, es, now := ServeTurn(w, d, turns[i], from, log);
      ServiceNext(was, log, turns[..i], turns[i], items0, items, w.items, start, Micros(now));
      i := i + 1;
    }
    TakeAll(turns);
  }

  /** `watch_main_loop` with the handlers that act on the device: any number of turns,
      each a timer pass and then any requests, with any timers of drivers on the list.
      Whatever happens, the device is as the callbacks and the requests have left it; it
      goes through a run of the power sequence, with its ticks on the list, and none of
      them due since before the last turn began. */
  method Serve(w: Watch, d: Device, turns: seq<seq<Request>>) returns (ghost log: Log)
    requires w.Valid() && DelaysOk(d.config) && d.View() == OffAtStart && TickDues(w.items) == []
    modifies d, w`items, w.timer_watches`xs, w.timer_watches`nodes, w.clock
    modifies w.timer_watches.nodes`prev, w.timer_watches.nodes`next
    ensures w.Valid() && Tracks(d.config, old(Micros(w.clock.now)), log, w, d)
    ensures InService(log, turns, old(w.items), w.items)
    ensures Started(d.stage) ==> TickDues(w.items) != []
    ensures !log.touched ==> LinesFollowStage(d.config, d.View())
  {
    ghost var from := Micros(w.clock.now);
    log := RunTurns(w, d, turns);
    TracksKeepsInv(d.config, from, log, TickDues(w.items), d.View(), Micros(w.clock.now));
  }
}
