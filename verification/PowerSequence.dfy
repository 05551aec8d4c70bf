/** The board power sequence of `device.c`: what each tick does, and what holds
    over all runs of requests and ticks, stale ticks included. */
module PowerSequence {
  import opened Bytes

  // ---- The state machine ---------------------------------------------------

  datatype Stage = START | CONNECT | PRESS | RELEASE_PWR | RELEASE_FASTBOOT | RUNNING

  /** What a board's description and its controller provide. */
  datatype Config = Config(fastbootKeyTimeout: nat, hasPowerKey: bool, canPower: bool, canKey: bool)

  /** The sequence state and what the controller was last told. */
  datatype Dev = Dev(stage: Stage, power: bool, usb: bool, fastbootKey: bool, powerKey: bool)

  const OffAtStart := Dev(START, false, false, false, false)

  /** `fastboot_key_timeout * 1000`, an unsigned product passed as an `int`. */
  function TimeoutMs(timeout: nat): int {
    ToInt32(timeout * 1000)
  }

  /** The product is the timeout in milliseconds up to 2147483 seconds only. */
  lemma {:induction false} TimeoutExactIff(timeout: nat)
    ensures TimeoutMs(timeout) == 1000 * timeout <==> timeout <= 2_147_483
  {}

  ghost predicate ConfigOk(c: Config) {
    c.fastbootKeyTimeout <= 2_147_483
  }

  /** The device after a tick, and the delays of the ticks it armed, in ms. */
  datatype Effect = Effect(dev: Dev, armed: seq<int>)

  function SetFastbootKey(c: Config, d: Dev, on: bool): Dev {
    if c.canKey then d.(fastbootKey := on) else d
  }

  function SetPowerKey(c: Config, d: Dev, on: bool): Dev {
    if c.canKey then d.(powerKey := on) else d
  }

  /** The lines after a tick, in the stage it is in. */
  function Lines(c: Config, d: Dev): Dev {
    match d.stage
    case START =>
      var e := if c.fastbootKeyTimeout != 0 then SetFastbootKey(c, d, true) else d;
      if c.hasPowerKey then SetPowerKey(c, e, false) else e
    case CONNECT => d.(power := true, usb := true)
    case PRESS => SetPowerKey(c, d, true)
    case RELEASE_PWR => SetPowerKey(c, d, false)
    case RELEASE_FASTBOOT => SetFastbootKey(c, d, false)
    case RUNNING => d
  }

  /** The stage that a tick goes on to. */
  function StageAfter(c: Config, st: Stage): Stage {
    match st
    case START => CONNECT
    case CONNECT => if c.hasPowerKey then PRESS else if c.fastbootKeyTimeout != 0 then RELEASE_FASTBOOT else RUNNING
    case PRESS => RELEASE_PWR
    case RELEASE_PWR => if c.fastbootKeyTimeout != 0 then RELEASE_FASTBOOT else RUNNING
    case RELEASE_FASTBOOT => RUNNING
    case RUNNING => RUNNING
  }

  /** The delays of the ticks armed on entering a stage, in ms. */
  function DelaysOf(c: Config, st: Stage): seq<int> {
    match st
    case START => []
    case CONNECT => [10]
    case PRESS => [250]
    case RELEASE_PWR => [100]
    case RELEASE_FASTBOOT => [TimeoutMs(c.fastbootKeyTimeout)]
    case RUNNING => []
  }

  /** `device_tick`. */
  function Tick(c: Config, d: Dev): Effect {
    var next := StageAfter(c, d.stage);
    Effect(Lines(c, d).(stage := next), DelaysOf(c, next))
  }

  /** `device_power_on`: restarts the sequence, leaving any armed tick armed. */
  function PowerOn(c: Config, d: Dev): Effect {
    if c.canPower then Tick(c, d.(stage := START)) else Effect(d, [])
  }

  /** `device_power_off`: leaves the sequence state alone. */
  function PowerOff(c: Config, d: Dev): Dev {
    if c.canPower then d.(power := false) else d
  }

  // ---- Runs ----------------------------------------------------------------

  /** A stage entered, and the time (in microseconds) at which it was. */
  datatype Entry = Entry(stage: Stage, at: int)

  /** The device, the deadlines of its armed ticks in list order, the time of
      the last event, and the stages entered since the last power-on. */
  datatype Sys = Sys(dev: Dev, ticks: seq<int>, now: int, trace: seq<Entry>)

  datatype Event =
    | On(at: int)
    | Off(at: int)
    | Fire(i: nat, at: int)  // some expired tick is delivered

  ghost predicate Enabled(s: Sys, e: Event) {
    e.at >= s.now && (e.Fire? ==> e.i < |s.ticks| && s.ticks[e.i] < e.at)
  }

  function Deadlines(armed: seq<int>, at: int): seq<int> {
    seq(|armed|, i requires 0 <= i < |armed| => at + 1000 * armed[i])
  }

  function Without(ticks: seq<int>, i: nat): (r: seq<int>)
    requires i < |ticks|
    ensures |r| == |ticks| - 1
  {
    ticks[..i] + ticks[i + 1..]
  }

  function Next(c: Config, s: Sys, e: Event): Sys
    requires Enabled(s, e)
  {
    match e
    case On(at) =>
      var r := PowerOn(c, s.dev);
      Sys(r.dev, s.ticks + Deadlines(r.armed, at), at, if c.canPower then [Entry(r.dev.stage, at)] else s.trace)
    case Off(at) => s.(dev := PowerOff(c, s.dev), now := at)
    case Fire(i, at) =>
      var r := Tick(c, s.dev);
      Sys(r.dev, Without(s.ticks, i) + Deadlines(r.armed, at), at,
          if s.dev.stage == RUNNING then s.trace else s.trace + [Entry(r.dev.stage, at)])
  }

  ghost predicate CanRun(c: Config, s: Sys, es: seq<Event>)
    decreases |es|
  {
    es == [] || (Enabled(s, es[0]) && CanRun(c, Next(c, s, es[0]), es[1..]))
  }

  ghost function Run(c: Config, s: Sys, es: seq<Event>): Sys
    requires CanRun(c, s, es)
    decreases |es|
  {
    if es == [] then s else Run(c, Next(c, s, es[0]), es[1..])
  }

  lemma {:induction false} RunOne(c: Config, s: Sys, e: Event)
    requires Enabled(s, e)
    ensures CanRun(c, s, [e]) && Run(c, s, [e]) == Next(c, s, e)
  {
    assert [e][1..] == [];
  }

  ghost predicate NoOn(es: seq<Event>) {
    forall i :: 0 <= i < |es| ==> !es[i].On?
  }

  // ---- Invariant: lines follow the stage, a started sequence has a tick ----

  predicate Started(st: Stage) {
    st != START && st != RUNNING
  }

  /** The key lines are a function of the stage: the fastboot key is down from
      the start of the sequence to its release, the power key exactly while its
      release is awaited, and both are up when the board is running. */
  ghost predicate LinesFollowStage(c: Config, d: Dev) {
    && (d.fastbootKey <==> c.canKey && c.fastbootKeyTimeout != 0 && Started(d.stage))
    && (d.powerKey <==> c.canKey && d.stage == RELEASE_PWR)
  }

  ghost predicate Inv(c: Config, s: Sys) {
    && LinesFollowStage(c, s.dev)
    && (s.dev.stage == START ==> s.ticks == [])
    && (Started(s.dev.stage) ==> s.ticks != [])
    && (s.dev.stage == PRESS || s.dev.stage == RELEASE_PWR ==> c.hasPowerKey)
    && (s.dev.stage == RELEASE_FASTBOOT ==> c.fastbootKeyTimeout != 0)
  }

  /** Before anything was asked: no tick armed, everything off. */
  function Initial(now: int): Sys {
    Sys(OffAtStart, [], now, [])
  }

  lemma {:induction false} InitialInv(c: Config, now: int)
    ensures Inv(c, Initial(now))
  {}

  lemma {:induction false} StepKeepsInv(c: Config, s: Sys, e: Event)
    requires Inv(c, s) && Enabled(s, e)
    ensures Inv(c, Next(c, s, e))
  {}

  lemma {:induction false} RunKeepsInv(c: Config, s: Sys, es: seq<Event>)
    requires Inv(c, s) && CanRun(c, s, es)
    ensures Inv(c, Run(c, s, es))
    decreases |es|
  {
    if es != [] {
      StepKeepsInv(c, s, es[0]);
      RunKeepsInv(c, Next(c, s, es[0]), es[1..]);
    }
  }

  /** In every state of every run, whatever requests are made and however many
      stale ticks are left armed by them. */
  lemma {:induction false} LineInvariant(c: Config, now: int, es: seq<Event>)
    requires CanRun(c, Initial(now), es)
    ensures Inv(c, Run(c, Initial(now), es))
  {
    InitialInv(c, now);
    RunKeepsInv(c, Initial(now), es);
  }

  // ---- Convergence ---------------------------------------------------------

  function StagesLeft(st: Stage): nat {
    match st
    case START => 5
    case CONNECT => 4
    case PRESS => 3
    case RELEASE_PWR => 2
    case RELEASE_FASTBOOT => 1
    case RUNNING => 0
  }

  function Measure(s: Sys): nat {
    StagesLeft(s.dev.stage) + |s.ticks|
  }

  function Fires(es: seq<Event>): nat {
    if es == [] then 0 else (if es[0].Fire? then 1 else 0) + Fires(es[1..])
  }

  /** After the last power-on of a run every tick uses up some of the stages and
      ticks left, so only so many can fire; and if none is left armed then the
      device is running. */
  lemma {:induction false} Converges(c: Config, s: Sys, es: seq<Event>)
    requires Inv(c, s) && s.dev.stage != START && NoOn(es) && CanRun(c, s, es)
    ensures Measure(Run(c, s, es)) + Fires(es) <= Measure(s)
    ensures Run(c, s, es).ticks == [] ==> Run(c, s, es).dev.stage == RUNNING
    decreases |es|
  {
    if es != [] {
      StepKeepsInv(c, s, es[0]);
      Converges(c, Next(c, s, es[0]), es[1..]);
    }
  }

  /** And it does get there: letting armed ticks fire ends in RUNNING. */
  lemma {:induction false} Settles(c: Config, s: Sys) returns (es: seq<Event>)
    requires Inv(c, s) && s.dev.stage != START
    ensures NoOn(es) && CanRun(c, s, es)
    ensures Run(c, s, es).ticks == [] && Run(c, s, es).dev.stage == RUNNING
    decreases Measure(s)
  {
    if s.ticks == [] {
      return [];
    }
    var e := Fire(0, if s.now > s.ticks[0] then s.now else s.ticks[0] + 1);
    StepKeepsInv(c, s, e);
    var rest := Settles(c, Next(c, s, e));
    es := [e] + rest;
    assert es[1..] == rest;
  }

  // ---- Power off -----------------------------------------------------------

  lemma {:induction false} StaysLow(c: Config, s: Sys, es: seq<Event>)
    requires Inv(c, s) && !s.dev.power && s.dev.stage != CONNECT
    requires NoOn(es) && CanRun(c, s, es)
    ensures !Run(c, s, es).dev.power
    decreases |es|
  {
    if es != [] {
      StepKeepsInv(c, s, es[0]);
      StaysLow(c, Next(c, s, es[0]), es[1..]);
    }
  }

  /** A power-off lasts until the next power-on exactly when it does not come
      while the sequence is about to connect power: then the armed tick still
      connects it. */
  lemma {:induction false} PowerOffLastsIff(c: Config, s: Sys, at: int)
    requires Inv(c, s) && c.canPower && at >= s.now
    ensures (forall es :: NoOn(es) && CanRun(c, Next(c, s, Off(at)), es) ==>
               !Run(c, Next(c, s, Off(at)), es).dev.power) <==>
            s.dev.stage != CONNECT
  {
    var off := Next(c, s, Off(at));
    if s.dev.stage != CONNECT {
      forall es | NoOn(es) && CanRun(c, off, es) ensures !Run(c, off, es).dev.power {
        StaysLow(c, off, es);
      }
    } else {
      var e := Fire(0, if at > s.ticks[0] then at else s.ticks[0] + 1);
      var es := [e];
      RunOne(c, off, e);
      assert NoOn(es) && CanRun(c, off, es) && Run(c, off, es).dev.power;
    }
  }

  ghost predicate NoOff(es: seq<Event>) {
    forall i :: 0 <= i < |es| ==> !es[i].Off?
  }

  /** Until power is dropped, a board past CONNECT has power and USB. */
  lemma {:induction false} ConnectedStays(c: Config, s: Sys, es: seq<Event>)
    requires s.dev.stage !in {START, CONNECT} ==> s.dev.power && s.dev.usb
    requires NoOff(es) && CanRun(c, s, es)
    ensures var d := Run(c, s, es).dev; d.stage !in {START, CONNECT} ==> d.power && d.usb
    decreases |es|
  {
    if es != [] {
      ConnectedStays(c, Next(c, s, es[0]), es[1..]);
    }
  }

  /** From the start: connecting switches power and USB on, and nothing in the sequence
      switches them off again. */
  lemma {:induction false} Connected(c: Config, now: int, es: seq<Event>)
    requires NoOff(es) && CanRun(c, Initial(now), es)
    ensures var d := Run(c, Initial(now), es).dev; d.stage !in {START, CONNECT} ==> d.power && d.usb
  {
    ConnectedStays(c, Initial(now), es);
  }

  /** Without a controller for the power nothing ever happens. */
  lemma {:induction false} NoControl(c: Config, now: int, es: seq<Event>)
    requires !c.canPower && CanRun(c, Sys(OffAtStart, [], now, []), es)
    ensures Run(c, Sys(OffAtStart, [], now, []), es).dev == Dev(START, false, false, false, false)
    decreases |es|
  {
    if es != [] {
      var s := Sys(OffAtStart, [], now, []);
      assert Next(c, s, es[0]) == Sys(OffAtStart, [], es[0].at, []);
      NoControl(c, es[0].at, es[1..]);
    }
  }

  // ---- Timing --------------------------------------------------------------

  /** How long each stage is meant to last, in ms. */
  function Delay(c: Config, st: Stage): int {
    match st
    case START => 0
    case CONNECT => 10
    case PRESS => 250
    case RELEASE_PWR => 100
    case RELEASE_FASTBOOT => 1000 * c.fastbootKeyTimeout
    case RUNNING => 0
  }

  /** Every stage left was held for longer than its delay. */
  ghost predicate Timed(c: Config, trace: seq<Entry>) {
    forall i, j :: 0 <= i && j == i + 1 && j < |trace| ==> trace[j].at > trace[i].at + 1000 * Delay(c, trace[i].stage)
  }

  /** The stages of a whole sequence. */
  function Plan(c: Config): seq<Stage> {
    [CONNECT] + (if c.hasPowerKey then [PRESS, RELEASE_PWR] else [])
      + (if c.fastbootKeyTimeout != 0 then [RELEASE_FASTBOOT] else []) + [RUNNING]
  }

  /** The sequence was started with no tick armed, and not restarted since. */
  ghost predicate Clean(c: Config, s: Sys) {
    && s.trace != [] && |s.trace| <= |Plan(c)|
    && (forall i :: 0 <= i < |s.trace| ==> s.trace[i].stage == Plan(c)[i])
    && s.dev.stage == Plan(c)[|s.trace| - 1]
    && Timed(c, s.trace)
    && if s.dev.stage == RUNNING then s.ticks == []
       else |s.ticks| == 1 && s.ticks[0] == s.trace[|s.trace| - 1].at + 1000 * Delay(c, s.dev.stage)
  }

  /** A tick goes to the next stage of the plan and arms a tick after its delay. */
  lemma {:induction false} PlanStep(c: Config, d: Dev, i: nat)
    requires ConfigOk(c) && i < |Plan(c)| && d.stage == Plan(c)[i] && d.stage != RUNNING
    ensures i + 1 < |Plan(c)|
    ensures var r := Tick(c, d);
            && r.dev.stage == Plan(c)[i + 1]
            && r.armed == (if r.dev.stage == RUNNING then [] else [Delay(c, r.dev.stage)])
  {
    TimeoutExactIff(c.fastbootKeyTimeout);
  }

  lemma {:induction false} TimedSnoc(c: Config, trace: seq<Entry>, e: Entry)
    requires trace != [] && Timed(c, trace)
    requires e.at > trace[|trace| - 1].at + 1000 * Delay(c, trace[|trace| - 1].stage)
    ensures Timed(c, trace + [e])
  {}

  lemma {:induction false} FireKeepsClean(c: Config, s: Sys, e: Event)
    requires ConfigOk(c) && Clean(c, s) && e.Fire? && Enabled(s, e)
    ensures Clean(c, Next(c, s, e))
  {
    var i := |s.trace| - 1;
    PlanStep(c, s.dev, i);
    var r, t := Tick(c, s.dev), Next(c, s, e);
    assert Without(s.ticks, 0) == [];
    assert t.ticks == Deadlines(r.armed, e.at);
    assert t.trace == s.trace + [Entry(r.dev.stage, e.at)];
    assert s.trace[i].stage == Plan(c)[i] == s.dev.stage;
    TimedSnoc(c, s.trace, Entry(r.dev.stage, e.at));
  }

  lemma {:induction false} StepKeepsClean(c: Config, s: Sys, e: Event)
    requires ConfigOk(c) && Clean(c, s) && Enabled(s, e) && !e.On?
    ensures Clean(c, Next(c, s, e))
  {
    if e.Fire? {
      FireKeepsClean(c, s, e);
    }
  }

  lemma {:induction false} RunKeepsClean(c: Config, s: Sys, es: seq<Event>)
    requires ConfigOk(c) && Clean(c, s) && NoOn(es) && CanRun(c, s, es)
    ensures Clean(c, Run(c, s, es))
    decreases |es|
  {
    if es != [] {
      StepKeepsClean(c, s, es[0]);
      RunKeepsClean(c, Next(c, s, es[0]), es[1..]);
    }
  }

  /** What the stages of a sequence need to be held for their delays. With a key to
      press or to release: no tick is armed at the power-on, and the timeout is
      not cut short. With neither, CONNECT is the only stage: no tick that is
      armed may end it early. */
  ghost predicate Undisturbed(c: Config, s: Sys, at: int) {
    if c.hasPowerKey || c.fastbootKeyTimeout != 0 then s.ticks == [] && ConfigOk(c)
    else forall i :: 0 <= i < |s.ticks| ==> s.ticks[i] >= at + 10_000
  }

  /** Every stage of a sequence is held for its delay, in every continuation,
      exactly under that condition: otherwise a stale tick, or a timeout that
      wraps, can end a stage early. */
  lemma {:induction false} StageTimesIff(c: Config, s: Sys, at: int)
    requires c.canPower && Inv(c, s) && at >= s.now
    ensures (forall es :: NoOn(es) && CanRun(c, Next(c, s, On(at)), es) ==>
               Timed(c, Run(c, Next(c, s, On(at)), es).trace)) <==>
            Undisturbed(c, s, at)
  {
    var on := Next(c, s, On(at));
    if Undisturbed(c, s, at) {
      forall es | NoOn(es) && CanRun(c, on, es) ensures Timed(c, Run(c, on, es).trace) {
        if c.hasPowerKey || c.fastbootKeyTimeout != 0 {
          RunKeepsClean(c, on, es);
        } else {
          RunKeepsConnect(c, on, es, at);
        }
      }
    } else {
      var es := EarlyRun(c, s, at);
      assert NoOn(es) && CanRun(c, on, es) && !Timed(c, Run(c, on, es).trace);
    }
  }

  lemma {:induction false} EarlyRun(c: Config, s: Sys, at: int) returns (es: seq<Event>)
    requires c.canPower && Inv(c, s) && at >= s.now && !Undisturbed(c, s, at)
    ensures var on := Next(c, s, On(at)); NoOn(es) && CanRun(c, on, es) && !Timed(c, Run(c, on, es).trace)
  {
    var on := Next(c, s, On(at));
    if !c.hasPowerKey && c.fastbootKeyTimeout == 0 {
      var i :| 0 <= i < |s.ticks| && s.ticks[i] < at + 10_000;
      assert on.ticks[i] == s.ticks[i];
      es := EarlyConnect(c, on, i);
    } else if s.ticks != [] {
      es := StaleRun(c, on);
    } else {
      es := ShortRun(c, on);
    }
  }

  /** With two ticks armed at the start of a sequence both can be delivered at
      the same moment, and the second ends the second stage at once. */
  lemma {:induction false} StaleRun(c: Config, s: Sys) returns (es: seq<Event>)
    requires c.hasPowerKey || c.fastbootKeyTimeout != 0
    requires s.dev.stage == CONNECT && |s.ticks| >= 2 && |s.trace| == 1
    ensures NoOn(es) && CanRun(c, s, es) && !Timed(c, Run(c, s, es).trace)
  {
    var t := 1 + (if s.now > s.ticks[0] then s.now else s.ticks[0]);
    var at := if t > s.ticks[1] then t else s.ticks[1] + 1;
    var e := Fire(0, at);
    es := [e, e];
    var s1 := Next(c, s, e);
    assert s1.ticks[0] == s.ticks[1];
    var s2 := Next(c, s1, e);
    assert es[1..] == [e];
    RunOne(c, s1, e);
    assert s2.trace[1].at == s2.trace[2].at;
  }

  /** A tick due before CONNECT is over ends it, and with it the sequence. */
  lemma {:induction false} EarlyConnect(c: Config, s: Sys, i: nat) returns (es: seq<Event>)
    requires !c.hasPowerKey && c.fastbootKeyTimeout == 0
    requires s.dev.stage == CONNECT && s.trace == [Entry(CONNECT, s.now)]
    requires i < |s.ticks| && s.ticks[i] < s.now + 10_000
    ensures NoOn(es) && CanRun(c, s, es) && !Timed(c, Run(c, s, es).trace)
  {
    var e := Fire(i, if s.now > s.ticks[i] then s.now else s.ticks[i] + 1);
    es := [e];
    RunOne(c, s, e);
    var t := Next(c, s, e);
    assert t.trace[1].at <= t.trace[0].at + 10_000;
  }

  /** A sequence of CONNECT alone, none of whose ticks is due before it is over. */
  ghost predicate Connecting(s: Sys, at: int) {
    && s.trace != [] && s.trace[0] == Entry(CONNECT, at)
    && if s.dev.stage == RUNNING then |s.trace| == 2 && s.trace[1].at > at + 10_000
       else s.dev.stage == CONNECT && |s.trace| == 1 && forall i :: 0 <= i < |s.ticks| ==> s.ticks[i] >= at + 10_000
  }

  lemma {:induction false} RunKeepsConnect(c: Config, s: Sys, es: seq<Event>, at: int)
    requires !c.hasPowerKey && c.fastbootKeyTimeout == 0 && Connecting(s, at) && NoOn(es) && CanRun(c, s, es)
    ensures Connecting(Run(c, s, es), at) && Timed(c, Run(c, s, es).trace)
    decreases |es|
  {
    if es != [] {
      RunKeepsConnect(c, Next(c, s, es[0]), es[1..], at);
    }
  }

  /** The delay, in ms, that the tick out of a stage is armed with. */
  function ArmedMs(c: Config, st: Stage): int {
    if st == RELEASE_FASTBOOT then TimeoutMs(c.fastbootKeyTimeout) else Delay(c, st)
  }

  /** How long, in us, the rest of a sequence takes when each tick comes at once. */
  function PromptUs(c: Config, st: Stage): int
    requires Started(st)
    decreases StagesLeft(st)
  {
    match st
    case CONNECT => 10_001 + PromptUs(c, if c.hasPowerKey then PRESS else RELEASE_FASTBOOT)
    case PRESS => 250_001 + PromptUs(c, RELEASE_PWR)
    case RELEASE_PWR => 100_001 + PromptUs(c, RELEASE_FASTBOOT)
    case RELEASE_FASTBOOT =>
      if TimeoutMs(c.fastbootKeyTimeout) < 0 then 0 else 1000 * TimeoutMs(c.fastbootKeyTimeout) + 1
  }

  /** With a timeout that wraps, ticks that come at once end the sequence with the
      fastboot key released early. */
  lemma {:induction false} ShortRun(c: Config, s: Sys) returns (es: seq<Event>)
    requires !ConfigOk(c) && Started(s.dev.stage)
    requires s.dev.stage == PRESS || s.dev.stage == RELEASE_PWR ==> c.hasPowerKey
    requires |s.ticks| == 1 && s.ticks[0] == s.now + 1000 * ArmedMs(c, s.dev.stage)
    requires s.trace != [] && s.trace[|s.trace| - 1] == Entry(s.dev.stage, s.now)
    ensures NoOn(es) && CanRun(c, s, es)
    ensures var t := Run(c, s, es);
            t.dev.stage == RUNNING && !Timed(c, t.trace) && t.now == s.now + PromptUs(c, s.dev.stage)
    decreases StagesLeft(s.dev.stage)
  {
    TimeoutExactIff(c.fastbootKeyTimeout);
    var e := Fire(0, if s.now > s.ticks[0] then s.now else s.ticks[0] + 1);
    var t := Next(c, s, e);
    assert Without(s.ticks, 0) == [];
    if s.dev.stage == RELEASE_FASTBOOT {
      es := [e];
      RunOne(c, s, e);
      var i := |s.trace| - 1;
      assert t.trace[i + 1].at <= t.trace[i].at + 1000 * Delay(c, t.trace[i].stage);
    } else {
      var rest := ShortRun(c, t);
      es := [e] + rest;
      assert es[1..] == rest;
    }
  }

  /** The earliest time at which the `i`-th stage of the plan can be entered. */
  function EarliestMs(c: Config, i: nat): int
    requires i < |Plan(c)|
  {
    if i == 0 then 0 else EarliestMs(c, i - 1) + Delay(c, Plan(c)[i - 1])
  }

  lemma {:induction false} TraceTimes(c: Config, s: Sys, i: nat)
    requires Clean(c, s) && i < |s.trace|
    ensures s.trace[i].at >= s.trace[0].at + 1000 * EarliestMs(c, i)
    ensures i > 0 ==> s.trace[i].at > s.trace[0].at + 1000 * EarliestMs(c, i)
  {
    if i > 0 {
      TraceTimes(c, s, i - 1);
    }
  }

  /** The least time from power-on to RUNNING, in ms. */
  function SequenceMs(c: Config): int {
    10 + (if c.hasPowerKey then 350 else 0) + 1000 * c.fastbootKeyTimeout
  }

  lemma {:induction false} PlanLength(c: Config)
    ensures |Plan(c)| > 1 && EarliestMs(c, |Plan(c)| - 1) == SequenceMs(c)
  {
    var p := Plan(c);
    EarliestStep(c, 1);
    assert EarliestMs(c, 0) == 0 && EarliestMs(c, 1) == 10;
    if c.hasPowerKey {
      EarliestStep(c, 2);
      EarliestStep(c, 3);
      assert p[1] == PRESS && p[2] == RELEASE_PWR && EarliestMs(c, 3) == 360;
      if c.fastbootKeyTimeout != 0 {
        assert p[3] == RELEASE_FASTBOOT;
        EarliestStep(c, 4);
      }
    } else if c.fastbootKeyTimeout != 0 {
      assert p[1] == RELEASE_FASTBOOT;
      EarliestStep(c, 2);
    }
  }

  lemma {:induction false} EarliestStep(c: Config, i: nat)
    requires 0 < i < |Plan(c)|
    ensures EarliestMs(c, i) == EarliestMs(c, i - 1) + Delay(c, Plan(c)[i - 1])
  {}

  lemma {:induction false} RunningTime(c: Config, s: Sys)
    requires Clean(c, s) && s.dev.stage == RUNNING && s.trace[|s.trace| - 1].at <= s.now
    ensures s.now > s.trace[0].at + 1000 * SequenceMs(c)
  {
    var i := |s.trace| - 1;
    assert Plan(c)[i] == RUNNING && i == |Plan(c)| - 1;
    PlanLength(c);
    TraceTimes(c, s, i);
  }

  /** A sequence started with no tick armed, and a timeout that does not wrap, has
      the board running later than 10 ms, 350 ms more with a power key, and the
      fastboot key timeout after the power-on. */
  lemma {:induction false} TimeToRunning(c: Config, s: Sys, at: int, es: seq<Event>)
    requires ConfigOk(c) && c.canPower && s.ticks == [] && at >= s.now
    requires NoOn(es) && CanRun(c, Next(c, s, On(at)), es)
    requires Run(c, Next(c, s, On(at)), es).dev.stage == RUNNING
    ensures Run(c, Next(c, s, On(at)), es).now > at + 1000 * SequenceMs(c)
  {
    var on := Next(c, s, On(at));
    RunKeepsClean(c, on, es);
    RunKeepsTrace(c, on, es);
    RunningTime(c, Run(c, on, es));
  }

  /** Started with no tick armed, every run takes that long exactly when the timeout
      does not wrap. */
  lemma {:induction false} TimeToRunningIff(c: Config, s: Sys, at: int)
    requires c.canPower && s.ticks == [] && at >= s.now
    ensures (forall es :: NoOn(es) && CanRun(c, Next(c, s, On(at)), es) &&
                          Run(c, Next(c, s, On(at)), es).dev.stage == RUNNING ==>
               Run(c, Next(c, s, On(at)), es).now > at + 1000 * SequenceMs(c)) <==>
            ConfigOk(c)
  {
    var on := Next(c, s, On(at));
    if ConfigOk(c) {
      forall es | NoOn(es) && CanRun(c, on, es) && Run(c, on, es).dev.stage == RUNNING
        ensures Run(c, on, es).now > at + 1000 * SequenceMs(c)
      {
        TimeToRunning(c, s, at, es);
      }
    } else {
      var es := ShortRun(c, on);
      PromptIsEarly(c);
      assert NoOn(es) && CanRun(c, on, es) && Run(c, on, es).dev.stage == RUNNING;
    }
  }

  lemma {:induction false} PromptIsEarly(c: Config)
    requires !ConfigOk(c)
    ensures PromptUs(c, CONNECT) <= 1000 * SequenceMs(c)
  {
    TimeoutExactIff(c.fastbootKeyTimeout);
    assert TimeoutMs(c.fastbootKeyTimeout) < 1000 * c.fastbootKeyTimeout;
    if c.hasPowerKey {
      assert PromptUs(c, PRESS) == 250_001 + PromptUs(c, RELEASE_PWR);
    }
  }

  // ---- How long the keys are held ------------------------------------------

  /** A tick goes on with one tick at most. */
  lemma {:induction false} TickArmsOne(c: Config, s: Sys, e: Event)
    requires |s.ticks| <= 1 && Enabled(s, e) && !e.On?
    ensures |Next(c, s, e).ticks| <= 1
    ensures e.Fire? ==> Next(c, s, e).ticks == Deadlines(Tick(c, s.dev).armed, e.at)
  {
    if e.Fire? {
      assert Without(s.ticks, e.i) == [];
    }
  }

  lemma {:induction false} RunKeepsOne(c: Config, s: Sys, es: seq<Event>)
    requires |s.ticks| <= 1 && NoOn(es) && CanRun(c, s, es)
    ensures |Run(c, s, es).ticks| <= 1
    decreases |es|
  {
    if es != [] {
      TickArmsOne(c, s, es[0]);
      RunKeepsOne(c, Next(c, s, es[0]), es[1..]);
    }
  }

  /** The tick armed on entering a stage is due after the delay of the stage. */
  lemma {:induction false} EntryArms(c: Config, st: Stage, at: int)
    requires Started(st) && (st == RELEASE_FASTBOOT ==> ConfigOk(c))
    ensures Deadlines(DelaysOf(c, st), at) == [at + 1000 * Delay(c, st)]
  {
    TimeoutExactIff(c.fastbootKeyTimeout);
  }

  /** With no more than one tick armed, a stage entered by `e` and left by `f`, with
      `b` in between, was held for its delay. */
  lemma {:induction false} StageHeld(c: Config, s: Sys, e: Event, b: seq<Event>, f: Event)
    requires |s.ticks| <= 1 && Enabled(s, e) && !e.On? && NoOn(b) && !f.On?
    requires var t := Next(c, s, e);
             && t.dev.stage != s.dev.stage && CanRun(c, t, b)
             && Run(c, t, b).dev.stage == t.dev.stage != RUNNING
             && Enabled(Run(c, t, b), f) && Next(c, Run(c, t, b), f).dev.stage != t.dev.stage
    requires Next(c, s, e).dev.stage == RELEASE_FASTBOOT ==> ConfigOk(c)
    ensures f.at > e.at + 1000 * Delay(c, Next(c, s, e).dev.stage)
  {
    var t := Next(c, s, e);
    TickArmsOne(c, s, e);
    EntryArms(c, t.dev.stage, e.at);
    SameStage(c, t, b);
  }

  lemma {:induction false} TickLowers(c: Config, d: Dev)
    ensures d.stage != RUNNING ==> StagesLeft(Tick(c, d).dev.stage) < StagesLeft(d.stage)
    ensures d.stage == RUNNING ==> Tick(c, d).dev.stage == RUNNING
  {}

  /** While the stage stays the same, its tick does. */
  lemma {:induction false} SameStage(c: Config, s: Sys, es: seq<Event>)
    requires NoOn(es) && CanRun(c, s, es)
    ensures StagesLeft(Run(c, s, es).dev.stage) <= StagesLeft(s.dev.stage)
    ensures Run(c, s, es).dev.stage == s.dev.stage != RUNNING ==> Run(c, s, es).ticks == s.ticks
    decreases |es|
  {
    if es != [] {
      TickLowers(c, s.dev);
      SameStage(c, Next(c, s, es[0]), es[1..]);
    }
  }

  /** The power key is held for more than 100 ms in a sequence started with no tick
      armed: `e` presses it and `f` releases it, whatever happens before, between
      and to the timeout of the fastboot key. */
  lemma {:induction false} PowerKeyHeld(c: Config, s: Sys, at: int, a: seq<Event>, e: Event, b: seq<Event>, f: Event)
    requires Inv(c, s) && s.ticks == [] && at >= s.now && NoOn(a) && CanRun(c, Next(c, s, On(at)), a)
    requires var u := Run(c, Next(c, s, On(at)), a); Enabled(u, e) && !e.On? && NoOn(b) && !f.On?
    requires var u := Run(c, Next(c, s, On(at)), a);
             var t := Next(c, u, e);
             && !u.dev.powerKey && t.dev.powerKey && CanRun(c, t, b)
             && Run(c, t, b).dev.powerKey
             && Enabled(Run(c, t, b), f) && !Next(c, Run(c, t, b), f).dev.powerKey
    ensures f.at > e.at + 100_000
  {
    var on := Next(c, s, On(at));
    StepKeepsInv(c, s, On(at));
    RunKeepsInv(c, on, a);
    RunKeepsOne(c, on, a);
    PressHeld(c, Run(c, on, a), e, b, f);
  }

  lemma {:induction false} PressHeld(c: Config, s: Sys, e: Event, b: seq<Event>, f: Event)
    requires Inv(c, s) && |s.ticks| <= 1 && Enabled(s, e) && !e.On? && NoOn(b) && !f.On?
    requires var t := Next(c, s, e);
             && !s.dev.powerKey && t.dev.powerKey && CanRun(c, t, b)
             && Run(c, t, b).dev.powerKey
             && Enabled(Run(c, t, b), f) && !Next(c, Run(c, t, b), f).dev.powerKey
    ensures f.at > e.at + 100_000
  {
    var t := Next(c, s, e);
    StepKeepsInv(c, s, e);
    RunKeepsInv(c, t, b);
    StepKeepsInv(c, Run(c, t, b), f);
    StageHeld(c, s, e, b, f);
  }

  /** The fastboot key stays down from the power-on until its timeout, counted from
      the end of the stages before it, has elapsed. */
  lemma {:induction false} FastbootKeyHeld(c: Config, s: Sys, at: int, es: seq<Event>)
    requires ConfigOk(c) && c.canPower && c.canKey && c.fastbootKeyTimeout != 0 && Inv(c, s)
    requires s.ticks == [] && at >= s.now && NoOn(es) && CanRun(c, Next(c, s, On(at)), es)
    ensures var t := Run(c, Next(c, s, On(at)), es); t.now <= at + 1000 * SequenceMs(c) ==> t.dev.fastbootKey
  {
    var on := Next(c, s, On(at));
    StepKeepsInv(c, s, On(at));
    RunKeepsInv(c, on, es);
    RunKeepsClean(c, on, es);
    if Run(c, on, es).dev.stage == RUNNING {
      TimeToRunning(c, s, at, es);
    }
  }

  lemma {:induction false} RunKeepsTrace(c: Config, s: Sys, es: seq<Event>)
    requires s.trace != [] && s.trace[|s.trace| - 1].at <= s.now && NoOn(es) && CanRun(c, s, es)
    ensures var t := Run(c, s, es);
            t.trace != [] && t.trace[0] == s.trace[0] && t.trace[|t.trace| - 1].at <= t.now
    decreases |es|
  {
    if es != [] {
      RunKeepsTrace(c, Next(c, s, es[0]), es[1..]);
    }
  }
}
