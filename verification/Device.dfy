/** The device object of `device.c`: the power sequence driven by timers. */
module Device {
  import opened Bytes
  import opened PowerSequence
  import opened Timeval
  import opened IntrusiveList
  import opened Watch

  const DEVICE_KEY_FASTBOOT: nat := 0
  const DEVICE_KEY_POWER: nat := 1

  /** No delay of the sequence is negative when it is passed as an `int`. */
  ghost predicate DelaysOk(c: Config) {
    TimeoutMs(c.fastbootKeyTimeout) >= 0
  }

  /** The ticks that are armed with these delays at a clock reading. */
  ghost function TickArms(delays: seq<int>, at: int): (arms: seq<Arm>)
    requires forall i :: 0 <= i < |delays| ==> delays[i] >= 0
  {
    seq(|delays|, i requires 0 <= i < |delays| => Arm(delays[i], DeviceTick, at))
  }

  lemma {:induction false} TickDelays(c: Config, d: Dev)
    requires DelaysOk(c)
    ensures forall i :: 0 <= i < |PowerSequence.Tick(c, d).armed| ==> PowerSequence.Tick(c, d).armed[i] >= 0
  {}

  class Device {
    const config: Config
    var stage: Stage
    var power: bool
    var usb: bool
    var fastboot_key: bool
    var power_key: bool

    ghost function View(): Dev
      reads this
    {
      Dev(stage, power, usb, fastboot_key, power_key)
    }

    constructor (config: Config)
      ensures this.config == config && View() == OffAtStart
    {
      this.config := config;
      stage, power, usb, fastboot_key, power_key := START, false, false, false, false;
    }

    /** `device_key`. */
    method Key(key: nat, asserted: bool)
      modifies this
      ensures View() ==
              if key == DEVICE_KEY_FASTBOOT then SetFastbootKey(config, old(View()), asserted)
              else if key == DEVICE_KEY_POWER then SetPowerKey(config, old(View()), asserted)
              else old(View())
    {
      if config.canKey {
        if key == DEVICE_KEY_FASTBOOT {
          fastboot_key := asserted;
        } else if key == DEVICE_KEY_POWER {
          power_key := asserted;
        }
      }
    }

    /** `device_usb`. */
    method Usb(on: bool)
      modifies this
      ensures View() == old(View()).(usb := on)
    {
      usb := on;
    }

    /** The `switch` of `device_tick`: drives the lines, moves to the next stage
        and says after how many milliseconds to tick again. */
    method Advance() returns (delay: Option<int>)
      modifies this
      ensures var r := PowerSequence.Tick(config, old(View()));
              View() == r.dev && r.armed == if delay.Some? then [delay.value] else []
    {
      delay := None;
      match stage {
        case START =>
          if config.fastbootKeyTimeout != 0 {
            Key(DEVICE_KEY_FASTBOOT, true);
          }
          if config.hasPowerKey {
            Key(DEVICE_KEY_POWER, false);
          }
          stage := CONNECT;
          delay := Some(10);
        case CONNECT =>
          power := true;
          usb := true;
          if config.hasPowerKey {
            stage := PRESS;
            delay := Some(250);
          } else if config.fastbootKeyTimeout != 0 {
            stage := RELEASE_FASTBOOT;
            delay := Some(TimeoutMs(config.fastbootKeyTimeout));
          } else {
            stage := RUNNING;
          }
        case PRESS =>
          Key(DEVICE_KEY_POWER, true);
          stage := RELEASE_PWR;
          delay := Some(100);
        case RELEASE_PWR =>
          Key(DEVICE_KEY_POWER, false);
          if config.fastbootKeyTimeout != 0 {
            stage := RELEASE_FASTBOOT;
            delay := Some(TimeoutMs(config.fastbootKeyTimeout));
          } else {
            stage := RUNNING;
          }
        case RELEASE_FASTBOOT =>
          Key(DEVICE_KEY_FASTBOOT, false);
          stage := RUNNING;
        case RUNNING =>
      }
    }

    /** `device_tick`: the step of the specification, re-armed through the timer
        list. */
    method Tick(w: Watch) returns (ghost arms: seq<Arm>, ghost nodes: seq<Node<Timer>>)
      requires w.Valid() && DelaysOk(config)
      modifies this, w`items, w.timer_watches`xs, w.timer_watches`nodes, w.clock
      modifies w.timer_watches.nodes`prev, w.timer_watches.nodes`next
      ensures w.Valid() && Micros(w.clock.now) >= old(Micros(w.clock.now))
      ensures var r := PowerSequence.Tick(config, old(View()));
              && View() == r.dev
              && (forall i :: 0 <= i < |r.armed| ==> r.armed[i] >= 0)
              && arms == TickArms(r.armed, Micros(w.clock.now))
      ensures w.items == old(w.items) + Timers(arms) && w.timer_watches.xs == old(w.timer_watches.xs) + nodes
      ensures fresh(nodes) && w.timer_watches.nodes == old(w.timer_watches.nodes) + set n | n in nodes
    {
      TickDelays(config, View());
      arms, nodes := [], [];
      var delay := Advance();
      if delay.Some? {
        ghost var t, arm;
        t, arm := w.TimerAdd(delay.value, DeviceTick);
        arms, nodes := [arm], [t];
      }
    }

    /** `device_power_on`. */
    method PowerOn(w: Watch) returns (ghost arms: seq<Arm>)
      requires w.Valid() && DelaysOk(config)
      modifies this, w`items, w.timer_watches`xs, w.timer_watches`nodes, w.clock
      modifies w.timer_watches.nodes`prev, w.timer_watches.nodes`next
      ensures w.Valid() && Micros(w.clock.now) >= old(Micros(w.clock.now))
      ensures var r := PowerSequence.PowerOn(config, old(View()));
              && View() == r.dev
              && (forall i :: 0 <= i < |r.armed| ==> r.armed[i] >= 0)
              && arms == TickArms(r.armed, Micros(w.clock.now))
      ensures w.items == old(w.items) + Timers(arms)
      ensures forall n :: n in w.timer_watches.nodes && n !in old(w.timer_watches.nodes) ==> fresh(n)
    {
      if !config.canPower {
        return [];
      }
      ghost var nodes;
      stage := START;
      arms, nodes := Tick(w);
    }

    /** `device_power_off`. */
    method PowerOff()
      modifies this
      ensures View() == PowerSequence.PowerOff(config, old(View()))
    {
      if config.canPower {
        power := false;
      }
    }
  }
}
