/** The FTDI driver of `drivers/ftdi-gpio.c`: a shadow register for each interface. */
module FtdiGpio {
  import opened Bytes
  import opened FtdiConfig

  const INTERFACES := 4
  const EINVAL := 22

  // ---- Registers -----------------------------------------------------------

  /** `1 << bit`, cut down to an `unsigned char`. */
  function Mask(bit: nat): bv8
    requires bit < 32
  {
    (((1 as bv32) << bit) & 0xFF) as bv8
  }

  /** Whether line `k` of a register is high. */
  predicate High(lines: bv8, k: nat)
    requires k < 8
  {
    lines & Mask(k) != 0
  }

  /** `lines |= 1 << bit` or `lines &= ~(1 << bit)`. */
  function Driven(lines: bv8, bit: nat, on: bool): bv8
    requires bit < 32
  {
    if on then lines | Mask(bit) else lines & !Mask(bit)
  }

  lemma {:induction false} MaskLow(bit: nat)
    requires bit < 8
    ensures Mask(bit) == [1, 2, 4, 8, 16, 32, 64, 128][bit]
  {}

  lemma {:induction false} MaskHigh(bit: nat)
    requires 8 <= bit < 32
    ensures Mask(bit) == 0
  {}

  /** Driving a line changes that line alone, and from line 8 on nothing. */
  lemma {:induction false} DrivenBit(lines: bv8, bit: nat, on: bool, k: nat)
    requires bit < 32 && k < 8
    ensures High(Driven(lines, bit, on), k) <==> if k == bit then on else High(lines, k)
  {
    MaskLow(k);
    if bit < 8 {
      MaskLow(bit);
    } else {
      MaskHigh(bit);
    }
  }

  lemma {:induction false} NothingDriven(lines: bv8, bit: nat, on: bool)
    requires 8 <= bit < 32
    ensures Driven(lines, bit, on) == lines
  {
    MaskHigh(bit);
  }

  // ---- Requests ------------------------------------------------------------

  /** What the configurations promise: an interface that exists, and a line that an
      `int` can be shifted by. */
  ghost predicate OptionsOk(options: seq<Gpio>) {
    |options| == GPIO_COUNT &&
    forall g :: 0 <= g < GPIO_COUNT && options[g].present ==>
      options[g].interface < INTERFACES && options[g].offset < 32
  }

  datatype Request = Request(gpio: nat, on: bool)

  ghost predicate RequestOk(r: Request) {
    r.gpio < GPIO_COUNT
  }

  ghost predicate AllOk(rs: seq<Request>) {
    forall m :: 0 <= m < |rs| ==> RequestOk(rs[m])
  }

  /** The registers after one request. */
  ghost function Toggled(options: seq<Gpio>, lines: seq<bv8>, r: Request): (after: seq<bv8>)
    requires OptionsOk(options) && |lines| == INTERFACES && RequestOk(r)
    ensures |after| == INTERFACES
  {
    var o := options[r.gpio];
    if o.present then lines[o.interface := Driven(lines[o.interface], o.offset, r.on != o.activeLow)] else lines
  }

  ghost function ToggledAll(options: seq<Gpio>, lines: seq<bv8>, rs: seq<Request>): (after: seq<bv8>)
    requires OptionsOk(options) && |lines| == INTERFACES && AllOk(rs)
    ensures |after| == INTERFACES
    decreases |rs|
  {
    if rs == [] then lines else ToggledAll(options, Toggled(options, lines, rs[0]), rs[1..])
  }

  /** The request is for line `k` of interface `i`. */
  ghost predicate Drives(options: seq<Gpio>, r: Request, i: nat, k: nat)
    requires OptionsOk(options) && RequestOk(r)
  {
    options[r.gpio].present && options[r.gpio].interface == i && options[r.gpio].offset == k
  }

  lemma {:induction false} OneRequest(options: seq<Gpio>, lines: seq<bv8>, r: Request, i: nat, k: nat)
    requires OptionsOk(options) && |lines| == INTERFACES && RequestOk(r) && i < INTERFACES && k < 8
    ensures High(Toggled(options, lines, r)[i], k) <==>
            if Drives(options, r, i, k) then r.on != options[r.gpio].activeLow else High(lines[i], k)
  {
    var o := options[r.gpio];
    if o.present && o.interface == i {
      DrivenBit(lines[i], o.offset, r.on != o.activeLow, k);
    }
  }

  /** Requests for other lines leave a line as it was. */
  lemma {:induction false} OthersUndisturbed(options: seq<Gpio>, lines: seq<bv8>, rs: seq<Request>, i: nat, k: nat)
    requires OptionsOk(options) && |lines| == INTERFACES && i < INTERFACES && k < 8
    requires AllOk(rs) && forall m :: 0 <= m < |rs| ==> !Drives(options, rs[m], i, k)
    ensures High(ToggledAll(options, lines, rs)[i], k) == High(lines[i], k)
    decreases |rs|
  {
    if rs != [] {
      OneRequest(options, lines, rs[0], i, k);
      OthersUndisturbed(options, Toggled(options, lines, rs[0]), rs[1..], i, k);
    }
  }

  /** After any requests, a line is where the last request for it put it. */
  lemma {:induction false} LastRequestHolds(options: seq<Gpio>, lines: seq<bv8>, rs: seq<Request>, n: nat, i: nat,
                                            k: nat)
    requires OptionsOk(options) && |lines| == INTERFACES && i < INTERFACES && k < 8 && n < |rs|
    requires AllOk(rs) && Drives(options, rs[n], i, k)
    requires forall m :: n < m < |rs| ==> !Drives(options, rs[m], i, k)
    ensures High(ToggledAll(options, lines, rs)[i], k) <==> rs[n].on != options[rs[n].gpio].activeLow
    decreases |rs|
  {
    var next := Toggled(options, lines, rs[0]);
    if n > 0 {
      LastRequestHolds(options, next, rs[1..], n - 1, i, k);
    } else {
      OneRequest(options, lines, rs[0], i, k);
      OthersUndisturbed(options, next, rs[1..], i, k);
    }
  }

  ghost predicate DistinctLines(options: seq<Gpio>)
    requires OptionsOk(options)
  {
    forall g, h :: 0 <= g < h < GPIO_COUNT && options[g].present && options[h].present ==>
      options[g].interface != options[h].interface || options[g].offset != options[h].offset
  }

  /** With every GPIO on a line of its own, each line of a register is where the last
      request for its GPIO put it. */
  lemma {:induction false} GpioHolds(options: seq<Gpio>, lines: seq<bv8>, rs: seq<Request>, n: nat)
    requires OptionsOk(options) && |lines| == INTERFACES && DistinctLines(options) && AllOk(rs) && n < |rs|
    requires options[rs[n].gpio].present && options[rs[n].gpio].offset <= 7
    requires forall m :: n < m < |rs| ==> rs[m].gpio != rs[n].gpio
    ensures var o := options[rs[n].gpio];
            High(ToggledAll(options, lines, rs)[o.interface], o.offset) <==> rs[n].on != o.activeLow
  {
    var o := options[rs[n].gpio];
    forall m | n < m < |rs|
      ensures !Drives(options, rs[m], o.interface, o.offset)
    {
      assert RequestOk(rs[m]);
    }
    LastRequestHolds(options, lines, rs, n, o.interface, o.offset);
  }

  lemma {:induction false} OneMore(options: seq<Gpio>, lines: seq<bv8>, rs: seq<Request>, r: Request)
    requires OptionsOk(options) && |lines| == INTERFACES && AllOk(rs) && RequestOk(r)
    ensures ToggledAll(options, lines, rs + [r]) == Toggled(options, ToggledAll(options, lines, rs), r)
    decreases |rs|
  {
    if rs == [] {
      assert rs + [r] == [r] && [r][1..] == [];
    } else {
      assert (rs + [r])[1..] == rs[1..] + [r];
      OneMore(options, Toggled(options, lines, rs[0]), rs[1..], r);
    }
  }

  /** What is asked of a GPIO matters exactly when its line is one of the eight. */
  lemma {:induction false} RequestMattersIff(options: seq<Gpio>, lines: seq<bv8>, g: nat)
    requires OptionsOk(options) && |lines| == INTERFACES && g < GPIO_COUNT && options[g].present
    ensures Toggled(options, lines, Request(g, true)) != Toggled(options, lines, Request(g, false)) <==>
            options[g].offset <= 7
    ensures options[g].offset > 7 ==> forall on: bool :: Toggled(options, lines, Request(g, on)) == lines
  {
    var o := options[g];
    if o.offset <= 7 {
      OneRequest(options, lines, Request(g, true), o.interface, o.offset);
      OneRequest(options, lines, Request(g, false), o.interface, o.offset);
    } else {
      forall on
        ensures Toggled(options, lines, Request(g, on)) == lines
      {
        NothingDriven(lines[o.interface], o.offset, on != o.activeLow);
      }
    }
  }

  /** Every line that is configured is one of the eight of an existing interface. */
  ghost predicate Drivable(options: seq<Gpio>) {
    |options| == GPIO_COUNT &&
    forall g :: 0 <= g < GPIO_COUNT && options[g].present ==>
      options[g].interface < INTERFACES && options[g].offset <= 7
  }

  /** The legacy string never configures a line that cannot be driven. */
  lemma {:induction false} LegacyDrivable(w: Words, s: string, c: Option<nat>, interface: nat, gpios: seq<Gpio>)
    requires (c.Some? ==> c.value < |s|) && interface < INTERFACES && Drivable(gpios)
    ensures Drivable(ParseGpios(w, s, c, interface, gpios).gpios)
    decreases if c.Some? then |s| - c.value else 0
  {
    if c.Some? {
      var r := ReadEntry(w, s, c.value + 1);
      if r.setting.Sets? {
        var next := gpios[r.setting.line := Gpio(true, interface, r.setting.offset, r.setting.activeLow)];
        LegacyDrivable(w, s, r.semi, interface, next);
      }
    }
  }

  // ---- The driver ----------------------------------------------------------

  ghost predicate Uses(options: seq<Gpio>, g: nat, i: nat) {
    g < |options| && options[g].present && options[g].interface == i
  }

  /** One of the first `n` GPIOs is on interface `i`. */
  ghost predicate Needed(options: seq<Gpio>, n: nat, i: nat) {
    exists g: nat :: g < n && Uses(options, g, i)
  }

  /** What an interface was last sent. */
  ghost function LastSent(log: seq<(nat, bv8)>, i: nat): bv8 {
    if log == [] then 0 else if log[|log| - 1].0 == i then log[|log| - 1].1 else LastSent(log[..|log| - 1], i)
  }

  /** The requests that opening the device makes. */
  ghost function Initial(usbAlwaysOn: bool): seq<Request> {
    [Request(OUTPUT_ENABLE, true), Request(POWER, false),
     Request(USB0_DISCONNECT, usbAlwaysOn), Request(USB1_DISCONNECT, usbAlwaysOn)]
  }

  /** Once open, with every GPIO on a line of its own: power is off, the outputs are
      enabled, and USB is as the board asks. */
  lemma {:induction false} OpenedLines(options: seq<Gpio>, lines: seq<bv8>, usbAlwaysOn: bool, g: nat)
    requires OptionsOk(options) && |lines| == INTERFACES && DistinctLines(options) && g < GPIO_COUNT
    requires g in {POWER, OUTPUT_ENABLE, USB0_DISCONNECT, USB1_DISCONNECT}
    requires options[g].present && options[g].offset <= 7
    ensures var on := if g == POWER then false else if g == OUTPUT_ENABLE then true else usbAlwaysOn;
            High(ToggledAll(options, lines, Initial(usbAlwaysOn))[options[g].interface], options[g].offset) <==>
            on != options[g].activeLow
  {
    var n := if g == OUTPUT_ENABLE then 0 else if g == POWER then 1 else if g == USB0_DISCONNECT then 2 else 3;
    GpioHolds(options, lines, Initial(usbAlwaysOn), n);
  }

  lemma {:induction false} InitialSteps(options: seq<Gpio>, lines: seq<bv8>, usbAlwaysOn: bool)
    requires OptionsOk(options) && |lines| == INTERFACES
    ensures var a := Toggled(options, lines, Request(OUTPUT_ENABLE, true));
            var b := Toggled(options, a, Request(POWER, false));
            var c := Toggled(options, b, Request(USB0_DISCONNECT, usbAlwaysOn));
            ToggledAll(options, lines, Initial(usbAlwaysOn)) ==
            Toggled(options, c, Request(USB1_DISCONNECT, usbAlwaysOn))
  {
    var rs := Initial(usbAlwaysOn);
    assert ToggledAll(options, lines, rs[..0]) == lines;
    forall n | 0 <= n < 4
      ensures ToggledAll(options, lines, rs[..n + 1]) == Toggled(options, ToggledAll(options, lines, rs[..n]), rs[n])
    {
      assert rs[..n + 1] == rs[..n] + [rs[n]];
      OneMore(options, lines, rs[..n], rs[n]);
    }
    assert rs[..0 + 1] == rs[..1] && rs[..1 + 1] == rs[..2] && rs[..2 + 1] == rs[..3] && rs[..3 + 1] == rs;
  }

  /** `struct ftdi_gpio`; `log` is what went out, as interface and byte. */
  class Driver {
    const options: seq<Gpio>
    const isOpen: array<bool>
    const lines: array<bv8>
    var log: seq<(nat, bv8)>

    /** Exactly the interfaces that some GPIO is on are open. */
    ghost predicate OpenIff()
      reads isOpen
    {
      isOpen.Length == INTERFACES && forall i: nat :: i < INTERFACES ==> (isOpen[i] <==> Needed(options, GPIO_COUNT, i))
    }

    ghost predicate SentOk(log: seq<(nat, bv8)>)
      reads isOpen
    {
      isOpen.Length == INTERFACES && forall w :: 0 <= w < |log| ==> log[w].0 < INTERFACES && isOpen[log[w].0]
    }

    /** Only open interfaces were written to, and each was last sent its register. */
    ghost predicate Valid()
      reads this, isOpen, lines
    {
      && OptionsOk(options) && OpenIff() && SentOk(log)
      && lines.Length == INTERFACES && (lines as object) != isOpen
      && forall i: nat :: i < INTERFACES ==> LastSent(log, i) == lines[i]
    }

    /** `ftdi_gpio_toggle_io`; `sent` is what `ftdi_write_data` returns. */
    method ToggleIo(gpio: nat, on: bool, sent: int) returns (ret: int)
      requires Valid() && gpio < GPIO_COUNT
      modifies lines, this`log
      ensures Valid() && lines[..] == Toggled(options, old(lines[..]), Request(gpio, on))
      ensures if options[gpio].present
              then ret == sent && log == old(log) + [(options[gpio].interface, lines[options[gpio].interface])]
              else ret == -EINVAL && log == old(log)
    {
      if !options[gpio].present {
        return -EINVAL;
      }
      var i, bit := options[gpio].interface, options[gpio].offset;
      assert Uses(options, gpio, i);
      ghost var was, sentBefore := lines[..], log;
      var level := if options[gpio].activeLow then !on else on;
      lines[i] := Driven(lines[i], bit, level);
      log := log + [(i, lines[i])];
      ret := sent;
      assert log[..|log| - 1] == sentBefore;
      assert lines[..] == was[i := Driven(was[i], bit, level)];
    }

    /** `ftdi_gpio_open`, from its loop on. */
    constructor (options: seq<Gpio>, usbAlwaysOn: bool)
      requires OptionsOk(options)
      ensures Valid() && this.options == options && fresh(isOpen) && fresh(lines)
      ensures lines[..] == ToggledAll(options, [0, 0, 0, 0], Initial(usbAlwaysOn))
    {
      this.options := options;
      isOpen := new bool[INTERFACES](_ => false);
      lines := new bv8[INTERFACES](_ => 0);
      log := [];
      new;
      var i := 0;
      while i < GPIO_COUNT
        invariant 0 <= i <= GPIO_COUNT && log == [] && lines[..] == [0, 0, 0, 0]
        invariant forall p: nat :: p < INTERFACES ==> (isOpen[p] <==> Needed(options, i, p))
      {
        assert forall p: nat :: Needed(options, i + 1, p) <==> Needed(options, i, p) || Uses(options, i, p);
        if options[i].present && !isOpen[options[i].interface] {
          isOpen[options[i].interface] := true;
        }
        i := i + 1;
      }
      assert Valid();
      InitialSteps(options, lines[..], usbAlwaysOn);
      if options[OUTPUT_ENABLE].present {
        var _ := ToggleIo(OUTPUT_ENABLE, true, 1);
      }
      var _ := ToggleIo(POWER, false, 1);
      var _ := ToggleIo(USB0_DISCONNECT, usbAlwaysOn, 1);
      var _ := ToggleIo(USB1_DISCONNECT, usbAlwaysOn, 1);
    }
  }
}
