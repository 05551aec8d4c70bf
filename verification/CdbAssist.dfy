/** The status parser of `drivers/cdb_assist.c`: a character machine that keeps
    the last reported voltages, currents and switches of a CDB Assist. */
module CdbAssist {
  import opened Bytes
  import opened CLib

  datatype State =
    | IDLE | KEY | KEY_BOOL | KEY_VALUE | KEY_O | KEY_OF | KEY_NUM | KEY_NUM_M
    | NUM | NUM_M | NUM_MX | NUM_MX_ | NUM_NUM_M

  const KEY_SIZE: nat := 32

  /** The device state as last reported. */
  datatype Fields = Fields(currentActual: nat, currentSet: nat, voltageActual: nat, voltageSet: nat,
                           vbat: bool, btn1: bool, btn2: bool, btn3: bool, vbus: bool, vref: nat)

  datatype Parser = Parser(state: State, num0: nat, num1: nat, key: string, voltage: bool, fields: Fields)

  /** `num * 10 + digit` in `unsigned` arithmetic. */
  function Shift(num: nat, ch: char): nat
    requires IsDigit(ch)
  {
    (num * 10 + DigitValue(ch)) % U32
  }

  /** The position of a key in the driver's table, or 5. */
  function KeyIndex(key: string): nat {
    if key == "vbat" then 0
    else if key == "btn1" then 1
    else if key == "btn2" then 2
    else if key == "btn3" then 3
    else if key == "vbus" then 4
    else 5
  }

  function SetSwitch(f: Fields, index: nat, on: bool): Fields {
    match index
    case 0 => f.(vbat := on)
    case 1 => f.(btn1 := on)
    case 2 => f.(btn2 := on)
    case 3 => f.(btn3 := on)
    case 4 => f.(vbus := on)
    case _ => f
  }

  /** `cdb_parser_bool`. */
  function SetFlag(f: Fields, key: string, on: bool): Fields {
    SetSwitch(f, KeyIndex(key), on)
  }

  /** `cdb_parser_push`. */
  function Step(p: Parser, ch: char): Parser {
    var idle := p.(state := IDLE);
    match p.state
    case IDLE =>
      if IsDigit(ch) then p.(num0 := DigitValue(ch), state := NUM)
      else if IsAlpha(ch) then p.(key := [ch], state := KEY)
      else p
    case NUM =>
      if IsDigit(ch) then p.(num0 := Shift(p.num0, ch))
      else if ch == 'm' then p.(state := NUM_M)
      else idle
    case NUM_M =>
      if ch == 'v' then p.(voltage := true, state := NUM_MX)
      else if ch == 'a' then p.(voltage := false, state := NUM_MX)
      else idle
    case NUM_MX => if ch == '/' then p.(num1 := 0, state := NUM_MX_) else idle
    case NUM_MX_ =>
      if IsDigit(ch) then p.(num1 := Shift(p.num1, ch))
      else if ch == 'm' then p.(state := NUM_NUM_M)
      else idle
    case NUM_NUM_M =>
      if ch == 'v' && p.voltage then idle.(fields := p.fields.(voltageSet := p.num0, voltageActual := p.num1))
      else if ch == 'a' && !p.voltage then idle.(fields := p.fields.(currentSet := p.num0, currentActual := p.num1))
      else idle
    case KEY =>
      if IsAlnum(ch) then p.(key := p.key + [ch])
      else if ch == ':' then p.(state := KEY_BOOL)
      else if ch == '=' then p.(state := KEY_VALUE)
      else idle
    case KEY_BOOL => if ch == 'o' then p.(state := KEY_O) else idle
    case KEY_O =>
      if ch == 'f' then p.(state := KEY_OF)
      else if ch == 'n' then idle.(fields := SetFlag(p.fields, p.key, true))
      else idle
    case KEY_OF => if ch == 'f' then idle.(fields := SetFlag(p.fields, p.key, false)) else idle
    case KEY_VALUE => if IsDigit(ch) then p.(num0 := DigitValue(ch), state := KEY_NUM) else idle
    case KEY_NUM =>
      if IsDigit(ch) then p.(num0 := Shift(p.num0, ch))
      else if ch == 'm' then p.(state := KEY_NUM_M)
      else idle
    case KEY_NUM_M => if ch == 'v' then idle.(fields := p.fields.(vref := p.num0)) else idle
  }

  /** The key being read still fits its buffer when `ch` is stored or ends it. */
  predicate Fits(p: Parser, ch: char) {
    p.state == KEY && (IsAlnum(ch) || ch == ':' || ch == '=') ==> |p.key| < 32
  }

  function Run(p: Parser, text: string): Parser
    decreases |text|
  {
    if text == "" then p else Run(Step(p, text[0]), text[1..])
  }

  predicate AllFits(p: Parser, text: string)
    decreases |text|
  {
    text == "" || (Fits(p, text[0]) && AllFits(Step(p, text[0]), text[1..]))
  }

  function Lower(text: string): (r: string)
    ensures |r| == |text|
  {
    if text == "" then "" else [ToLower(text[0])] + Lower(text[1..])
  }

  /** How the text is split across reads does not matter. */
  lemma {:induction false} RunAppend(p: Parser, a: string, b: string)
    ensures Run(p, a + b) == Run(Run(p, a), b)
    ensures AllFits(p, a + b) <==> AllFits(p, a) && AllFits(Run(p, a), b)
    decreases |a|
  {
    if a == "" {
      assert a + b == b;
    } else {
      assert (a + b)[1..] == a[1..] + b;
      RunAppend(Step(p, a[0]), a[1..], b);
    }
  }

  // ---- The object ----------------------------------------------------------

  class CdbAssist {
    var state: State
    var num0: nat
    var num1: nat
    const key: array<char>
    var key_idx: nat
    var voltage: bool
    var fields: Fields

    ghost predicate Valid()
      reads this
    {
      key.Length == KEY_SIZE && key_idx <= KEY_SIZE
    }

    ghost function View(): Parser
      requires Valid()
      reads this, key
    {
      Parser(state, num0, num1, key[..key_idx], voltage, fields)
    }

    constructor ()
      ensures Valid() && fresh(key) && state == IDLE
      ensures fields == Fields(0, 0, 0, 0, false, false, false, false, false, 0)
    {
      state, num0, num1, key_idx, voltage := IDLE, 0, 0, 0, false;
      key := new char[KEY_SIZE];
      fields := Fields(0, 0, 0, 0, false, false, false, false, false, 0);
    }

    /** The key states of `cdb_parser_push`. */
    method PushKey(ch: char)
      requires Valid() && state in {KEY, KEY_BOOL, KEY_O, KEY_OF, KEY_VALUE, KEY_NUM, KEY_NUM_M}
      requires Fits(View(), ch)
      modifies this, key
      ensures Valid() && View() == Step(old(View()), ch)
    {
      ghost var was := key[..key_idx];
      match state
      case KEY =>
        if IsAlnum(ch) {
          key[key_idx] := ch;
          key_idx := key_idx + 1;
          assert key[..key_idx] == was + [ch];
        } else if ch == ':' {
          state := KEY_BOOL;
        } else if ch == '=' {
          state := KEY_VALUE;
        } else {
          state := IDLE;
        }
      case KEY_BOOL =>
        state := if ch == 'o' then KEY_O else IDLE;
      case KEY_O =>
        if ch == 'f' {
          state := KEY_OF;
        } else {
          if ch == 'n' {
            fields := SetFlag(fields, key[..key_idx], true);
          }
          state := IDLE;
        }
      case KEY_OF =>
        if ch == 'f' {
          fields := SetFlag(fields, key[..key_idx], false);
        }
        state := IDLE;
      case KEY_VALUE =>
        if IsDigit(ch) {
          num0 := DigitValue(ch);
          state := KEY_NUM;
        } else {
          state := IDLE;
        }
      case KEY_NUM =>
        if IsDigit(ch) {
          num0 := Shift(num0, ch);
        } else {
          state := if ch == 'm' then KEY_NUM_M else IDLE;
        }
      case KEY_NUM_M =>
        if ch == 'v' {
          fields := fields.(vref := num0);
        }
        state := IDLE;
    }

    /** `cdb_parser_push`. */
    method Push(ch: char)
      requires Valid() && Fits(View(), ch)
      modifies this, key
      ensures Valid() && View() == Step(old(View()), ch)
    {
      match state
      case IDLE =>
        if IsDigit(ch) {
          num0 := DigitValue(ch);
          state := NUM;
        } else if IsAlpha(ch) {
          key[0] := ch;
          key_idx := 1;
          state := KEY;
          assert key[..1] == [ch];
        }
      case NUM =>
        if IsDigit(ch) {
          num0 := Shift(num0, ch);
        } else {
          state := if ch == 'm' then NUM_M else IDLE;
        }
      case NUM_M =>
        if ch == 'v' {
          voltage := true;
          state := NUM_MX;
        } else if ch == 'a' {
          voltage := false;
          state := NUM_MX;
        } else {
          state := IDLE;
        }
      case NUM_MX =>
        if ch == '/' {
          num1 := 0;
          state := NUM_MX_;
        } else {
          state := IDLE;
        }
      case NUM_MX_ =>
        if IsDigit(ch) {
          num1 := Shift(num1, ch);
        } else {
          state := if ch == 'm' then NUM_NUM_M else IDLE;
        }
      case NUM_NUM_M =>
        if ch == 'v' && voltage {
          fields := fields.(voltageSet := num0, voltageActual := num1);
        } else if ch == 'a' && !voltage {
          fields := fields.(currentSet := num0, currentActual := num1);
        }
        state := IDLE;
      case _ =>
        PushKey(ch);
    }

    /** `cdb_assist_ctrl_data` for the bytes of one read. */
    method CtrlData(buf: string)
      requires Valid() && AllFits(View(), Lower(buf))
      modifies this, key
      ensures Valid() && View() == Run(old(View()), Lower(buf))
    {
      var k := 0;
      while k < |buf|
        invariant 0 <= k <= |buf| && Valid()
        invariant AllFits(View(), Lower(buf[k..]))
        invariant Run(old(View()), Lower(buf)) == Run(View(), Lower(buf[k..]))
      {
        assert buf[k..][0] == buf[k] && buf[k..][1..] == buf[k + 1..];
        assert Lower(buf[k..])[1..] == Lower(buf[k + 1..]);
        Push(ToLower(buf[k]));
        k := k + 1;
      }
    }
  }

  // ---- Reports -------------------------------------------------------------

  /** What the device reports on a line of its own. */
  datatype Report =
    | Volts(target: string, actual: string)    // <n>mv/<n>mv
    | Amps(target: string, actual: string)     // <n>ma/<n>ma
    | Flag(key: string, on: bool)           // key:on or key:off
    | Ref(key: string, mv: string)          // key=<n>mv

  ghost predicate NumberOk(n: string) {
    n != "" && forall i :: 0 <= i < |n| ==> IsDigit(n[i])
  }

  ghost predicate KeyOk(k: string) {
    0 < |k| <= 31 && IsAlpha(k[0]) && forall i :: 0 <= i < |k| ==> IsAlnum(k[i])
  }

  ghost predicate ReportOk(r: Report) {
    match r
    case Volts(s, a) => NumberOk(s) && NumberOk(a)
    case Amps(s, a) => NumberOk(s) && NumberOk(a)
    case Flag(k, _) => KeyOk(k)
    case Ref(k, n) => KeyOk(k) && NumberOk(n)
  }

  function Text(r: Report): string {
    match r
    case Volts(s, a) => s + "mv/" + a + "mv"
    case Amps(s, a) => s + "ma/" + a + "ma"
    case Flag(k, on) => k + (if on then ":on" else ":off")
    case Ref(k, n) => k + "=" + n + "mv"
  }

  /** The number written as `n`, as an `unsigned` holds it. */
  function Value(n: string): nat {
    DigitsFrom(n, 0, 10, 0) % U32
  }

  function Apply(f: Fields, r: Report): Fields {
    match r
    case Volts(s, a) => f.(voltageSet := Value(s), voltageActual := Value(a))
    case Amps(s, a) => f.(currentSet := Value(s), currentActual := Value(a))
    case Flag(k, on) => SetFlag(f, k, on)
    case Ref(_, n) => f.(vref := Value(n))
  }

  // ---- Reports are decoded -------------------------------------------------

  lemma {:induction false} ShiftMod(acc: nat, ch: char)
    requires IsDigit(ch)
    ensures Shift(acc % U32, ch) == (acc * 10 + DigitValue(ch)) % U32
  {
    var x, k := acc % U32 * 10 + DigitValue(ch), 10 * (acc / U32);
    assert acc * 10 + DigitValue(ch) == x + k * U32;
    WrapAround(x, k);
  }

  lemma {:induction false} WrapAround(x: nat, k: nat)
    ensures (x + k * U32) % U32 == x % U32
  {
    if k > 0 {
      WrapAround(x, k - 1);
      assert x + k * U32 == (x + (k - 1) * U32) + U32;
    }
  }

  /** The machine in a state that reads the number `num0`, from the `i`-th digit on. */
  lemma {:induction false} RunDigits(p: Parser, n: string, i: nat, acc: nat)
    requires p.state in {NUM, KEY_NUM} && p.num0 == acc % U32 && i <= |n| && forall j :: 0 <= j < |n| ==> IsDigit(n[j])
    ensures Run(p, n[i..]) == p.(num0 := DigitsFrom(n, i, 10, acc) % U32) && AllFits(p, n[i..])
    decreases |n| - i
  {
    if i < |n| {
      ShiftMod(acc, n[i]);
      assert n[i..][1..] == n[i + 1..];
      RunDigits(Step(p, n[i]), n, i + 1, acc * 10 + DigitValue(n[i]));
    }
  }

  lemma {:induction false} RunSecondDigits(p: Parser, n: string, i: nat, acc: nat)
    requires p.state == NUM_MX_ && p.num1 == acc % U32 && i <= |n| && forall j :: 0 <= j < |n| ==> IsDigit(n[j])
    ensures Run(p, n[i..]) == p.(num1 := DigitsFrom(n, i, 10, acc) % U32) && AllFits(p, n[i..])
    decreases |n| - i
  {
    if i < |n| {
      ShiftMod(acc, n[i]);
      assert n[i..][1..] == n[i + 1..];
      RunSecondDigits(Step(p, n[i]), n, i + 1, acc * 10 + DigitValue(n[i]));
    }
  }

  /** A number from the state that expects its first digit. */
  lemma {:induction false} RunNumber(p: Parser, n: string)
    requires NumberOk(n) && p.state in {IDLE, KEY_VALUE}
    ensures Run(p, n) == p.(num0 := Value(n), state := if p.state == IDLE then NUM else KEY_NUM) && AllFits(p, n)
  {
    RunDigits(Step(p, n[0]), n, 1, DigitValue(n[0]));
  }

  lemma {:induction false} RunKeyTail(p: Parser, k: string)
    requires p.state == KEY && |p.key| + |k| <= KEY_SIZE && forall i :: 0 <= i < |k| ==> IsAlnum(k[i])
    ensures Run(p, k) == p.(key := p.key + k) && AllFits(p, k)
    decreases |k|
  {
    if k == "" {
      assert p.key + k == p.key;
    } else {
      RunKeyTail(Step(p, k[0]), k[1..]);
      assert p.key + [k[0]] + k[1..] == p.key + k;
    }
  }

  lemma {:induction false} RunKey(p: Parser, k: string)
    requires KeyOk(k) && p.state == IDLE
    ensures Run(p, k) == p.(key := k, state := KEY) && AllFits(p, k)
  {
    assert !IsDigit(k[0]);
    RunKeyTail(Step(p, k[0]), k[1..]);
    assert [k[0]] + k[1..] == k;
  }

  lemma {:induction false} RunTwo(p: Parser, text: string)
    requires |text| == 2
    ensures Run(p, text) == Step(Step(p, text[0]), text[1])
    ensures AllFits(p, text) <==> Fits(p, text[0]) && Fits(Step(p, text[0]), text[1])
  {
    var q := Step(p, text[0]);
    assert text[1..][0] == text[1];
    assert text[1..][1..] == "";
    assert Run(q, text[1..]) == Step(q, text[1]);
    assert AllFits(q, text[1..]) <==> Fits(q, text[1]);
  }

  lemma {:induction false} RunThree(p: Parser, text: string)
    requires |text| == 3
    ensures Run(p, text) == Step(Step(Step(p, text[0]), text[1]), text[2])
    ensures AllFits(p, text) <==>
            Fits(p, text[0]) && Fits(Step(p, text[0]), text[1]) && Fits(Step(Step(p, text[0]), text[1]), text[2])
  {
    RunTwo(Step(p, text[0]), text[1..]);
  }

  /** `<n>mv/<n>mv` and `<n>ma/<n>ma`. */
  lemma {:induction false} RunPair(p: Parser, s: string, a: string, unit: char)
    requires p.state == IDLE && NumberOk(s) && NumberOk(a) && unit in {'v', 'a'}
    ensures var text := s + ['m', unit, '/'] + a + ['m', unit];
            && AllFits(p, text) && Run(p, text).state == IDLE
            && Run(p, text).fields == Apply(p.fields, if unit == 'v' then Volts(s, a) else Amps(s, a))
  {
    var m, u := ['m', unit, '/'], ['m', unit];
    RunAppend(p, s + m + a, u);
    RunAppend(p, s + m, a);
    RunAppend(p, s, m);
    RunNumber(p, s);
    var p1 := Run(p, s);
    RunThree(p1, m);
    var p2 := Run(p1, m);
    assert a[0..] == a;
    RunSecondDigits(p2, a, 0, 0);
    RunTwo(Run(p2, a), u);
  }

  lemma {:induction false} RunFlag(p: Parser, k: string, on: bool)
    requires p.state == IDLE && KeyOk(k)
    ensures var text := k + (if on then ":on" else ":off");
            AllFits(p, text) && Run(p, text).state == IDLE && Run(p, text).fields == SetFlag(p.fields, k, on)
  {
    var t := if on then ":on" else ":off";
    RunAppend(p, k, t);
    RunKey(p, k);
    var p1 := Run(p, k);
    if on {
      RunThree(p1, t);
    } else {
      RunThree(Step(p1, ':'), t[1..]);
    }
  }

  lemma {:induction false} RunRef(p: Parser, k: string, n: string)
    requires p.state == IDLE && KeyOk(k) && NumberOk(n)
    ensures var text := k + "=" + n + "mv";
            AllFits(p, text) && Run(p, text).state == IDLE && Run(p, text).fields == p.fields.(vref := Value(n))
  {
    RunAppend(p, k + "=" + n, "mv");
    RunAppend(p, k + "=", n);
    RunAppend(p, k, "=");
    RunKey(p, k);
    var p1 := Run(p, k);
    assert "="[1..] == "" && Run(p1, "=") == Step(p1, '=');
    RunNumber(Step(p1, '='), n);
    RunTwo(Run(Step(p1, '='), n), "mv");
  }

  /** From the idle state a report leaves exactly its own value behind. */
  lemma {:induction false} RunReport(p: Parser, r: Report)
    requires p.state == IDLE && ReportOk(r)
    ensures AllFits(p, Text(r)) && Run(p, Text(r)).state == IDLE && Run(p, Text(r)).fields == Apply(p.fields, r)
  {
    match r
    case Volts(s, a) => RunPair(p, s, a, 'v');
    case Amps(s, a) => RunPair(p, s, a, 'a');
    case Flag(k, on) => RunFlag(p, k, on);
    case Ref(k, n) => RunRef(p, k, n);
  }

  /** Neither a letter nor a digit: nothing in it starts a report. */
  ghost predicate Separates(text: string) {
    forall i :: 0 <= i < |text| ==> !IsAlnum(text[i])
  }

  lemma {:induction false} RunSeparator(p: Parser, text: string)
    requires p.state == IDLE && Separates(text)
    ensures Run(p, text) == p && AllFits(p, text)
    decreases |text|
  {
    if text != "" {
      assert !IsAlnum(text[0]);
      RunSeparator(p, text[1..]);
    }
  }

  /** A character that ends whatever is being read, such as a newline or a space. */
  predicate Resets(ch: char) {
    !IsAlnum(ch) && ch !in {':', '=', '/'}
  }

  lemma {:induction false} StepResets(p: Parser, ch: char)
    requires Resets(ch)
    ensures Fits(p, ch) && Step(p, ch).state == IDLE && Step(p, ch).fields == p.fields
  {}

  /** What comes before the first report; it ends what was being read, if anything. */
  ghost predicate Leads(p: Parser, text: string) {
    Separates(text) && (p.state == IDLE || (text != "" && Resets(text[0])))
  }

  lemma {:induction false} RunLead(p: Parser, text: string)
    requires Leads(p, text)
    ensures AllFits(p, text) && Run(p, text).state == IDLE && Run(p, text).fields == p.fields
  {
    if p.state == IDLE {
      RunSeparator(p, text);
    } else {
      StepResets(p, text[0]);
      RunSeparator(Step(p, text[0]), text[1..]);
    }
  }

  /** Reports, each with a text behind it. */
  function Reports(rs: seq<Report>, seps: seq<string>): string
    requires |seps| == |rs|
  {
    if rs == [] then "" else Text(rs[0]) + (seps[0] + Reports(rs[1..], seps[1..]))
  }

  ghost predicate ReportsOk(rs: seq<Report>, seps: seq<string>) {
    |seps| == |rs| && forall i :: 0 <= i < |rs| ==> ReportOk(rs[i]) && Separates(seps[i])
  }

  function ApplyAll(f: Fields, rs: seq<Report>): Fields
    decreases |rs|
  {
    if rs == [] then f else ApplyAll(Apply(f, rs[0]), rs[1..])
  }

  /** From the idle state any sequence of reports, with any separators between them,
      leaves the fields as the reports say; the key buffer is never overrun. */
  lemma {:induction false} RunReports(p: Parser, rs: seq<Report>, seps: seq<string>)
    requires p.state == IDLE && ReportsOk(rs, seps)
    ensures AllFits(p, Reports(rs, seps)) && Run(p, Reports(rs, seps)).state == IDLE
    ensures Run(p, Reports(rs, seps)).fields == ApplyAll(p.fields, rs)
    decreases |rs|
  {
    if rs != [] {
      var t, rest := Text(rs[0]), Reports(rs[1..], seps[1..]);
      RunAppend(p, t, seps[0] + rest);
      RunReport(p, rs[0]);
      var q := Run(p, t);
      RunAppend(q, seps[0], rest);
      RunSeparator(q, seps[0]);
      RunReports(q, rs[1..], seps[1..]);
    }
  }

  /** What the driver makes of the bytes of several reads: it lowers each character. */
  function LowerAll(chunks: seq<string>): string {
    if chunks == [] then "" else Lower(chunks[0]) + LowerAll(chunks[1..])
  }

  function RunReads(p: Parser, chunks: seq<string>): Parser
    decreases |chunks|
  {
    if chunks == [] then p else RunReads(Run(p, Lower(chunks[0])), chunks[1..])
  }

  /** No read overruns the key buffer. */
  predicate ReadsFit(p: Parser, chunks: seq<string>)
    decreases |chunks|
  {
    chunks == [] || (AllFits(p, Lower(chunks[0])) && ReadsFit(Run(p, Lower(chunks[0])), chunks[1..]))
  }

  lemma {:induction false} ReadsAsOne(p: Parser, chunks: seq<string>)
    ensures RunReads(p, chunks) == Run(p, LowerAll(chunks))
    ensures ReadsFit(p, chunks) <==> AllFits(p, LowerAll(chunks))
    decreases |chunks|
  {
    if chunks != [] {
      RunAppend(p, Lower(chunks[0]), LowerAll(chunks[1..]));
      ReadsAsOne(Run(p, Lower(chunks[0])), chunks[1..]);
    }
  }

  /** The same from any state, behind what ends that state, in letters of either case,
      and in any split into reads. */
  lemma {:induction false} ReadReports(p: Parser, lead: string, rs: seq<Report>, seps: seq<string>, chunks: seq<string>)
    requires Leads(p, lead) && ReportsOk(rs, seps)
    requires LowerAll(chunks) == lead + Reports(rs, seps)
    ensures ReadsFit(p, chunks) && RunReads(p, chunks).state == IDLE
    ensures RunReads(p, chunks).fields == ApplyAll(p.fields, rs)
  {
    RunLead(p, lead);
    RunAppend(p, lead, Reports(rs, seps));
    RunReports(Run(p, lead), rs, seps);
    ReadsAsOne(p, chunks);
  }

  // ---- Each field holds its last report ------------------------------------

  datatype Slot = VOLTAGE | CURRENT | VREF | SWITCH(index: nat)

  function SlotOf(r: Report): Slot {
    match r
    case Volts(_, _) => VOLTAGE
    case Amps(_, _) => CURRENT
    case Flag(k, _) => SWITCH(KeyIndex(k))
    case Ref(_, _) => VREF
  }

  /** A switch of the device, by its position in the driver's table. */
  function Switch(f: Fields, index: nat): bool
    requires index < 5
  {
    match index
    case 0 => f.vbat
    case 1 => f.btn1
    case 2 => f.btn2
    case 3 => f.btn3
    case _ => f.vbus
  }

  /** The fields hold what the report says. */
  ghost predicate Says(f: Fields, r: Report) {
    match r
    case Volts(s, a) => f.voltageSet == Value(s) && f.voltageActual == Value(a)
    case Amps(s, a) => f.currentSet == Value(s) && f.currentActual == Value(a)
    case Flag(k, on) => KeyIndex(k) < 5 ==> Switch(f, KeyIndex(k)) == on
    case Ref(_, n) => f.vref == Value(n)
  }

  lemma {:induction false} OtherKeeps(f: Fields, r: Report, other: Report)
    requires Says(f, r) && SlotOf(other) != SlotOf(r)
    ensures Says(Apply(f, other), r)
  {
    if other.Flag? {
      SwitchKeeps(f, KeyIndex(other.key), other.on, if r.Flag? then KeyIndex(r.key) else 6);
    }
  }

  lemma {:induction false} SwitchKeeps(f: Fields, i: nat, on: bool, index: nat)
    requires i != index
    ensures var g := SetSwitch(f, i, on);
            && (index < 5 ==> Switch(g, index) == Switch(f, index))
            && g.vref == f.vref && g.voltageSet == f.voltageSet && g.voltageActual == f.voltageActual
            && g.currentSet == f.currentSet && g.currentActual == f.currentActual
  {}

  lemma {:induction false} SwitchSet(f: Fields, i: nat, on: bool)
    ensures i < 5 ==> Switch(SetSwitch(f, i, on), i) == on
  {}

  lemma {:induction false} SaidThen(f: Fields, r: Report)
    ensures Says(Apply(f, r), r)
  {
    if r.Flag? {
      SwitchSet(f, KeyIndex(r.key), r.on);
    }
  }

  /** Reports about other slots leave what was said of a slot alone. */
  lemma {:induction false} OthersKeep(f: Fields, r: Report, later: seq<Report>)
    requires Says(f, r) && forall i :: 0 <= i < |later| ==> SlotOf(later[i]) != SlotOf(r)
    ensures Says(ApplyAll(f, later), r)
    decreases |later|
  {
    if later != [] {
      OtherKeeps(f, r, later[0]);
      OthersKeep(Apply(f, later[0]), r, later[1..]);
    }
  }

  lemma {:induction false} ApplyAppend(f: Fields, a: seq<Report>, b: seq<Report>)
    ensures ApplyAll(f, a + b) == ApplyAll(ApplyAll(f, a), b)
    decreases |a|
  {
    if a == [] {
      assert a + b == b;
    } else {
      assert (a + b)[1..] == a[1..] + b;
      ApplyAppend(Apply(f, a[0]), a[1..], b);
    }
  }

  /** The last report about a slot is what the fields say of it afterwards. */
  lemma {:induction false} LastReportHolds(f: Fields, rs: seq<Report>, i: nat)
    requires i < |rs| && forall j :: i < j < |rs| ==> SlotOf(rs[j]) != SlotOf(rs[i])
    ensures Says(ApplyAll(f, rs), rs[i])
  {
    assert rs == rs[..i] + ([rs[i]] + rs[i + 1..]);
    var g := ApplyAll(f, rs[..i]);
    ApplyAppend(f, rs[..i], [rs[i]] + rs[i + 1..]);
    assert ([rs[i]] + rs[i + 1..])[1..] == rs[i + 1..];
    SaidThen(g, rs[i]);
    var later := rs[i + 1..];
    forall j | 0 <= j < |later| ensures SlotOf(later[j]) != SlotOf(rs[i]) {
      assert later[j] == rs[i + 1 + j];
    }
    OthersKeep(Apply(g, rs[i]), rs[i], later);
  }

  /** The switches by their names. */
  lemma {:induction false} SwitchNames(f: Fields, on: bool)
    ensures SetFlag(f, "vbat", on) == f.(vbat := on) && SetFlag(f, "vbus", on) == f.(vbus := on)
    ensures SetFlag(f, "btn1", on) == f.(btn1 := on) && SetFlag(f, "btn2", on) == f.(btn2 := on)
    ensures SetFlag(f, "btn3", on) == f.(btn3 := on)
  {
    KeysDiffer();
  }

  lemma {:induction false} KeysDiffer()
    ensures "vbus"[1] == 'b' && "vbat"[1] == 'b' && "vbus"[2] == 'u' && "vbat"[2] == 'a'
    ensures "btn1"[0] == 'b' && "btn2"[0] == 'b' && "btn3"[0] == 'b' && "vbat"[0] == 'v' && "vbus"[0] == 'v'
    ensures "btn1"[3] == '1' && "btn2"[3] == '2' && "btn3"[3] == '3'
  {}

  /** A key with any other name sets nothing. */
  lemma {:induction false} OtherNames(f: Fields, key: string, on: bool)
    requires key !in {"vbat", "btn1", "btn2", "btn3", "vbus"}
    ensures SetFlag(f, key, on) == f
  {}

  lemma {:induction false} OneDigitValue(c: char)
    requires IsDigit(c)
    ensures Value([c]) == c as int - '0' as int
  {
    assert DigitsFrom([c], 1, 10, 0 * 10 + DigitValue(c)) == DigitValue(c);
  }

  /** Set before actual, in either unit, and a reference behind any name. */
  lemma {:induction false} FieldsByName(p: Parser)
    requires p.state == IDLE
    ensures var f := Run(p, "5" + "mv/" + "7" + "mv").fields; f.voltageSet == 5 && f.voltageActual == 7
    ensures var f := Run(p, "5" + "ma/" + "7" + "ma").fields; f.currentSet == 5 && f.currentActual == 7
    ensures Run(p, "r" + "=" + "9" + "mv").fields.vref == 9
  {
    OneDigitValue('5');
    OneDigitValue('7');
    OneDigitValue('9');
    RunReport(p, Volts("5", "7"));
    RunReport(p, Amps("5", "7"));
    RunReport(p, Ref("r", "9"));
  }
}
