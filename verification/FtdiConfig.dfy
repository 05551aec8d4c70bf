/** The legacy configuration string of `drivers/ftdi-gpio.c`:
    `<description>;<interface>;<name>,<offset>,<polarity>;...`. */
module FtdiConfig {
  import opened Bytes
  import opened CLib

  const POWER := 0
  const FASTBOOT_KEY := 1
  const POWER_KEY := 2
  const USB0_DISCONNECT := 3
  const USB1_DISCONNECT := 4
  const OUTPUT_ENABLE := 5
  const GPIO_COUNT := 6

  datatype Gpio = Gpio(present: bool, interface: nat, offset: nat, activeLow: bool)

  /** What `errx` ends the program with. */
  datatype Error = InterfaceInvalid | ConfigInvalid | TypeInvalid | OffsetInvalid | PolarityInvalid

  datatype Parsed = Parsed(error: Option<Error>, gpios: seq<Gpio>)

  /** The bound of a `strncmp` whose length argument wraps below zero. */
  const UNBOUNDED: nat := U64 - 1

  // ---- The parser as a function --------------------------------------------

  /** The name of a line; the legacy string has none for `USB1_DISCONNECT`. */
  function Name(g: nat): string {
    if g == POWER then "POWER"
    else if g == FASTBOOT_KEY then "FASTBOOT_KEY"
    else if g == POWER_KEY then "POWER_KEY"
    else if g == USB0_DISCONNECT then "USB_DISCONNECT"
    else "OUTPUT_ENABLE"
  }

  predicate Named(g: nat) {
    g < GPIO_COUNT && g != USB1_DISCONNECT
  }

  /** A name and the line that it stands for. */
  datatype Word = Word(name: string, line: nat)

  /** The words of a configuration string: the names in the order they are compared,
      and the two polarities. */
  datatype Vocabulary = Vocabulary(names: seq<Word>, high: string, low: string)

  predicate IsPolarity(s: string) {
    s != "" && ';' !in s && |s| < UNBOUNDED
  }

  type Words = w: Vocabulary |
      IsPolarity(w.high) && IsPolarity(w.low) && forall k :: 0 <= k < |w.names| ==> w.names[k].line < GPIO_COUNT
    witness Vocabulary([], "1", "0")

  const WORDS: Words := Vocabulary(
      [Word(Name(POWER), POWER), Word(Name(FASTBOOT_KEY), FASTBOOT_KEY), Word(Name(POWER_KEY), POWER_KEY),
       Word(Name(USB0_DISCONNECT), USB0_DISCONNECT), Word(Name(OUTPUT_ENABLE), OUTPUT_ENABLE)],
      "ACTIVE_HIGH", "ACTIVE_LOW")

  /** The line of the first name from the `k`-th on that the `n` characters at `p` stand for. */
  function TypeFrom(w: Words, s: string, p: nat, n: nat, k: nat): (r: Option<nat>)
    requires p <= |s| && k <= |w.names|
    ensures r.Some? ==> r.value < GPIO_COUNT
    decreases |w.names| - k
  {
    if k == |w.names| then None
    else if StrNEq(w.names[k].name, s, p, n) then Some(w.names[k].line)
    else TypeFrom(w, s, p, n, k + 1)
  }

  /** Whether the polarity at `p` is low; `c` is the next semicolon, if there is one. */
  function PolarityAt(w: Words, s: string, p: nat, c: Option<nat>): Option<bool>
    requires p <= |s| && (c.Some? ==> p <= c.value)
  {
    var n := if c.Some? && c.value > p then c.value - p - 1 else UNBOUNDED;
    if StrNEq(w.high, s, p, n) then Some(false)
    else if StrNEq(w.low, s, p, n) then Some(true)
    else None
  }

  /** The offset at `p`, in `unsigned int`. */
  function OffsetAt(s: string, p: nat): nat
    requires p <= |s|
  {
    StrToUL(s, p, 0) % U32
  }

  /** What an entry asks for. */
  datatype Setting = Wrong(error: Error) | Sets(line: nat, offset: nat, activeLow: bool)

  /** The verdict on the three fields of an entry, in the order they are looked at. */
  function Judge(line: Option<nat>, offset: nat, low: Option<bool>): (r: Setting)
    ensures r.Sets? ==> r.offset <= 7 && line == Some(r.line)
  {
    if line.None? then Wrong(TypeInvalid)
    else if offset > 7 then Wrong(OffsetInvalid)
    else if low.None? then Wrong(PolarityInvalid)
    else Sets(line.value, offset, low.value)
  }

  /** An entry, and the semicolon behind it, if there is one. */
  datatype Read = Read(setting: Setting, semi: Option<nat>)

  function ReadEntry(w: Words, s: string, name: nat): (r: Read)
    requires name <= |s|
    ensures r.semi.Some? ==> name < r.semi.value < |s|
    ensures r.setting.Sets? ==> r.setting.line < GPIO_COUNT
  {
    var i := StrChrFrom(s, name, ',');
    if i.None? then Read(Wrong(ConfigInvalid), None)
    else
      var off := i.value + 1;
      var j := StrChrFrom(s, off, ',');
      if j.None? then Read(Wrong(ConfigInvalid), None)
      else
        var pol := j.value + 1;
        var c := StrChrFrom(s, pol, ';');
        Read(Judge(TypeFrom(w, s, name, off - name - 1, 0), OffsetAt(s, off), PolarityAt(w, s, pol, c)), c)
  }

  /** The entries behind the semicolon at `c`, if there is one. */
  function ParseGpios(w: Words, s: string, c: Option<nat>, interface: nat, gpios: seq<Gpio>): (r: Parsed)
    requires |gpios| == GPIO_COUNT && (c.Some? ==> c.value < |s|)
    ensures |r.gpios| == GPIO_COUNT
    decreases if c.Some? then |s| - c.value else 0
  {
    if c.None? then Parsed(None, gpios)
    else
      var r := ReadEntry(w, s, c.value + 1);
      match r.setting
      case Wrong(error) => Parsed(Some(error), gpios)
      case Sets(g, offset, low) => ParseGpios(w, s, r.semi, interface, gpios[g := Gpio(true, interface, offset, low)])
  }

  predicate IsInterface(c: char) {
    'A' <= c <= 'D'
  }

  /** What follows the description, from `p` on. */
  function ParseInterface(w: Words, s: string, p: nat, gpios: seq<Gpio>): (r: Parsed)
    requires p <= |s| && |gpios| == GPIO_COUNT
    ensures |r.gpios| == GPIO_COUNT
  {
    if !IsInterface(CharAt(s, p)) then Parsed(Some(InterfaceInvalid), gpios)
    else ParseGpios(w, s, StrChrFrom(s, p, ';'), CharAt(s, p) as int - 'A' as int, gpios)
  }

  /** The interface is one of the letters A to D, which stand for 0 to 3. */
  lemma {:induction false} InterfaceIff(w: Words, s: string, p: nat, gpios: seq<Gpio>)
    requires p <= |s| && |gpios| == GPIO_COUNT
    ensures p < |s| && 65 <= s[p] as int <= 68 ==>
              ParseInterface(w, s, p, gpios) == ParseGpios(w, s, StrChrFrom(s, p, ';'), s[p] as int - 65, gpios)
    ensures p == |s| || s[p] as int < 65 || s[p] as int > 68 ==>
              ParseInterface(w, s, p, gpios) == Parsed(Some(InterfaceInvalid), gpios)
  {}

  // ---- The parser as it runs -----------------------------------------------

  /** The body of the loop of `ftdi_gpio_parse_config`, up to its assignments. */
  method EntryAt(w: Words, value: string, name: nat) returns (r: Read)
    requires name <= |value|
    ensures r == ReadEntry(w, value, name)
  {
    var i := StrChrFrom(value, name, ',');
    if i.None? {
      return Read(Wrong(ConfigInvalid), None);
    }
    var off := i.value + 1;
    var j := StrChrFrom(value, off, ',');
    if j.None? {
      return Read(Wrong(ConfigInvalid), None);
    }
    var pol := j.value + 1;
    var c := StrChrFrom(value, pol, ';');
    var gpioType := TypeFrom(w, value, name, off - name - 1, 0);
    if gpioType.None? {
      return Read(Wrong(TypeInvalid), c);
    }
    var gpioOffset := OffsetAt(value, off);
    if gpioOffset > 7 {
      return Read(Wrong(OffsetInvalid), c);
    }
    var activeLow := PolarityAt(w, value, pol, c);
    if activeLow.None? {
      return Read(Wrong(PolarityInvalid), c);
    }
    r := Read(Sets(gpioType.value, gpioOffset, activeLow.value), c);
  }

  /** `struct ftdi_gpio_options`; only the fields the legacy string reaches. */
  class Options {
    var description: Option<string>
    const gpios: array<Gpio>

    /** As `calloc` leaves it. */
    constructor ()
      ensures description == None && fresh(gpios) && gpios.Length == GPIO_COUNT
      ensures forall g :: 0 <= g < GPIO_COUNT ==> gpios[g] == Gpio(false, 0, 0, false)
    {
      description := None;
      gpios := new Gpio[GPIO_COUNT](_ => Gpio(false, 0, 0, false));
    }

    /** The loop of `ftdi_gpio_parse_config`, over the entries behind the semicolon `c`. */
    method ParseEntries(w: Words, value: string, semi: Option<nat>, ftdiInterface: nat) returns (error: Option<Error>)
      requires gpios.Length == GPIO_COUNT && (semi.Some? ==> semi.value < |value|)
      modifies gpios
      ensures Parsed(error, gpios[..]) == ParseGpios(w, value, semi, ftdiInterface, old(gpios[..]))
    {
      var c := semi;
      while c.Some?
        invariant c.Some? ==> c.value < |value|
        invariant ParseGpios(w, value, semi, ftdiInterface, old(gpios[..])) ==
                  ParseGpios(w, value, c, ftdiInterface, gpios[..])
        decreases if c.Some? then |value| - c.value else 0
      {
        var r := EntryAt(w, value, c.value + 1);
        if r.setting.Wrong? {
          return Some(r.setting.error);
        }
        c := r.semi;
        ghost var before := gpios[..];
        gpios[r.setting.line] := Gpio(true, ftdiInterface, r.setting.offset, r.setting.activeLow);
        assert gpios[..] == before[r.setting.line := Gpio(true, ftdiInterface, r.setting.offset, r.setting.activeLow)];
      }
      error := None;
    }

    /** `ftdi_gpio_parse_config`; the string ends where `value` does. */
    method ParseConfig(w: Words, value: string) returns (error: Option<Error>)
      requires NulFree(value) && gpios.Length == GPIO_COUNT
      modifies this`description, gpios
      ensures match StrChrFrom(value, 0, ';')
              case None => error == None && description == Some(value) && gpios[..] == old(gpios[..])
              case Some(k) =>
                && description == Some(value[..k])
                && Parsed(error, gpios[..]) == ParseInterface(w, value, k + 1, old(gpios[..]))
    {
      var c := StrChrFrom(value, 0, ';');
      description := Some(if c.None? then value else value[..c.value]);
      if c.None? {
        return None;
      }
      var interface := c.value + 1;
      if !IsInterface(CharAt(value, interface)) {
        return Some(InterfaceInvalid);
      }
      var ftdiInterface := value[interface] as int - 'A' as int;
      error := ParseEntries(w, value, StrChrFrom(value, interface, ';'), ftdiInterface);
    }
  }

  // ---- What the entries mean -----------------------------------------------

  /** The three fields of an entry. */
  datatype Entry = Entry(name: string, offset: string, polarity: string)

  ghost predicate Plain(s: string) {
    ',' !in s && ';' !in s
  }

  ghost predicate EntryOk(e: Entry) {
    Plain(e.name) && Plain(e.offset) && Plain(e.polarity)
  }

  /** The entries, each behind a semicolon. */
  function Text(es: seq<Entry>): string {
    if es == [] then ""
    else [';'] + (es[0].name + ([','] + (es[0].offset + ([','] + (es[0].polarity + Text(es[1..]))))))
  }

  /** The line of the first name from the `k`-th on that starts with `name`. */
  function NameFrom(w: Words, name: string, k: nat): (r: Option<nat>)
    requires k <= |w.names|
    ensures r.Some? ==> r.value < GPIO_COUNT
    decreases |w.names| - k
  {
    if k == |w.names| then None
    else if name <= w.names[k].name then Some(w.names[k].line)
    else NameFrom(w, name, k + 1)
  }

  /** What a polarity says: the last entry is read in full, any other without its
      last character. */
  function PolarityOf(w: Words, polarity: string, last: bool): Option<bool> {
    if last || polarity == "" then
      (if polarity == w.high then Some(false) else if polarity == w.low then Some(true) else None)
    else
      var seen := polarity[..|polarity| - 1];
      if seen <= w.high then Some(false) else if seen <= w.low then Some(true) else None
  }

  function EntrySetting(w: Words, e: Entry, last: bool): (r: Setting)
    ensures r.Sets? ==> r.line < GPIO_COUNT && r.offset <= 7
  {
    Judge(NameFrom(w, e.name, 0), StrToUL(e.offset, 0, 0) % U32, PolarityOf(w, e.polarity, last))
  }

  /** The lines as the entries leave them; the first wrong one ends it. */
  function Denote(w: Words, es: seq<Entry>, interface: nat, gpios: seq<Gpio>): (r: Parsed)
    requires |gpios| == GPIO_COUNT
    ensures |r.gpios| == GPIO_COUNT
    decreases |es|
  {
    if es == [] then Parsed(None, gpios)
    else
      match EntrySetting(w, es[0], |es| == 1)
      case Wrong(error) => Parsed(Some(error), gpios)
      case Sets(g, off, low) => Denote(w, es[1..], interface, gpios[g := Gpio(true, interface, off, low)])
  }

  /** Where the fields of `e` stand in `s`, from `name` to `end`. */
  ghost predicate Laid(s: string, name: nat, e: Entry, end: nat) {
    var off := name + |e.name| + 1;
    var pol := off + |e.offset| + 1;
    && end == pol + |e.polarity| <= |s|
    && Holds(s, name, e.name) && s[off - 1] == ','
    && Holds(s, off, e.offset) && s[pol - 1] == ','
    && Holds(s, pol, e.polarity) && (end < |s| ==> s[end] == ';')
  }

  /** A separator is found right behind a field without it. */
  lemma {:induction false} FieldEnds(s: string, p: nat, field: string, c: char)
    requires Holds(s, p, field) && c !in field
    requires p + |field| < |s| ==> s[p + |field|] == c
    ensures StrChrFrom(s, p, c) == if p + |field| == |s| then None else Some(p + |field|)
  {
    forall i | p <= i < p + |field|
      ensures s[i] != c
    {
      assert s[p + (i - p)] == field[i - p];
    }
    StrChrFromIff(s, p, c, p + |field|);
  }

  lemma {:induction false} NameRead(w: Words, s: string, p: nat, name: string, k: nat)
    requires Holds(s, p, name) && k <= |w.names|
    ensures TypeFrom(w, s, p, |name|, k) == NameFrom(w, name, k)
    decreases |w.names| - k
  {
    if k < |w.names| {
      StrNEqWithin(w.names[k].name, s, p, name);
      NameRead(w, s, p, name, k + 1);
    }
  }

  lemma {:induction false} OffsetRead(s: string, p: nat, offset: string)
    requires Holds(s, p, offset) && p + |offset| < |s| && s[p + |offset|] == ','
    ensures OffsetAt(s, p) == StrToUL(offset, 0, 0) % U32
  {
    StrToULWithin(s, p, offset, 0);
  }

  lemma {:induction false} LiteralRead(lit: string, s: string, p: nat, field: string)
    requires Holds(s, p, field) && IsPolarity(lit)
    requires p + |field| < |s| ==> s[p + |field|] == ';'
    ensures p + |field| == |s| || field == "" ==> (StrNEq(lit, s, p, UNBOUNDED) <==> field == lit && p + |field| == |s|)
    ensures p + |field| < |s| && field != "" ==> (StrNEq(lit, s, p, |field| - 1) <==> field[..|field| - 1] <= lit)
  {
    StrNEqBeyond(lit, s, p, UNBOUNDED);
    if p + |field| < |s| {
      if field == "" {
        assert lit != "" ==> lit[0] != ';';
      } else {
        StrNEqWithin(lit, s, p, field[..|field| - 1]);
      }
    }
  }

  lemma {:induction false} PolarityRead(w: Words, s: string, p: nat, polarity: string)
    requires Holds(s, p, polarity) && (p + |polarity| < |s| ==> s[p + |polarity|] == ';')
    ensures PolarityAt(w, s, p, if p + |polarity| == |s| then None else Some(p + |polarity|)) ==
            PolarityOf(w, polarity, p + |polarity| == |s|)
  {
    LiteralRead(w.high, s, p, polarity);
    LiteralRead(w.low, s, p, polarity);
  }

  /** The separators of an entry are the ones the parser finds. */
  lemma {:induction false} SeparatorsFound(s: string, name: nat, e: Entry, end: nat)
    requires Laid(s, name, e, end) && EntryOk(e)
    ensures var off := name + |e.name| + 1;
            var pol := off + |e.offset| + 1;
            && StrChrFrom(s, name, ',') == Some(off - 1) && StrChrFrom(s, off, ',') == Some(pol - 1)
            && StrChrFrom(s, pol, ';') == if end == |s| then None else Some(end)
  {
    var off := name + |e.name| + 1;
    FieldEnds(s, name, e.name, ',');
    FieldEnds(s, off, e.offset, ',');
    FieldEnds(s, off + |e.offset| + 1, e.polarity, ';');
  }

  /** An entry is what its separators and fields say. */
  lemma {:induction false} ReadEntryIs(w: Words, s: string, name: nat, i: nat, j: nat, c: Option<nat>,
                                       line: Option<nat>,
                                       offset: nat, low: Option<bool>)
    requires name <= i < j < |s| && (c.Some? ==> j < c.value)
    requires StrChrFrom(s, name, ',') == Some(i) && StrChrFrom(s, i + 1, ',') == Some(j)
    requires StrChrFrom(s, j + 1, ';') == c && TypeFrom(w, s, name, i + 1 - name - 1, 0) == line
    requires OffsetAt(s, i + 1) == offset && PolarityAt(w, s, j + 1, c) == low
    ensures ReadEntry(w, s, name) == Read(Judge(line, offset, low), c)
  {}

  lemma {:induction false} FieldsRead(w: Words, s: string, name: nat, e: Entry, end: nat, line: Option<nat>,
                                      offset: nat, low: Option<bool>)
    requires Laid(s, name, e, end) && EntryOk(e)
    requires NameFrom(w, e.name, 0) == line && StrToUL(e.offset, 0, 0) % U32 == offset
    requires PolarityOf(w, e.polarity, end == |s|) == low
    ensures ReadEntry(w, s, name) == Read(Judge(line, offset, low), if end == |s| then None else Some(end))
  {
    var i := name + |e.name|;
    var j := i + 1 + |e.offset|;
    SeparatorsFound(s, name, e, end);
    NameRead(w, s, name, e.name, 0);
    OffsetRead(s, i + 1, e.offset);
    PolarityRead(w, s, j + 1, e.polarity);
    ReadEntryIs(w, s, name, i, j, if end == |s| then None else Some(end), line, offset, low);
  }

  /** An entry is read by its own three fields alone, but for whether it is the last. */
  lemma {:induction false} EntryRead(w: Words, s: string, name: nat, e: Entry, end: nat)
    requires Laid(s, name, e, end) && EntryOk(e)
    ensures ReadEntry(w, s, name) == Read(EntrySetting(w, e, end == |s|), if end == |s| then None else Some(end))
  {
    FieldsRead(w, s, name, e, end, NameFrom(w, e.name, 0), StrToUL(e.offset, 0, 0) % U32,
               PolarityOf(w, e.polarity, end == |s|));
  }

  /** The next piece of a text. */
  lemma {:induction false} PieceAt(s: string, p: nat, a: string, b: string)
    requires p <= |s| && s[p..] == a + b
    ensures Holds(s, p, a) && s[p + |a|..] == b
  {
    assert s[p..][|a|..] == b;
    forall i | 0 <= i < |a|
      ensures s[p + i] == a[i]
    {
      assert s[p..][i] == a[i];
    }
  }

  /** The next field of a text, and the separator behind it. */
  lemma {:induction false} FieldNext(s: string, p: nat, a: string, c: char, b: string)
    requires p <= |s| && s[p..] == a + ([c] + b)
    ensures p + |a| < |s| && Holds(s, p, a) && s[p + |a|] == c && s[p + |a| + 1..] == b
  {
    PieceAt(s, p, a, [c] + b);
    PieceAt(s, p + |a|, [c], b);
    assert s[p + |a|..][0] == c;
  }

  /** Where an entry behind a semicolon at `c` ends. */
  function EndOf(c: nat, e: Entry): nat {
    c + |e.name| + |e.offset| + |e.polarity| + 3
  }

  /** The last two fields of an entry. */
  lemma {:induction false} TailLaid(s: string, off: nat, e: Entry, t2: string, rest: string)
    requires off <= |s| && s[off..] == e.offset + ([','] + t2) && t2 == e.polarity + rest
    ensures var pol := off + |e.offset| + 1;
            && Holds(s, off, e.offset) && pol <= |s| && s[pol - 1] == ','
            && Holds(s, pol, e.polarity) && s[pol + |e.polarity|..] == rest
  {
    FieldNext(s, off, e.offset, ',', t2);
    PieceAt(s, off + |e.offset| + 1, e.polarity, rest);
  }

  lemma {:induction false} FieldsLaid(s: string, name: nat, e: Entry, t1: string, t2: string, rest: string)
    requires name <= |s| && s[name..] == e.name + ([','] + t1) && t1 == e.offset + ([','] + t2)
    requires t2 == e.polarity + rest && (rest == "" || rest[0] == ';')
    ensures var end := name + |e.name| + |e.offset| + |e.polarity| + 2;
            Laid(s, name, e, end) && s[end..] == rest
  {
    var end := name + |e.name| + |e.offset| + |e.polarity| + 2;
    FieldNext(s, name, e.name, ',', t1);
    TailLaid(s, name + |e.name| + 1, e, t2, rest);
    assert rest != "" ==> s[end..][0] == ';';
  }

  lemma {:induction false} EntryLaid(s: string, c: nat, e: Entry, t: string, rest: string)
    requires c <= |s| && s[c..] == [';'] + t && t == e.name + ([','] + (e.offset + ([','] + (e.polarity + rest))))
    requires rest == "" || rest[0] == ';'
    ensures c < |s| && s[c] == ';' && Laid(s, c + 1, e, EndOf(c, e)) && s[EndOf(c, e)..] == rest
  {
    var t2 := e.polarity + rest;
    PieceAt(s, c, [';'], t);
    assert s[c + 0] == [';'][0];
    FieldsLaid(s, c + 1, e, e.offset + ([','] + t2), t2, rest);
  }

  /** The entries stand in `s` from `c` to its end. */
  ghost predicate AllLaid(s: string, c: nat, es: seq<Entry>)
    decreases |es|
  {
    if es == [] then c == |s|
    else c < |s| && s[c] == ';' && Laid(s, c + 1, es[0], EndOf(c, es[0])) && AllLaid(s, EndOf(c, es[0]), es[1..])
  }

  lemma {:induction false} TextLaid(s: string, c: nat, es: seq<Entry>)
    requires c <= |s| && s[c..] == Text(es)
    ensures AllLaid(s, c, es)
    decreases |es|
  {
    if es != [] {
      var e, rest := es[0], Text(es[1..]);
      EntryLaid(s, c, e, e.name + ([','] + (e.offset + ([','] + (e.polarity + rest)))), rest);
      TextLaid(s, EndOf(c, e), es[1..]);
    }
  }

  /** The semicolon at `c`, unless the text ends there. */
  function SemiAt(s: string, c: nat): Option<nat> {
    if c == |s| then None else Some(c)
  }

  lemma {:induction false} LaidRest(s: string, c: nat, es: seq<Entry>)
    requires AllLaid(s, c, es)
    ensures c <= |s| && (c == |s| <==> es == []) && (c < |s| ==> s[c] == ';')
  {}

  /** One entry more, given what the parser makes of it and of the rest. */
  lemma {:induction false} GpiosNext(w: Words, s: string, c: nat, r: Read, interface: nat, gpios: seq<Gpio>,
                                     result: Parsed)
    requires c < |s| && ReadEntry(w, s, c + 1) == r && |gpios| == GPIO_COUNT
    requires match r.setting
             case Wrong(error) => result == Parsed(Some(error), gpios)
             case Sets(g, offset, low) =>
               result == ParseGpios(w, s, r.semi, interface, gpios[g := Gpio(true, interface, offset, low)])
    ensures ParseGpios(w, s, Some(c), interface, gpios) == result
  {}

  /** The first of the entries is read as what it asks for, and the others lie behind it. */
  lemma {:induction false} FirstRead(w: Words, s: string, c: nat, es: seq<Entry>)
    requires AllLaid(s, c, es) && es != [] && EntryOk(es[0])
    ensures var end := EndOf(c, es[0]);
            && c < end <= |s| && AllLaid(s, end, es[1..])
            && ReadEntry(w, s, c + 1) == Read(EntrySetting(w, es[0], |es| == 1), SemiAt(s, end))
  {
    LaidRest(s, c, es);
    LaidRest(s, EndOf(c, es[0]), es[1..]);
    EntryRead(w, s, c + 1, es[0], EndOf(c, es[0]));
  }

  /** The parser reads any list of entries as what they denote. */
  lemma {:induction false} GpiosRead(w: Words, s: string, c: nat, es: seq<Entry>, interface: nat, gpios: seq<Gpio>)
    requires AllLaid(s, c, es) && |gpios| == GPIO_COUNT
    requires forall e :: e in es ==> EntryOk(e)
    ensures c <= |s| && ParseGpios(w, s, SemiAt(s, c), interface, gpios) == Denote(w, es, interface, gpios)
    decreases |es|
  {
    LaidRest(s, c, es);
    if es != [] {
      FirstRead(w, s, c, es);
      var end, r := EndOf(c, es[0]), EntrySetting(w, es[0], |es| == 1);
      if r.Sets? {
        GpiosRead(w, s, end, es[1..], interface, gpios[r.line := Gpio(true, interface, r.offset, r.activeLow)]);
      }
      GpiosNext(w, s, c, Read(r, SemiAt(s, end)), interface, gpios, Denote(w, es, interface, gpios));
    }
  }

  // ---- The whole string ----------------------------------------------------

  /** The parts of a configuration string: the description, the interface, any text
      behind the interface that is no semicolon, and the entries. */
  ghost predicate IsConfig(s: string, description: string, interface: char, more: string, es: seq<Entry>) {
    var p := |description| + 1;
    && p < |s| && Holds(s, 0, description) && s[p - 1] == ';' && s[p] == interface
    && Holds(s, p + 1, more) && AllLaid(s, p + 1 + |more|, es)
  }

  lemma {:induction false} InterfaceEnds(s: string, p: nat, more: string)
    requires p < |s| && s[p] != ';' && ';' !in more && Holds(s, p + 1, more)
    requires p + 1 + |more| < |s| ==> s[p + 1 + |more|] == ';'
    ensures StrChrFrom(s, p, ';') == SemiAt(s, p + 1 + |more|)
  {
    FieldEnds(s, p + 1, more, ';');
  }

  lemma {:induction false} ParseInterfaceIs(w: Words, s: string, p: nat, semi: Option<nat>, gpios: seq<Gpio>,
                                            result: Parsed)
    requires p < |s| && IsInterface(s[p]) && StrChrFrom(s, p, ';') == semi && |gpios| == GPIO_COUNT
    requires ParseGpios(w, s, semi, s[p] as int - 'A' as int, gpios) == result
    ensures ParseInterface(w, s, p, gpios) == result
  {}

  lemma {:induction false} InterfaceRead(w: Words, s: string, p: nat, more: string, gpios: seq<Gpio>, result: Parsed)
    requires p < |s| && IsInterface(s[p]) && ';' !in more && Holds(s, p + 1, more) && |gpios| == GPIO_COUNT
    requires p + 1 + |more| < |s| ==> s[p + 1 + |more|] == ';'
    requires ParseGpios(w, s, SemiAt(s, p + 1 + |more|), s[p] as int - 'A' as int, gpios) == result
    ensures ParseInterface(w, s, p, gpios) == result
  {
    InterfaceEnds(s, p, more);
    ParseInterfaceIs(w, s, p, SemiAt(s, p + 1 + |more|), gpios, result);
  }

  lemma {:induction false} DescriptionRead(s: string, description: string)
    requires Holds(s, 0, description) && ';' !in description && |description| < |s| && s[|description|] == ';'
    ensures StrChrFrom(s, 0, ';') == Some(|description|) && s[..|description|] == description
  {
    assert s[..|description|] == description by {
      assert forall k :: 0 <= k < |description| ==> s[0 + k] == description[k];
    }
    FieldEnds(s, 0, description, ';');
  }

  lemma {:induction false} EntriesRead(w: Words, s: string, p: nat, more: string, es: seq<Entry>, gpios: seq<Gpio>,
                                       result: Parsed)
    requires p < |s| && IsInterface(s[p]) && ';' !in more && Holds(s, p + 1, more) && AllLaid(s, p + 1 + |more|, es)
    requires |gpios| == GPIO_COUNT
    requires ParseGpios(w, s, SemiAt(s, p + 1 + |more|), s[p] as int - 'A' as int, gpios) == result
    ensures ParseInterface(w, s, p, gpios) == result
  {
    LaidRest(s, p + 1 + |more|, es);
    InterfaceRead(w, s, p, more, gpios, result);
  }

  /** A whole configuration string, whatever its entries say. */
  lemma {:induction false} ConfigRead(w: Words, s: string, description: string, interface: char, more: string,
                                      es: seq<Entry>, gpios: seq<Gpio>)
    requires IsConfig(s, description, interface, more, es)
    requires ';' !in description && IsInterface(interface) && ';' !in more
    requires (forall e :: e in es ==> EntryOk(e)) && |gpios| == GPIO_COUNT
    ensures StrChrFrom(s, 0, ';') == Some(|description|) && s[..|description|] == description
    ensures ParseInterface(w, s, |description| + 1, gpios) == Denote(w, es, interface as int - 'A' as int, gpios)
  {
    var p := |description| + 1;
    DescriptionRead(s, description);
    GpiosRead(w, s, p + 1 + |more|, es, interface as int - 'A' as int, gpios);
    EntriesRead(w, s, p, more, es, gpios, Denote(w, es, interface as int - 'A' as int, gpios));
  }

  /** What entry `i` asks for. */
  function SettingAt(w: Words, es: seq<Entry>, i: nat): Setting
    requires i < |es|
  {
    EntrySetting(w, es[i], i == |es| - 1)
  }

  lemma {:induction false} SettingAtRest(w: Words, es: seq<Entry>)
    requires es != []
    ensures forall i :: 0 <= i < |es| - 1 ==> SettingAt(w, es[1..], i) == SettingAt(w, es, i + 1)
  {}

  ghost predicate Accepted(w: Words, es: seq<Entry>) {
    forall i :: 0 <= i < |es| ==> SettingAt(w, es, i).Sets?
  }

  lemma {:induction false} AcceptedRest(w: Words, es: seq<Entry>)
    requires es != []
    ensures Accepted(w, es) <==> SettingAt(w, es, 0).Sets? && Accepted(w, es[1..])
  {
    SettingAtRest(w, es);
    if SettingAt(w, es, 0).Sets? && Accepted(w, es[1..]) {
      forall i | 0 <= i < |es|
        ensures SettingAt(w, es, i).Sets?
      {
        if i > 0 {
          assert SettingAt(w, es[1..], i - 1) == SettingAt(w, es, i - 1 + 1);
        }
      }
    }
  }

  /** The configuration is accepted exactly when every entry is sound. */
  lemma {:induction false} AcceptedIff(w: Words, es: seq<Entry>, interface: nat, gpios: seq<Gpio>)
    requires |gpios| == GPIO_COUNT
    ensures Denote(w, es, interface, gpios).error == None <==> Accepted(w, es)
    decreases |es|
  {
    if es != [] {
      AcceptedRest(w, es);
      var r := SettingAt(w, es, 0);
      if r.Sets? {
        AcceptedIff(w, es[1..], interface, gpios[r.line := Gpio(true, interface, r.offset, r.activeLow)]);
      }
    }
  }

  /** A line that no entry names keeps what it was. */
  lemma {:induction false} UnnamedKept(w: Words, es: seq<Entry>, interface: nat, gpios: seq<Gpio>, g: nat)
    requires |gpios| == GPIO_COUNT && g < GPIO_COUNT && Accepted(w, es)
    requires forall i :: 0 <= i < |es| ==> SettingAt(w, es, i).line != g
    ensures Denote(w, es, interface, gpios).gpios[g] == gpios[g]
    decreases |es|
  {
    if es != [] {
      AcceptedRest(w, es);
      var r := SettingAt(w, es, 0);
      SettingAtRest(w, es);
      UnnamedKept(w, es[1..], interface, gpios[r.line := Gpio(true, interface, r.offset, r.activeLow)], g);
    }
  }

  /** The last entry for a line is the one that counts. */
  lemma {:induction false} LastEntryWins(w: Words, es: seq<Entry>, interface: nat, gpios: seq<Gpio>, i: nat)
    requires |gpios| == GPIO_COUNT && i < |es| && Accepted(w, es)
    requires forall j :: i < j < |es| ==> SettingAt(w, es, j).line != SettingAt(w, es, i).line
    ensures var r := SettingAt(w, es, i);
            Denote(w, es, interface, gpios).gpios[r.line] == Gpio(true, interface, r.offset, r.activeLow)
    decreases |es|
  {
    AcceptedRest(w, es);
    var r := SettingAt(w, es, 0);
    var next := gpios[r.line := Gpio(true, interface, r.offset, r.activeLow)];
    SettingAtRest(w, es);
    if i > 0 {
      LastEntryWins(w, es[1..], interface, next, i - 1);
    } else {
      UnnamedKept(w, es[1..], interface, next, r.line);
    }
  }

  // ---- The whole string ----------------------------------------------------

  /** The configuration string with these parts. */
  function ConfigText(description: string, interface: char, more: string, es: seq<Entry>): string {
    description + ([';'] + ([interface] + (more + Text(es))))
  }

  lemma {:induction false} HeadLaid(s: string, description: string, interface: char, t1: string, t2: string)
    requires s == description + ([';'] + t1) && t1 == [interface] + t2
    ensures var p := |description| + 1;
            p < |s| && Holds(s, 0, description) && s[p - 1] == ';' && s[p] == interface && s[p + 1..] == t2
  {
    assert s[0..] == s;
    FieldNext(s, 0, description, ';', t1);
    PieceAt(s, |description| + 1, [interface], t2);
    assert s[|description| + 1 + 0] == [interface][0];
  }

  lemma {:induction false} BodyLaid(s: string, p: nat, more: string, es: seq<Entry>)
    requires p <= |s| && s[p..] == more + Text(es)
    ensures Holds(s, p, more) && AllLaid(s, p + |more|, es)
  {
    PieceAt(s, p, more, Text(es));
    TextLaid(s, p + |more|, es);
  }

  /** Any such string has its parts where the parser looks for them. */
  lemma {:induction false} ConfigLaid(s: string, description: string, interface: char, more: string, es: seq<Entry>)
    requires s == ConfigText(description, interface, more, es)
    ensures IsConfig(s, description, interface, more, es)
  {
    var t2 := more + Text(es);
    HeadLaid(s, description, interface, [interface] + t2, t2);
    BodyLaid(s, |description| + 2, more, es);
  }

  // ---- Configurations as documented ----------------------------------------

  datatype Item = Item(line: nat, offset: nat, activeLow: bool)

  /** The entry asks for what the item says, wherever it stands. */
  ghost predicate Says(w: Words, e: Entry, x: Item) {
    EntryOk(e) && forall last: bool :: EntrySetting(w, e, last) == Sets(x.line, x.offset, x.activeLow)
  }

  ghost predicate AllSay(w: Words, es: seq<Entry>, xs: seq<Item>) {
    |es| == |xs| && forall i :: 0 <= i < |xs| ==> Says(w, es[i], xs[i])
  }

  lemma {:induction false} SaidSettings(w: Words, es: seq<Entry>, xs: seq<Item>)
    requires AllSay(w, es, xs)
    ensures Accepted(w, es) && (forall e :: e in es ==> EntryOk(e))
    ensures forall i :: 0 <= i < |xs| ==> SettingAt(w, es, i) == Sets(xs[i].line, xs[i].offset, xs[i].activeLow)
  {
    forall i | 0 <= i < |xs|
      ensures EntryOk(es[i]) && SettingAt(w, es, i) == Sets(xs[i].line, xs[i].offset, xs[i].activeLow)
    {
      assert Says(w, es[i], xs[i]);
    }
  }

  /** True when `xs[i]` is the last to name its line. */
  ghost predicate LastOf(xs: seq<Item>, i: nat)
    requires i < |xs|
  {
    forall j :: i < j < |xs| ==> xs[j].line != xs[i].line
  }

  /** Each line is as the last item for it says, and other lines are as before. */
  ghost predicate Configured(xs: seq<Item>, port: nat, before: seq<Gpio>, after: Parsed)
    requires |before| == GPIO_COUNT
  {
    && after.error == None && |after.gpios| == GPIO_COUNT
    && (forall i :: 0 <= i < |xs| && xs[i].line < GPIO_COUNT && LastOf(xs, i) ==>
          after.gpios[xs[i].line] == Gpio(true, port, xs[i].offset, xs[i].activeLow))
    && (forall g: nat :: g < GPIO_COUNT && (forall i :: 0 <= i < |xs| ==> xs[i].line != g) ==>
          after.gpios[g] == before[g])
  }

  /** Entries that say what they mean set each line as the last one for it says, and
      no other line. */
  lemma {:induction false} DocumentedEntries(w: Words, es: seq<Entry>, xs: seq<Item>, port: nat, gpios: seq<Gpio>,
                                             after: Parsed)
    requires AllSay(w, es, xs) && |gpios| == GPIO_COUNT && Denote(w, es, port, gpios) == after
    ensures Configured(xs, port, gpios, after)
  {
    SaidSettings(w, es, xs);
    AcceptedIff(w, es, port, gpios);
    forall i | 0 <= i < |xs| && LastOf(xs, i)
      ensures after.gpios[xs[i].line] == Gpio(true, port, xs[i].offset, xs[i].activeLow)
    {
      LastEntryWins(w, es, port, gpios, i);
    }
    forall g: nat | g < GPIO_COUNT && (forall i :: 0 <= i < |xs| ==> xs[i].line != g)
      ensures after.gpios[g] == gpios[g]
    {
      UnnamedKept(w, es, port, gpios, g);
    }
  }

  /** A string of such entries is parsed without an error: it sets the lines it names
      as the last entry for each says, and no others. */
  lemma {:induction false} DocumentedConfig(w: Words, s: string, description: string, interface: char, es: seq<Entry>,
                                            xs: seq<Item>, gpios: seq<Gpio>, after: Parsed)
    requires IsConfig(s, description, interface, "", es) && AllSay(w, es, xs)
    requires ';' !in description && IsInterface(interface) && |gpios| == GPIO_COUNT
    requires ParseInterface(w, s, |description| + 1, gpios) == after
    ensures StrChrFrom(s, 0, ';') == Some(|description|) && s[..|description|] == description
    ensures Configured(xs, interface as int - 'A' as int, gpios, after)
  {
    SaidSettings(w, es, xs);
    ConfigRead(w, s, description, interface, "", es, gpios);
    DocumentedEntries(w, es, xs, interface as int - 'A' as int, gpios, after);
  }

  const TOKEN_LENGTH := 16384

  /** What `device_parser_accept` hands on of a scalar. */
  function Token(scalar: string): string {
    if |scalar| < TOKEN_LENGTH then scalar else scalar[..TOKEN_LENGTH - 1]
  }

  /** A scalar of up to 16383 characters is taken whole, and of a longer one as many. */
  lemma {:induction false} TokenIs(scalar: string)
    ensures Token(scalar) <= scalar && |Token(scalar)| == if |scalar| <= 16383 then |scalar| else 16383
  {}

  /** The lines as `calloc` leaves them. */
  function Unset(): (gpios: seq<Gpio>)
    ensures |gpios| == GPIO_COUNT
  {
    seq(GPIO_COUNT, _ => Gpio(false, 0, 0, false))
  }

  datatype Legacy = Legacy(description: string, parsed: Parsed)

  /** The options that a legacy string comes to. */
  function LegacyOf(w: Words, value: string): Legacy {
    match StrChrFrom(value, 0, ';')
    case None => Legacy(value, Parsed(None, Unset()))
    case Some(k) => Legacy(value[..k], ParseInterface(w, value, k + 1, Unset()))
  }

  /** `ftdi_gpio_parse_options` on a scalar. */
  method LegacyOptions(scalar: string) returns (options: Options, error: Option<Error>)
    requires NulFree(scalar)
    ensures fresh(options) && fresh(options.gpios) && options.description.Some?
    ensures Legacy(options.description.value, Parsed(error, options.gpios[..])) == LegacyOf(WORDS, Token(scalar))
  {
    options := new Options();
    assert options.gpios[..] == Unset();
    error := options.ParseConfig(WORDS, Token(scalar));
  }

  /** A documented string that fits the token sets up the lines it names, and every
      other line is absent. */
  lemma {:induction false} LegacyConfigured(w: Words, scalar: string, description: string, interface: char,
                                            es: seq<Entry>, xs: seq<Item>, result: Legacy)
    requires scalar == ConfigText(description, interface, "", es) && |scalar| < TOKEN_LENGTH && AllSay(w, es, xs)
    requires ';' !in description && IsInterface(interface) && LegacyOf(w, Token(scalar)) == result
    ensures result.description == description
    ensures Configured(xs, interface as int - 'A' as int, Unset(), result.parsed)
    ensures forall g: nat :: g < GPIO_COUNT && (forall i :: 0 <= i < |xs| ==> xs[i].line != g) ==>
              !result.parsed.gpios[g].present
  {
    ConfigLaid(scalar, description, interface, "", es);
    DocumentedConfig(w, scalar, description, interface, es, xs, Unset(),
                     ParseInterface(w, scalar, |description| + 1, Unset()));
  }

  // ---- The words of the legacy string --------------------------------------

  /** The fewest characters that still name a line. */
  function Shortest(g: nat): nat {
    if g == POWER then 0 else if g == POWER_KEY then |"POWER"| + 1 else 1
  }

  /** What the chain of comparisons comes to. */
  function FirstName(name: string): Option<nat> {
    if name <= Name(POWER) then Some(POWER)
    else if name <= Name(FASTBOOT_KEY) then Some(FASTBOOT_KEY)
    else if name <= Name(POWER_KEY) then Some(POWER_KEY)
    else if name <= Name(USB0_DISCONNECT) then Some(USB0_DISCONNECT)
    else if name <= Name(OUTPUT_ENABLE) then Some(OUTPUT_ENABLE)
    else None
  }

  lemma {:induction false} NamesCompared(name: string)
    ensures NameFrom(WORDS, name, 0) == FirstName(name)
  {
    assert NameFrom(WORDS, name, 4) == if name <= Name(OUTPUT_ENABLE) then Some(OUTPUT_ENABLE) else None;
    assert NameFrom(WORDS, name, 2) == if name <= Name(POWER_KEY) then Some(POWER_KEY)
                                       else if name <= Name(USB0_DISCONNECT) then Some(USB0_DISCONNECT)
                                       else NameFrom(WORDS, name, 4);
  }

  /** A name stands for a line exactly when it is a long enough prefix of its name. */
  lemma {:induction false} NameIff(name: string, g: nat)
    requires g < GPIO_COUNT
    ensures NameFrom(WORDS, name, 0) == Some(g) <==> Named(g) && name <= Name(g) && |name| >= Shortest(g)
  {
    NamesCompared(name);
    if name != "" && name <= Name(g) {
      assert name[0] == Name(g)[0];
    }
    if name <= "POWER_KEY" && |name| <= 5 {
      assert name <= "POWER_KEY"[..5] == "POWER";
    }
  }

  function Polarity(activeLow: bool): string {
    if activeLow then "ACTIVE_LOW" else "ACTIVE_HIGH"
  }

  /** Before a semicolon, the last character of a polarity is never looked at, and
      whatever is then a prefix of both polarities is high. */
  lemma {:induction false} PolarityIff(polarity: string)
    ensures PolarityOf(WORDS, polarity, false) == Some(false) <==>
            polarity != "" && polarity[..|polarity| - 1] <= "ACTIVE_HIGH"
    ensures PolarityOf(WORDS, polarity, false) == Some(true) <==>
            |polarity| > |"ACTIVE_"| + 1 && polarity[..|polarity| - 1] <= "ACTIVE_LOW"
  {
    if polarity != "" {
      var seen := polarity[..|polarity| - 1];
      if seen <= "ACTIVE_LOW" && |seen| <= 7 {
        assert seen <= "ACTIVE_LOW"[..7] == "ACTIVE_HIGH"[..7];
      }
      if seen <= "ACTIVE_LOW" && |seen| > 7 {
        assert seen[7] == 'L';
      }
    }
  }

  /** A misspelt low polarity is refused at the end of the string and taken for
      high before a semicolon. */
  lemma {:induction false} MisspeltPolarity()
    ensures PolarityOf(WORDS, "ACTIVE_l", true) == None && PolarityOf(WORDS, "ACTIVE_l", false) == Some(false)
  {
    PolarityIff("ACTIVE_l");
    assert "ACTIVE_l"[..7] == "ACTIVE_HIGH"[..7];
  }

  predicate ItemOk(x: Item) {
    Named(x.line) && x.offset <= 7
  }

  /** The item in full: a whole name, a digit and a whole polarity. */
  function Written(x: Item): Entry
    requires ItemOk(x)
  {
    Entry(Name(x.line), [HexDigit(x.offset)], Polarity(x.activeLow))
  }

  lemma {:induction false} DigitRead(d: nat)
    requires d <= 7
    ensures StrToUL([HexDigit(d)], 0, 0) == d && Plain([HexDigit(d)])
  {
    var s := [HexDigit(d)];
    assert SpaceEnd(s, 0) == 0 && SignEnd(s, 0) == 0 && !HasHexPrefix(s, 0);
    assert DigitsFrom(s, 1, 8, 0 * 8 + d) == d && DigitsFrom(s, 1, 10, 0 * 10 + d) == d;
  }

  lemma {:induction false} NamesPlain(g: nat)
    ensures Plain(Name(g))
  {}

  lemma {:induction false} NameWritten(name: string, g: nat)
    requires Named(g) && name == Name(g)
    ensures NameFrom(WORDS, name, 0) == Some(g)
  {
    NameIff(name, g);
    assert |name| >= Shortest(g);
  }

  lemma {:induction false} PolarityWritten(activeLow: bool, last: bool)
    ensures PolarityOf(WORDS, Polarity(activeLow), last) == Some(activeLow) && Plain(Polarity(activeLow))
  {
    PolarityIff(Polarity(activeLow));
  }

  /** An item written in full says what it is. */
  lemma {:induction false} WrittenSays(x: Item)
    requires ItemOk(x)
    ensures Says(WORDS, Written(x), x)
  {
    NamesPlain(x.line);
    NameWritten(Name(x.line), x.line);
    DigitRead(x.offset);
    PolarityWritten(x.activeLow, false);
    PolarityWritten(x.activeLow, true);
  }

  lemma {:induction false} AllWrittenSay(xs: seq<Item>, es: seq<Entry>)
    requires |es| == |xs| && forall i :: 0 <= i < |xs| ==> ItemOk(xs[i]) && es[i] == Written(xs[i])
    ensures AllSay(WORDS, es, xs)
  {
    forall i | 0 <= i < |xs|
      ensures Says(WORDS, es[i], xs[i])
    {
      WrittenSays(xs[i]);
    }
  }
}
