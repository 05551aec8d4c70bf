/** Descriptor trees, their serialization, and what the walk finds in one. */
module UsbTree {
  import opened Bytes
  import opened UsbDescriptors

  /** A descriptor of another kind (class-specific, association, ...). */
  datatype Other = Other(kind: byte, body: seq<byte>)

  /** An endpoint, the other descriptors in front of it, and the body of the
      SuperSpeed companion behind it, if any. */
  datatype Endpoint = Endpoint(before: seq<Other>, address: byte, attributes: byte, rest: seq<byte>,
                               companion: Option<seq<byte>>)

  datatype Interface = Interface(before: seq<Other>, number: byte, alternate: byte,
                                 cls: byte, sub: byte, proto: byte, name: byte, endpoints: seq<Endpoint>)

  /** A device with one configuration. `count` is its bNumInterfaces, which section
      9.6.3 of the USB 2.0 specification has count interfaces, not their alternate
      settings; each setting has a descriptor among `interfaces`. */
  datatype Tree = Tree(device: seq<byte>, total: nat, config: seq<byte>, count: nat, interfaces: seq<Interface>)

  // ---- Serialization -------------------------------------------------------

  function OtherBytes(o: Other): (s: seq<byte>)
    ensures |s| >= 2
  {
    [(2 + |o.body|) % 0x100, o.kind] + o.body
  }

  function GapBytes(gap: seq<Other>): seq<byte> {
    if gap == [] then [] else OtherBytes(gap[0]) + GapBytes(gap[1..])
  }

  function EndpointDesc(e: Endpoint): (s: seq<byte>)
    ensures |s| == 4 + |e.rest|
  {
    [(4 + |e.rest|) % 0x100, USB_DT_ENDPOINT, e.address, e.attributes] + e.rest
  }

  function CompanionBytes(c: Option<seq<byte>>): seq<byte> {
    if c.Some? then OtherBytes(Other(USB_DT_SS_ENDPOINT_COMP, c.value)) else []
  }

  function EndpointsBytes(es: seq<Endpoint>): seq<byte> {
    if es == [] then []
    else GapBytes(es[0].before) + EndpointDesc(es[0]) + CompanionBytes(es[0].companion) + EndpointsBytes(es[1..])
  }

  function InterfaceDesc(i: Interface): (s: seq<byte>)
    ensures |s| == 9
  {
    [9, USB_DT_INTERFACE, i.number, i.alternate, |i.endpoints| % 0x100, i.cls, i.sub, i.proto, i.name]
  }

  function InterfacesBytes(ifcs: seq<Interface>): seq<byte> {
    if ifcs == [] then []
    else
      GapBytes(ifcs[0].before) + InterfaceDesc(ifcs[0]) + EndpointsBytes(ifcs[0].endpoints) + InterfacesBytes(ifcs[1..])
  }

  function DeviceDesc(t: Tree): (s: seq<byte>)
    ensures |s| == 2 + |t.device|
  {
    [(2 + |t.device|) % 0x100, USB_DT_DEVICE] + t.device
  }

  function ConfigDesc(t: Tree): (s: seq<byte>)
    ensures |s| == 5 + |t.config|
  {
    [(5 + |t.config|) % 0x100, USB_DT_CONFIG, t.total % 0x100, t.total / 0x100 % 0x100, t.count % 0x100] + t.config
  }

  function Serialize(t: Tree): seq<byte> {
    DeviceDesc(t) + ConfigDesc(t) + InterfacesBytes(t.interfaces)
  }

  // ---- Well-formed trees ---------------------------------------------------

  ghost predicate GapOk(gap: seq<Other>) {
    forall i :: 0 <= i < |gap| ==>
      |gap[i].body| <= 253 && gap[i].kind !in {USB_DT_INTERFACE, USB_DT_ENDPOINT, USB_DT_SS_ENDPOINT_COMP}
  }

  ghost predicate EndpointOk(e: Endpoint) {
    GapOk(e.before) && 3 <= |e.rest| <= 251 && (e.companion.Some? ==> |e.companion.value| == 4)
  }

  ghost predicate InterfaceOk(i: Interface) {
    GapOk(i.before) && |i.endpoints| <= 255 && forall j :: 0 <= j < |i.endpoints| ==> EndpointOk(i.endpoints[j])
  }

  ghost predicate InterfacesOk(ifcs: seq<Interface>) {
    forall i :: 0 <= i < |ifcs| ==> InterfaceOk(ifcs[i])
  }

  ghost predicate TreeOk(t: Tree) {
    && |t.device| <= 253 && |t.config| <= 250
    && t.count <= 255 && InterfacesOk(t.interfaces)
  }

  // ---- What the walk makes of a tree ---------------------------------------

  /** Every descriptor of the gap is long enough to be stepped over. */
  predicate Passable(gap: seq<Other>, min: nat) {
    forall i :: 0 <= i < |gap| ==> 2 + |gap[i].body| >= min
  }

  /** The same of a companion in front of the gap, if there is one. */
  predicate CanPass(stray: Option<seq<byte>>, min: nat) {
    stray.Some? ==> 2 + |stray.value| >= min
  }

  /** The walk gets past what is in front of a descriptor. */
  predicate Clear(stray: Option<seq<byte>>, gap: seq<Other>, min: nat) {
    CanPass(stray, min) && Passable(gap, min)
  }

  /** The companion that the walk does not step over with its endpoint. */
  function Stray(e: Endpoint): Option<seq<byte>> {
    if IsBulk(e.attributes) then None else e.companion
  }

  datatype Seen = Blocked | Seen(stray: Option<seq<byte>>, epIn: int, epOut: int)

  /** The endpoints seen, with `stray` in front of the first of them. */
  function SeeEps(es: seq<Endpoint>, stray: Option<seq<byte>>, epIn: int, epOut: int): Seen {
    if es == [] then Seen(stray, epIn, epOut)
    else if !Clear(stray, es[0].before, USB_DT_ENDPOINT_SIZE) then Blocked
    else
      var e := es[0];
      var bulk := IsBulk(e.attributes);
      SeeEps(es[1..], Stray(e), if bulk && IsIn(e.address) then e.address else epIn,
             if bulk && !IsIn(e.address) then e.address else epOut)
  }

  /** The companion that the endpoints of an interface leave over. */
  function LeftOver(i: Interface): Option<seq<byte>> {
    var seen := SeeEps(i.endpoints, None, NONE, NONE);
    if seen.Seen? then seen.stray else None
  }

  /** A turn at an interface, where the turns behind it come to `rest`. */
  function SeeTurn(i: Interface, stray: Option<seq<byte>>, k: nat, claim: (nat, byte) -> bool, rest: Outcome): Outcome {
    if !Clear(stray, i.before, USB_DT_INTERFACE_SIZE) then EINVAL
    else
      match SeeEps(i.endpoints, None, NONE, NONE)
      case Blocked => EINVAL
      case Seen(_, epIn, epOut) =>
        if IsFastboot(i.cls, i.sub, i.proto) && claim(k, i.number) then Found(epIn, epOut) else rest
  }

  /** The interfaces seen in `left` turns, the first of them the `k`-th. */
  function SeeIfcs(ifcs: seq<Interface>, stray: Option<seq<byte>>, k: nat, left: nat, claim: (nat,
                   byte) -> bool): Outcome
    decreases left
  {
    if left == 0 then ENOENT
    else if ifcs == [] then EINVAL
    else SeeTurn(ifcs[0], stray, k, claim, SeeIfcs(ifcs[1..], LeftOver(ifcs[0]), k + 1, left - 1, claim))
  }

  // ---- Where the descriptors of a tree lie in memory -----------------------

  function GapLen(gap: seq<Other>): nat {
    if gap == [] then 0 else 2 + |gap[0].body| + GapLen(gap[1..])
  }

  function CompanionLen(c: Option<seq<byte>>): nat {
    if c.Some? then 2 + |c.value| else 0
  }

  function DescLen(e: Endpoint): nat {
    4 + |e.rest|
  }

  function EpsLen(es: seq<Endpoint>): nat {
    if es == [] then 0
    else GapLen(es[0].before) + DescLen(es[0]) + CompanionLen(es[0].companion) + EpsLen(es[1..])
  }

  function IfcsLen(ifcs: seq<Interface>): nat {
    if ifcs == [] then 0 else GapLen(ifcs[0].before) + 9 + EpsLen(ifcs[0].endpoints) + IfcsLen(ifcs[1..])
  }

  /** Positions behind a gap, an endpoint's descriptor, an endpoint, and so on. */
  function Skip(p: nat, gap: seq<Other>): nat {
    p + GapLen(gap)
  }

  function StraySkip(p: nat, stray: Option<seq<byte>>): nat {
    p + CompanionLen(stray)
  }

  function EpBehind(p: nat, e: Endpoint): nat {
    Skip(p, e.before) + DescLen(e)
  }

  function EpNext(p: nat, e: Endpoint): nat {
    EpBehind(p, e) + CompanionLen(e.companion)
  }

  function EpsSkip(p: nat, es: seq<Endpoint>): nat {
    p + EpsLen(es)
  }

  function IfcEps(p: nat, i: Interface): nat {
    Skip(p, i.before) + 9
  }

  function IfcNext(p: nat, i: Interface): nat {
    EpsSkip(IfcEps(p, i), i.endpoints)
  }

  function IfcsSkip(p: nat, ifcs: seq<Interface>): nat {
    p + IfcsLen(ifcs)
  }

  ghost predicate OtherAt(mem: seq<byte>, p: nat, o: Other) {
    p + 2 + |o.body| <= |mem| && mem[p] == 2 + |o.body| && mem[p + 1] == o.kind
  }

  ghost predicate GapAt(mem: seq<byte>, p: nat, gap: seq<Other>)
    decreases |gap|
  {
    gap == [] || (OtherAt(mem, p, gap[0]) && GapAt(mem, p + 2 + |gap[0].body|, gap[1..]))
  }

  ghost predicate CompanionAt(mem: seq<byte>, p: nat, c: Option<seq<byte>>) {
    c.Some? ==> OtherAt(mem, p, Other(USB_DT_SS_ENDPOINT_COMP, c.value))
  }

  ghost predicate EndpointAt(mem: seq<byte>, p: nat, e: Endpoint) {
    && p + DescLen(e) <= |mem| && mem[p] == DescLen(e) && mem[p + 1] == USB_DT_ENDPOINT
    && mem[p + 2] == e.address && mem[p + 3] == e.attributes
  }

  ghost predicate EpsAt(mem: seq<byte>, p: nat, es: seq<Endpoint>)
    decreases |es|
  {
    es == [] ||
    (&& GapAt(mem, p, es[0].before)
     && EndpointAt(mem, Skip(p, es[0].before), es[0])
     && CompanionAt(mem, EpBehind(p, es[0]), es[0].companion)
     && EpsAt(mem, EpNext(p, es[0]), es[1..]))
  }

  ghost predicate InterfaceAt(mem: seq<byte>, p: nat, i: Interface) {
    && p + 9 <= |mem| && mem[p] == 9 && mem[p + 1] == USB_DT_INTERFACE && mem[p + 2] == i.number
    && mem[p + 4] == |i.endpoints| && mem[p + 5] == i.cls && mem[p + 6] == i.sub && mem[p + 7] == i.proto
  }

  ghost predicate IfcsAt(mem: seq<byte>, p: nat, ifcs: seq<Interface>)
    decreases |ifcs|
  {
    ifcs == [] ||
    (&& GapAt(mem, p, ifcs[0].before)
     && InterfaceAt(mem, Skip(p, ifcs[0].before), ifcs[0])
     && EpsAt(mem, IfcEps(p, ifcs[0]), ifcs[0].endpoints)
     && IfcsAt(mem, IfcNext(p, ifcs[0]), ifcs[1..]))
  }

  // ---- The serialization lies there ----------------------------------------

  lemma {:induction false} HoldsSplit(mem: seq<byte>, p: nat, a: seq<byte>, b: seq<byte>)
    requires Holds(mem, p, a + b)
    ensures Holds(mem, p, a) && Holds(mem, p + |a|, b)
  {
    forall i | 0 <= i < |a| ensures mem[p + i] == a[i] {
      assert mem[p + i] == (a + b)[i];
    }
    forall i | 0 <= i < |b| ensures mem[p + |a| + i] == b[i] {
      assert mem[p + (|a| + i)] == (a + b)[|a| + i];
    }
  }

  lemma {:induction false} HoldsSplit3(mem: seq<byte>, p: nat, a: seq<byte>, b: seq<byte>, c: seq<byte>, s: seq<byte>)
    requires Holds(mem, p, s) && s == a + b + c
    ensures Holds(mem, p, a) && Holds(mem, p + |a|, b) && Holds(mem, p + |a| + |b|, c) && |s| == |a| + |b| + |c|
  {
    HoldsSplit(mem, p, a + b, c);
    HoldsSplit(mem, p, a, b);
  }

  lemma {:induction false} HoldsSplit4(mem: seq<byte>, p: nat, a: seq<byte>, b: seq<byte>, c: seq<byte>, d: seq<byte>,
                                       s: seq<byte>)
    requires Holds(mem, p, s) && s == a + b + c + d
    ensures Holds(mem, p, a) && Holds(mem, p + |a|, b) && Holds(mem, p + |a| + |b|, c)
    ensures Holds(mem, p + |a| + |b| + |c|, d) && |s| == |a| + |b| + |c| + |d|
  {
    HoldsSplit(mem, p, a + b + c, d);
    HoldsSplit3(mem, p, a, b, c, a + b + c);
  }

  lemma {:induction false} GapHeld(mem: seq<byte>, p: nat, gap: seq<Other>)
    requires Holds(mem, p, GapBytes(gap)) && forall i :: 0 <= i < |gap| ==> |gap[i].body| <= 253
    ensures GapAt(mem, p, gap) && |GapBytes(gap)| == GapLen(gap)
    decreases |gap|
  {
    if gap != [] {
      var o := OtherBytes(gap[0]);
      HoldsSplit(mem, p, o, GapBytes(gap[1..]));
      assert mem[p + 0] == o[0] && mem[p + 1] == o[1];
      GapHeld(mem, p + |o|, gap[1..]);
    }
  }

  lemma {:induction false} CompanionHeld(mem: seq<byte>, p: nat, e: Endpoint)
    requires EndpointOk(e) && Holds(mem, p, CompanionBytes(e.companion))
    ensures CompanionAt(mem, p, e.companion) && |CompanionBytes(e.companion)| == CompanionLen(e.companion)
  {
    if e.companion.Some? {
      var o := CompanionBytes(e.companion);
      assert mem[p + 0] == o[0] && mem[p + 1] == o[1];
    }
  }

  lemma {:induction false} EndpointHeld(mem: seq<byte>, p: nat, e: Endpoint)
    requires EndpointOk(e) && Holds(mem, p, EndpointDesc(e))
    ensures EndpointAt(mem, p, e)
  {
    var d := EndpointDesc(e);
    assert mem[p + 0] == d[0] && mem[p + 1] == d[1] && mem[p + 2] == d[2] && mem[p + 3] == d[3];
  }

  lemma {:induction false} EpHeld(mem: seq<byte>, p: nat, e: Endpoint, gap: seq<byte>, c: seq<byte>)
    requires EndpointOk(e) && gap == GapBytes(e.before) && Holds(mem, p, gap)
    requires Holds(mem, p + |gap|, EndpointDesc(e)) && c == CompanionBytes(e.companion)
    requires Holds(mem, p + |gap| + DescLen(e), c)
    ensures GapAt(mem, p, e.before) && EndpointAt(mem, Skip(p, e.before), e)
    ensures CompanionAt(mem, EpBehind(p, e), e.companion)
    ensures |gap| == GapLen(e.before) && |c| == CompanionLen(e.companion)
  {
    GapHeld(mem, p, e.before);
    EndpointHeld(mem, Skip(p, e.before), e);
    CompanionHeld(mem, EpBehind(p, e), e);
  }

  lemma {:induction false} EpsAtCons(mem: seq<byte>, p: nat, es: seq<Endpoint>)
    requires es != [] && GapAt(mem, p, es[0].before) && EndpointAt(mem, Skip(p, es[0].before), es[0])
    requires CompanionAt(mem, EpBehind(p, es[0]), es[0].companion) && EpsAt(mem, EpNext(p, es[0]), es[1..])
    ensures EpsAt(mem, p, es)
    ensures EpsLen(es) == GapLen(es[0].before) + DescLen(es[0]) + CompanionLen(es[0].companion) + EpsLen(es[1..])
  {}

  /** An endpoint lies where its bytes do, and behind it what is behind them. */
  lemma {:induction false} EpPartsHeld(mem: seq<byte>, p: nat, e: Endpoint, gap: seq<byte>, c: seq<byte>,
                                       more: seq<byte>,
                                       s: seq<byte>)
    requires EndpointOk(e) && Holds(mem, p, s) && s == gap + EndpointDesc(e) + c + more
    requires gap == GapBytes(e.before) && c == CompanionBytes(e.companion)
    ensures GapAt(mem, p, e.before) && EndpointAt(mem, Skip(p, e.before), e)
    ensures CompanionAt(mem, EpBehind(p, e), e.companion)
    ensures Holds(mem, EpNext(p, e), more) && p + |s| == EpNext(p, e) + |more|
  {
    HoldsSplit4(mem, p, gap, EndpointDesc(e), c, more, s);
    EpHeld(mem, p, e, gap, c);
    assert EpNext(p, e) == p + |gap| + DescLen(e) + |c|;
  }

  lemma {:induction false} EpsHeld(mem: seq<byte>, p: nat, es: seq<Endpoint>, s: seq<byte>)
    requires s == EndpointsBytes(es) && Holds(mem, p, s) && forall j :: 0 <= j < |es| ==> EndpointOk(es[j])
    ensures EpsAt(mem, p, es) && |s| == EpsLen(es)
    decreases |es|
  {
    if es != [] {
      var more := EndpointsBytes(es[1..]);
      EpPartsHeld(mem, p, es[0], GapBytes(es[0].before), CompanionBytes(es[0].companion), more, s);
      EpsHeld(mem, EpNext(p, es[0]), es[1..], more);
      EpsAtCons(mem, p, es);
    }
  }

  lemma {:induction false} InterfaceHeld(mem: seq<byte>, p: nat, i: Interface)
    requires InterfaceOk(i) && Holds(mem, p, InterfaceDesc(i))
    ensures InterfaceAt(mem, p, i)
  {
    var d := InterfaceDesc(i);
    assert mem[p + 0] == d[0] && mem[p + 1] == d[1] && mem[p + 2] == d[2] && mem[p + 4] == d[4];
    assert mem[p + 5] == d[5] && mem[p + 6] == d[6] && mem[p + 7] == d[7];
  }

  lemma {:induction false} IfcHeld(mem: seq<byte>, p: nat, i: Interface, gap: seq<byte>, eps: seq<byte>)
    requires InterfaceOk(i) && gap == GapBytes(i.before) && Holds(mem, p, gap)
    requires Holds(mem, p + |gap|, InterfaceDesc(i)) && eps == EndpointsBytes(i.endpoints)
    requires Holds(mem, p + |gap| + 9, eps)
    ensures GapAt(mem, p, i.before) && InterfaceAt(mem, Skip(p, i.before), i) && EpsAt(mem, IfcEps(p, i), i.endpoints)
    ensures |gap| == GapLen(i.before) && |eps| == EpsLen(i.endpoints)
  {
    GapHeld(mem, p, i.before);
    InterfaceHeld(mem, Skip(p, i.before), i);
    EpsHeld(mem, IfcEps(p, i), i.endpoints, eps);
  }

  lemma {:induction false} IfcsAtCons(mem: seq<byte>, p: nat, ifcs: seq<Interface>)
    requires ifcs != [] && GapAt(mem, p, ifcs[0].before) && InterfaceAt(mem, Skip(p, ifcs[0].before), ifcs[0])
    requires EpsAt(mem, IfcEps(p, ifcs[0]), ifcs[0].endpoints) && IfcsAt(mem, IfcNext(p, ifcs[0]), ifcs[1..])
    ensures IfcsAt(mem, p, ifcs)
    ensures IfcsLen(ifcs) == GapLen(ifcs[0].before) + 9 + EpsLen(ifcs[0].endpoints) + IfcsLen(ifcs[1..])
  {}

  lemma {:induction false} IfcPartsHeld(mem: seq<byte>, p: nat, i: Interface, gap: seq<byte>, eps: seq<byte>,
                                        more: seq<byte>, s: seq<byte>)
    requires InterfaceOk(i) && Holds(mem, p, s) && s == gap + InterfaceDesc(i) + eps + more
    requires gap == GapBytes(i.before) && eps == EndpointsBytes(i.endpoints)
    ensures GapAt(mem, p, i.before) && InterfaceAt(mem, Skip(p, i.before), i) && EpsAt(mem, IfcEps(p, i), i.endpoints)
    ensures Holds(mem, IfcNext(p, i), more) && p + |s| == IfcNext(p, i) + |more|
  {
    HoldsSplit4(mem, p, gap, InterfaceDesc(i), eps, more, s);
    IfcHeld(mem, p, i, gap, eps);
    assert IfcNext(p, i) == p + |gap| + 9 + |eps|;
  }

  lemma {:induction false} IfcsHeld(mem: seq<byte>, p: nat, ifcs: seq<Interface>, s: seq<byte>)
    requires s == InterfacesBytes(ifcs) && Holds(mem, p, s) && InterfacesOk(ifcs)
    ensures IfcsAt(mem, p, ifcs) && |s| == IfcsLen(ifcs)
    decreases |ifcs|
  {
    if ifcs != [] {
      var more := InterfacesBytes(ifcs[1..]);
      IfcPartsHeld(mem, p, ifcs[0], GapBytes(ifcs[0].before), EndpointsBytes(ifcs[0].endpoints), more, s);
      IfcsHeld(mem, IfcNext(p, ifcs[0]), ifcs[1..], more);
      IfcsAtCons(mem, p, ifcs);
    }
  }

  // ---- The walk sees what the tree says ------------------------------------

  /** No companion starts at `q`. */
  ghost predicate NoCompanionAt(mem: seq<byte>, q: nat, end: nat)
    requires end + FIELDS <= |mem|
  {
    q >= end || mem[q + 1] != USB_DT_SS_ENDPOINT_COMP
  }

  lemma {:induction false} PassableCons(gap: seq<Other>, min: nat)
    requires gap != []
    ensures Passable(gap, min) <==> 2 + |gap[0].body| >= min && Passable(gap[1..], min)
  {
    assert forall i :: 0 < i < |gap| ==> gap[1..][i - 1] == gap[i];
  }

  /** A scan over a gap: stops at the descriptor behind it, unless something in
      the gap is too short to be stepped over. */
  lemma {:induction false} ScanGap(mem: seq<byte>, ptr: nat, end: nat, min: nat, gap: seq<Other>)
    requires end + FIELDS <= |mem| && min > 0 && GapAt(mem, ptr, gap)
    requires var at := ptr + GapLen(gap);
             at < end && mem[at] >= min && (forall i :: 0 <= i < |gap| ==> gap[i].kind != mem[at + 1])
    ensures var at := ptr + GapLen(gap);
            ScanTo(mem, ptr, end, min, mem[at + 1]) ==
            if Passable(gap, min) then Some(Hit(at, at + mem[at])) else None
    decreases |gap|
  {
    if gap != [] {
      PassableCons(gap, min);
      ScanGap(mem, ptr + 2 + |gap[0].body|, end, min, gap[1..]);
    }
  }

  /** `stray` is nothing or one companion. */
  ghost predicate StrayOk(stray: Option<seq<byte>>) {
    stray.Some? ==> |stray.value| == 4
  }

  /** What stands in front of a descriptor: a companion left over, then its gap. */
  lemma {:induction false} ScanStrayGap(mem: seq<byte>, ptr: nat, end: nat, min: nat, stray: Option<seq<byte>>,
                                        gap: seq<Other>)
    requires end + FIELDS <= |mem| && min > 0 && StrayOk(stray) && GapOk(gap)
    requires CompanionAt(mem, ptr, stray) && GapAt(mem, StraySkip(ptr, stray), gap)
    requires var at := Skip(StraySkip(ptr, stray), gap);
             at < end && mem[at] >= min && mem[at + 1] in {USB_DT_INTERFACE, USB_DT_ENDPOINT}
    ensures var at := Skip(StraySkip(ptr, stray), gap);
            ScanTo(mem, ptr, end, min, mem[at + 1]) ==
            if Clear(stray, gap, min) then Some(Hit(at, at + mem[at])) else None
  {
    ScanGap(mem, StraySkip(ptr, stray), end, min, gap);
  }

  /** What starts with a gap and a descriptor does not start with a companion. */
  lemma {:induction false} GapStartsClean(mem: seq<byte>, q: nat, end: nat, gap: seq<Other>)
    requires end + FIELDS <= |mem| && GapOk(gap) && GapAt(mem, q, gap)
    requires gap == [] ==> NoCompanionAt(mem, q, end)
    ensures NoCompanionAt(mem, q, end)
  {}

  /** After a bulk endpoint the walk steps over exactly its companion. */
  lemma {:induction false} BehindBulk(mem: seq<byte>, q: nat, end: nat, e: Endpoint, more: seq<Endpoint>)
    requires end + FIELDS <= |mem| && EndpointOk(e) && forall j :: 0 <= j < |more| ==> EndpointOk(more[j])
    requires CompanionAt(mem, q, e.companion) && EpsAt(mem, q + CompanionLen(e.companion), more)
    requires q + CompanionLen(e.companion) + EpsLen(more) <= end
    requires NoCompanionAt(mem, q + CompanionLen(e.companion) + EpsLen(more), end)
    ensures q >= end ==> e.companion.None? && more == []
    ensures q < end ==>
              CompanionLen(e.companion) == if mem[q + 1] == USB_DT_SS_ENDPOINT_COMP then USB_DT_SS_EP_COMP_SIZE else 0
  {
    if e.companion.None? && more != [] {
      GapStartsClean(mem, q, end, more[0].before);
    }
  }

  /** Where the walk over the endpoints `es` ends up: behind them and any companion
      it steps over. */
  function EpsEnd(ptr: nat, es: seq<Endpoint>, stray: Option<seq<byte>>): nat
    decreases |es|
  {
    if es == [] then ptr
    else
      var next := EpBehind(StraySkip(ptr, stray), es[0]);
      EpsEnd(if IsBulk(es[0].attributes) then EpNext(StraySkip(ptr, stray), es[0]) else next, es[1..], Stray(es[0]))
  }

  /** The endpoint loop at `ptr` sees what the tree says of the endpoints `es`. */
  ghost predicate Refines(mem: seq<byte>, ptr: nat, end: nat, es: seq<Endpoint>, stray: Option<seq<byte>>, epIn: int,
                          epOut: int)
    requires end + FIELDS <= |mem|
  {
    var walked := WalkEps(mem, ptr, end, |es|, epIn, epOut);
    match SeeEps(es, stray, epIn, epOut)
    case Blocked => walked == EpsError
    case Seen(s, i, o) =>
      var q := EpsEnd(ptr, es, stray);
      && walked == Eps(q, i, o) && StrayOk(s) && CompanionAt(mem, q, s)
      && StraySkip(q, s) == EpsSkip(StraySkip(ptr, stray), es)
  }

  /** The endpoints `es`, with `stray` in front of them, lie at `ptr`. */
  ghost predicate Lies(mem: seq<byte>, ptr: nat, end: nat, es: seq<Endpoint>, stray: Option<seq<byte>>)
    requires end + FIELDS <= |mem|
  {
    && StrayOk(stray) && (forall j :: 0 <= j < |es| ==> EndpointOk(es[j]))
    && CompanionAt(mem, ptr, stray) && EpsAt(mem, StraySkip(ptr, stray), es)
    && EpsSkip(StraySkip(ptr, stray), es) <= end
    && NoCompanionAt(mem, EpsSkip(StraySkip(ptr, stray), es), end)
  }

  lemma {:induction false} EndpointScan(mem: seq<byte>, ptr: nat, end: nat, es: seq<Endpoint>, stray: Option<seq<byte>>)
    requires end + FIELDS <= |mem| && es != [] && Lies(mem, ptr, end, es, stray)
    ensures var e := es[0];
            var at := Skip(StraySkip(ptr, stray), e.before);
            && ptr < end && at < end && mem[at + 2] == e.address && mem[at + 3] == e.attributes
            && ScanTo(mem, ptr, end, USB_DT_ENDPOINT_SIZE, USB_DT_ENDPOINT) ==
               if !Clear(stray, e.before, USB_DT_ENDPOINT_SIZE) then None
               else Some(Hit(at, EpBehind(StraySkip(ptr, stray), e)))
  {
    ScanStrayGap(mem, ptr, end, USB_DT_ENDPOINT_SIZE, stray, es[0].before);
  }

  lemma {:induction false} WalkBulk(mem: seq<byte>, ptr: nat, end: nat, left: nat, epIn: int, epOut: int, h: Hit)
    requires ptr < end && end + FIELDS <= |mem| && left > 0
    requires ScanTo(mem, ptr, end, USB_DT_ENDPOINT_SIZE, USB_DT_ENDPOINT) == Some(h)
    requires h.at < end && IsBulk(mem[h.at + 3])
    ensures var address := mem[h.at + 2];
            var i, o := if IsIn(address) then address else epIn, if IsIn(address) then epOut else address;
            WalkEps(mem, ptr, end, left, epIn, epOut) ==
            if h.next >= end then Eps(h.next, i, o)
            else if mem[h.next + 1] == USB_DT_SS_ENDPOINT_COMP
            then WalkEps(mem, h.next + USB_DT_SS_EP_COMP_SIZE, end, left - 1, i, o)
            else WalkEps(mem, h.next, end, left - 1, i, o)
  {}

  /** Where the walk goes on behind a bulk endpoint. */
  lemma {:induction false} BulkNext(mem: seq<byte>, ptr: nat, end: nat, es: seq<Endpoint>, stray: Option<seq<byte>>)
    requires end + FIELDS <= |mem| && es != [] && Lies(mem, ptr, end, es, stray)
    ensures var next, q := EpBehind(StraySkip(ptr, stray), es[0]), EpNext(StraySkip(ptr, stray), es[0]);
            && (next >= end ==> q == next && |es| == 1)
            && (next < end ==>
                  q == if mem[next + 1] == USB_DT_SS_ENDPOINT_COMP then next + USB_DT_SS_EP_COMP_SIZE else next)
  {
    BehindBulk(mem, EpBehind(StraySkip(ptr, stray), es[0]), end, es[0], es[1..]);
  }

  lemma {:induction false} BulkStep(mem: seq<byte>, ptr: nat, end: nat, left: nat, epIn: int, epOut: int, h: Hit,
                                    q: nat)
    requires ptr < end && end + FIELDS <= |mem| && left > 0
    requires ScanTo(mem, ptr, end, USB_DT_ENDPOINT_SIZE, USB_DT_ENDPOINT) == Some(h)
    requires h.at < end && IsBulk(mem[h.at + 3])
    requires h.next >= end ==> q == h.next && left == 1
    requires h.next < end ==>
               q == if mem[h.next + 1] == USB_DT_SS_ENDPOINT_COMP then h.next + USB_DT_SS_EP_COMP_SIZE else h.next
    ensures var address := mem[h.at + 2];
            WalkEps(mem, ptr, end, left, epIn, epOut) ==
            WalkEps(mem, q, end, left - 1, if IsIn(address) then address else epIn,
                    if IsIn(address) then epOut else address)
  {
    WalkBulk(mem, ptr, end, left, epIn, epOut, h);
  }

  lemma {:induction false} BulkWalked(mem: seq<byte>, ptr: nat, end: nat, es: seq<Endpoint>, stray: Option<seq<byte>>,
                                      epIn: int, epOut: int)
    requires end + FIELDS <= |mem| && es != [] && Lies(mem, ptr, end, es, stray)
    requires Clear(stray, es[0].before, USB_DT_ENDPOINT_SIZE) && IsBulk(es[0].attributes)
    ensures var e := es[0];
            var q := EpNext(StraySkip(ptr, stray), e);
            WalkEps(mem, ptr, end, |es|, epIn, epOut) ==
            WalkEps(mem, q, end, |es| - 1, if IsIn(e.address) then e.address else epIn,
                    if IsIn(e.address) then epOut else e.address)
  {
    var e, at := es[0], Skip(StraySkip(ptr, stray), es[0].before);
    EndpointScan(mem, ptr, end, es, stray);
    BulkNext(mem, ptr, end, es, stray);
    var h := Hit(at, EpBehind(StraySkip(ptr, stray), e));
    BulkStep(mem, ptr, end, |es|, epIn, epOut, h, EpNext(StraySkip(ptr, stray), e));
  }

  lemma {:induction false} RefineBulk(mem: seq<byte>, ptr: nat, end: nat, es: seq<Endpoint>, stray: Option<seq<byte>>,
                                      epIn: int, epOut: int)
    requires end + FIELDS <= |mem| && es != [] && Lies(mem, ptr, end, es, stray)
    requires Clear(stray, es[0].before, USB_DT_ENDPOINT_SIZE) && IsBulk(es[0].attributes)
    requires var e := es[0];
             var q := EpNext(StraySkip(ptr, stray), e);
             Refines(mem, q, end, es[1..], None, if IsIn(e.address) then e.address else epIn,
                     if IsIn(e.address) then epOut else e.address)
    ensures Refines(mem, ptr, end, es, stray, epIn, epOut)
  {
    BulkWalked(mem, ptr, end, es, stray, epIn, epOut);
  }

  lemma {:induction false} OtherWalked(mem: seq<byte>, ptr: nat, end: nat, es: seq<Endpoint>, stray: Option<seq<byte>>,
                                       epIn: int, epOut: int)
    requires end + FIELDS <= |mem| && es != [] && Lies(mem, ptr, end, es, stray)
    requires Clear(stray, es[0].before, USB_DT_ENDPOINT_SIZE) && !IsBulk(es[0].attributes)
    ensures var q := EpBehind(StraySkip(ptr, stray), es[0]);
            WalkEps(mem, ptr, end, |es|, epIn, epOut) == WalkEps(mem, q, end, |es| - 1, epIn, epOut)
  {
    EndpointScan(mem, ptr, end, es, stray);
  }

  lemma {:induction false} RefineOther(mem: seq<byte>, ptr: nat, end: nat, es: seq<Endpoint>, stray: Option<seq<byte>>,
                                       epIn: int, epOut: int)
    requires end + FIELDS <= |mem| && es != [] && Lies(mem, ptr, end, es, stray)
    requires Clear(stray, es[0].before, USB_DT_ENDPOINT_SIZE) && !IsBulk(es[0].attributes)
    requires var q := EpBehind(StraySkip(ptr, stray), es[0]);
             Refines(mem, q, end, es[1..], Stray(es[0]), epIn, epOut)
    ensures Refines(mem, ptr, end, es, stray, epIn, epOut)
  {
    OtherWalked(mem, ptr, end, es, stray, epIn, epOut);
  }

  lemma {:induction false} LiesBehindBulk(mem: seq<byte>, ptr: nat, end: nat, es: seq<Endpoint>,
                                          stray: Option<seq<byte>>)
    requires end + FIELDS <= |mem| && es != [] && Lies(mem, ptr, end, es, stray) && IsBulk(es[0].attributes)
    ensures Lies(mem, EpNext(StraySkip(ptr, stray), es[0]), end, es[1..], None)
  {}

  lemma {:induction false} LiesBehindOther(mem: seq<byte>, ptr: nat, end: nat, es: seq<Endpoint>,
                                           stray: Option<seq<byte>>)
    requires end + FIELDS <= |mem| && es != [] && Lies(mem, ptr, end, es, stray) && !IsBulk(es[0].attributes)
    ensures var next := EpBehind(StraySkip(ptr, stray), es[0]);
            Lies(mem, next, end, es[1..], Stray(es[0]))
  {
  }

  /** The endpoint loop over the endpoints of a tree sees what the tree says. */
  lemma {:induction false} EpsRefine(mem: seq<byte>, ptr: nat, end: nat, es: seq<Endpoint>, stray: Option<seq<byte>>,
                                     epIn: int, epOut: int)
    requires end + FIELDS <= |mem| && Lies(mem, ptr, end, es, stray)
    ensures Refines(mem, ptr, end, es, stray, epIn, epOut)
    decreases |es|
  {
    if es == [] {
      return;
    }
    var e := es[0];
    var next := EpBehind(StraySkip(ptr, stray), e);
    if !Clear(stray, e.before, USB_DT_ENDPOINT_SIZE) {
      EndpointScan(mem, ptr, end, es, stray);
    } else if IsBulk(e.attributes) {
      LiesBehindBulk(mem, ptr, end, es, stray);
      EpsRefine(mem, EpNext(StraySkip(ptr, stray), e), end, es[1..], None,
                if IsIn(e.address) then e.address else epIn, if IsIn(e.address) then epOut else e.address);
      RefineBulk(mem, ptr, end, es, stray, epIn, epOut);
    } else {
      LiesBehindOther(mem, ptr, end, es, stray);
      EpsRefine(mem, next, end, es[1..], Stray(e), epIn, epOut);
      RefineOther(mem, ptr, end, es, stray, epIn, epOut);
    }
  }

  /** The interfaces `ifcs`, with `stray` in front of them, lie at `ptr`. */
  ghost predicate IfcsLie(mem: seq<byte>, ptr: nat, end: nat, ifcs: seq<Interface>, stray: Option<seq<byte>>)
    requires end + FIELDS <= |mem|
  {
    && StrayOk(stray) && InterfacesOk(ifcs)
    && CompanionAt(mem, ptr, stray) && IfcsAt(mem, StraySkip(ptr, stray), ifcs)
    && IfcsSkip(StraySkip(ptr, stray), ifcs) <= end
    && NoCompanionAt(mem, IfcsSkip(StraySkip(ptr, stray), ifcs), end)
  }

  lemma {:induction false} IfcsStartClean(mem: seq<byte>, q: nat, end: nat, ifcs: seq<Interface>)
    requires end + FIELDS <= |mem| && InterfacesOk(ifcs) && IfcsAt(mem, q, ifcs)
    requires ifcs == [] ==> NoCompanionAt(mem, q, end)
    ensures NoCompanionAt(mem, q, end)
  {
    if ifcs != [] {
      GapStartsClean(mem, q, end, ifcs[0].before);
    }
  }

  lemma {:induction false} InterfaceScan(mem: seq<byte>, ptr: nat, end: nat, ifcs: seq<Interface>,
                                         stray: Option<seq<byte>>)
    requires end + FIELDS <= |mem| && ifcs != [] && IfcsLie(mem, ptr, end, ifcs, stray)
    ensures var at := Skip(StraySkip(ptr, stray), ifcs[0].before);
            && ptr < end && at < end && InterfaceAt(mem, at, ifcs[0])
            && ScanTo(mem, ptr, end, USB_DT_INTERFACE_SIZE, USB_DT_INTERFACE) ==
               if !Clear(stray, ifcs[0].before, USB_DT_INTERFACE_SIZE) then None
               else Some(Hit(at, IfcEps(StraySkip(ptr, stray), ifcs[0])))
  {
    ScanStrayGap(mem, ptr, end, USB_DT_INTERFACE_SIZE, stray, ifcs[0].before);
  }

  lemma {:induction false} EndpointsLie(mem: seq<byte>, ptr: nat, end: nat, ifcs: seq<Interface>,
                                        stray: Option<seq<byte>>)
    requires end + FIELDS <= |mem| && ifcs != [] && IfcsLie(mem, ptr, end, ifcs, stray)
    ensures Lies(mem, IfcEps(StraySkip(ptr, stray), ifcs[0]), end, ifcs[0].endpoints, None)
  {
    var start := IfcEps(StraySkip(ptr, stray), ifcs[0]);
    assert IfcsLen(ifcs) == GapLen(ifcs[0].before) + 9 + EpsLen(ifcs[0].endpoints) + IfcsLen(ifcs[1..]);
    assert IfcsLen([]) == 0;
    IfcsStartClean(mem, EpsSkip(start, ifcs[0].endpoints), end, ifcs[1..]);
  }

  lemma {:induction false} FirstRefines(mem: seq<byte>, ptr: nat, end: nat, ifcs: seq<Interface>,
                                        stray: Option<seq<byte>>)
    requires end + FIELDS <= |mem| && ifcs != [] && IfcsLie(mem, ptr, end, ifcs, stray)
    ensures Refines(mem, IfcEps(StraySkip(ptr, stray), ifcs[0]), end, ifcs[0].endpoints, None, NONE, NONE)
  {
    EndpointsLie(mem, ptr, end, ifcs, stray);
    EpsRefine(mem, IfcEps(StraySkip(ptr, stray), ifcs[0]), end, ifcs[0].endpoints, None, NONE, NONE);
  }

  /** Where the interfaces end. */
  function IfcsEnd(ptr: nat, ifcs: seq<Interface>, stray: Option<seq<byte>>): nat {
    IfcsSkip(StraySkip(ptr, stray), ifcs)
  }

  /** The other interfaces, by the place where the descriptors of the first end. */
  lemma {:induction false} RestLies(mem: seq<byte>, ptr: nat, end: nat, ifcs: seq<Interface>, stray: Option<seq<byte>>)
    requires end + FIELDS <= |mem| && ifcs != [] && IfcsLie(mem, ptr, end, ifcs, stray)
    ensures var next := IfcNext(StraySkip(ptr, stray), ifcs[0]);
            && InterfacesOk(ifcs[1..]) && IfcsAt(mem, next, ifcs[1..])
            && IfcsSkip(next, ifcs[1..]) == IfcsEnd(ptr, ifcs, stray) <= end
            && NoCompanionAt(mem, IfcsSkip(next, ifcs[1..]), end)
  {}

  lemma {:induction false} SeenEnds(mem: seq<byte>, start: nat, end: nat, es: seq<Endpoint>)
    requires end + FIELDS <= |mem| && Refines(mem, start, end, es, None, NONE, NONE)
    requires SeeEps(es, None, NONE, NONE).Seen?
    ensures var q, s := EpsEnd(start, es, None), SeeEps(es, None, NONE, NONE).stray;
            StrayOk(s) && CompanionAt(mem, q, s) && StraySkip(q, s) == EpsSkip(start, es)
  {}

  lemma {:induction false} LieFrom(mem: seq<byte>, q: nat, end: nat, ifcs: seq<Interface>, stray: Option<seq<byte>>,
                                   next: nat)
    requires end + FIELDS <= |mem| && StrayOk(stray) && CompanionAt(mem, q, stray) && StraySkip(q, stray) == next
    requires InterfacesOk(ifcs) && IfcsAt(mem, next, ifcs) && IfcsSkip(next, ifcs) <= end
    requires NoCompanionAt(mem, IfcsSkip(next, ifcs), end)
    ensures IfcsLie(mem, q, end, ifcs, stray) && IfcsEnd(q, ifcs, stray) == IfcsSkip(next, ifcs)
  {}

  /** Behind the endpoints of an interface lie the next interfaces, with what the
      endpoints left over in front. */
  lemma {:induction false} NextIfcsLie(mem: seq<byte>, ptr: nat, end: nat, ifcs: seq<Interface>,
                                       stray: Option<seq<byte>>)
    requires end + FIELDS <= |mem| && ifcs != [] && IfcsLie(mem, ptr, end, ifcs, stray)
    requires Refines(mem, IfcEps(StraySkip(ptr, stray), ifcs[0]), end, ifcs[0].endpoints, None, NONE, NONE)
    requires SeeEps(ifcs[0].endpoints, None, NONE, NONE).Seen?
    ensures var q := EpsEnd(IfcEps(StraySkip(ptr, stray), ifcs[0]), ifcs[0].endpoints, None);
            var s := SeeEps(ifcs[0].endpoints, None, NONE, NONE).stray;
            IfcsLie(mem, q, end, ifcs[1..], s) && IfcsEnd(q, ifcs[1..], s) == IfcsEnd(ptr, ifcs, stray)
  {
    var start, es := IfcEps(StraySkip(ptr, stray), ifcs[0]), ifcs[0].endpoints;
    RestLies(mem, ptr, end, ifcs, stray);
    SeenEnds(mem, start, end, es);
    LieFrom(mem, EpsEnd(start, es, None), end, ifcs[1..], SeeEps(es, None, NONE, NONE).stray, EpsSkip(start, es));
  }

  /** What the endpoint loop makes of the first interface, and what lies behind. */
  lemma {:induction false} FirstSeen(mem: seq<byte>, ptr: nat, end: nat, ifcs: seq<Interface>, stray: Option<seq<byte>>)
    requires end + FIELDS <= |mem| && ifcs != [] && IfcsLie(mem, ptr, end, ifcs, stray)
    ensures var start, es := IfcEps(StraySkip(ptr, stray), ifcs[0]), ifcs[0].endpoints;
            var seen, q := SeeEps(es, None, NONE, NONE), EpsEnd(start, es, None);
            && WalkEps(mem, start, end, |es|, NONE, NONE) ==
               (if seen.Blocked? then EpsError else Eps(q, seen.epIn, seen.epOut))
            && (seen.Seen? ==>
                  IfcsLie(mem, q, end, ifcs[1..], seen.stray) &&
                  IfcsEnd(q, ifcs[1..], seen.stray) == IfcsEnd(ptr, ifcs, stray))
  {
    FirstRefines(mem, ptr, end, ifcs, stray);
    if SeeEps(ifcs[0].endpoints, None, NONE, NONE).Seen? {
      NextIfcsLie(mem, ptr, end, ifcs, stray);
    }
  }

  /** With more turns than descriptors, the last one finds nothing, or a companion. */
  lemma {:induction false} PastTheEnd(mem: seq<byte>, ptr: nat, end: nat, stray: Option<seq<byte>>, k: nat, count: nat,
                                      claim: (nat, byte) -> bool)
    requires end + FIELDS <= |mem| && StrayOk(stray) && CompanionAt(mem, ptr, stray)
    requires StraySkip(ptr, stray) == end && k < count
    ensures WalkIfcs(mem, ptr, end, k, count, claim) == EINVAL
  {
    if stray.Some? {
      assert mem[ptr] == 6;
    }
  }

  /** What a turn at `ptr` meets: the descriptor of the interface `i`, unless something
      in front of it is in the way, and its endpoints, with `next` behind them. */
  ghost predicate Meets(mem: seq<byte>, ptr: nat, end: nat, i: Interface, stray: Option<seq<byte>>, at: nat, next: nat)
    requires end + FIELDS <= |mem|
  {
    var seen := SeeEps(i.endpoints, None, NONE, NONE);
    && ptr < end && at < end && InterfaceAt(mem, at, i)
    && ScanTo(mem, ptr, end, USB_DT_INTERFACE_SIZE, USB_DT_INTERFACE) ==
       (if Clear(stray, i.before, USB_DT_INTERFACE_SIZE) then Some(Hit(at, at + 9)) else None)
    && WalkEps(mem, at + 9, end, |i.endpoints|, NONE, NONE) ==
       (if seen.Blocked? then EpsError else Eps(next, seen.epIn, seen.epOut))
  }

  /** Such a turn, as the tree says. */
  lemma {:induction false} TurnSeen(mem: seq<byte>, ptr: nat, end: nat, i: Interface, stray: Option<seq<byte>>,
                                    at: nat, next: nat, k: nat, count: nat, claim: (nat, byte) -> bool)
    requires end + FIELDS <= |mem| && k < count && Meets(mem, ptr, end, i, stray, at, next)
    ensures WalkIfcs(mem, ptr, end, k, count, claim) ==
            SeeTurn(i, stray, k, claim, WalkIfcs(mem, next, end, k + 1, count, claim))
  {}

  /** The place of the first interface's descriptor, and where the walk goes on. */
  function FirstAt(ptr: nat, ifcs: seq<Interface>, stray: Option<seq<byte>>): nat
    requires ifcs != []
  {
    Skip(StraySkip(ptr, stray), ifcs[0].before)
  }

  function NextPtr(ptr: nat, ifcs: seq<Interface>, stray: Option<seq<byte>>): nat
    requires ifcs != []
  {
    EpsEnd(FirstAt(ptr, ifcs, stray) + 9, ifcs[0].endpoints, None)
  }

  /** The turns from `ptr` on meet the interfaces one by one, and behind them nothing
      but a companion. */
  ghost predicate MeetsAll(mem: seq<byte>, ptr: nat, end: nat, ifcs: seq<Interface>, stray: Option<seq<byte>>,
                           turns: nat)
    requires end + FIELDS <= |mem|
    decreases turns
  {
    turns == 0 ||
    (if ifcs == [] then StrayOk(stray) && CompanionAt(mem, ptr, stray) && StraySkip(ptr, stray) == end
     else
       && Meets(mem, ptr, end, ifcs[0], stray, FirstAt(ptr, ifcs, stray), NextPtr(ptr, ifcs, stray))
       && (SeeEps(ifcs[0].endpoints, None, NONE, NONE).Seen? ==>
             MeetsAll(mem, NextPtr(ptr, ifcs, stray), end, ifcs[1..], LeftOver(ifcs[0]), turns - 1)))
  }

  lemma {:induction false} FirstMet(mem: seq<byte>, ptr: nat, end: nat, ifcs: seq<Interface>, stray: Option<seq<byte>>)
    requires end + FIELDS <= |mem| && ifcs != [] && IfcsLie(mem, ptr, end, ifcs, stray)
    ensures Meets(mem, ptr, end, ifcs[0], stray, FirstAt(ptr, ifcs, stray), NextPtr(ptr, ifcs, stray))
  {
    InterfaceScan(mem, ptr, end, ifcs, stray);
    FirstSeen(mem, ptr, end, ifcs, stray);
  }

  /** So they do where the interfaces of a tree lie, unless turns go past its end. */
  lemma {:induction false} LieIsMet(mem: seq<byte>, ptr: nat, end: nat, ifcs: seq<Interface>, stray: Option<seq<byte>>,
                                    turns: nat)
    requires end + FIELDS <= |mem| && IfcsLie(mem, ptr, end, ifcs, stray)
    requires turns > |ifcs| ==> IfcsEnd(ptr, ifcs, stray) == end
    ensures MeetsAll(mem, ptr, end, ifcs, stray, turns)
    decreases turns
  {
    if turns > 0 && ifcs != [] {
      FirstMet(mem, ptr, end, ifcs, stray);
      if SeeEps(ifcs[0].endpoints, None, NONE, NONE).Seen? {
        FirstSeen(mem, ptr, end, ifcs, stray);
        LieIsMet(mem, NextPtr(ptr, ifcs, stray), end, ifcs[1..], LeftOver(ifcs[0]), turns - 1);
      }
    }
  }

  lemma {:induction false} MeetsRest(mem: seq<byte>, ptr: nat, end: nat, ifcs: seq<Interface>, stray: Option<seq<byte>>,
                                     turns: nat)
    requires end + FIELDS <= |mem| && turns > 0 && ifcs != [] && MeetsAll(mem, ptr, end, ifcs, stray, turns)
    ensures Meets(mem, ptr, end, ifcs[0], stray, FirstAt(ptr, ifcs, stray), NextPtr(ptr, ifcs, stray))
    ensures SeeEps(ifcs[0].endpoints, None, NONE, NONE).Seen? ==>
              MeetsAll(mem, NextPtr(ptr, ifcs, stray), end, ifcs[1..], LeftOver(ifcs[0]), turns - 1)
  {}

  /** A turn that ends at the endpoints does not depend on the turns behind it. */
  lemma {:induction false} TurnAgrees(i: Interface, stray: Option<seq<byte>>, k: nat, claim: (nat, byte) -> bool,
                                      a: Outcome, b: Outcome)
    requires SeeEps(i.endpoints, None, NONE, NONE).Seen? ==> a == b
    ensures SeeTurn(i, stray, k, claim, a) == SeeTurn(i, stray, k, claim, b)
  {}

  lemma {:induction false} SeeIfcsStep(ifcs: seq<Interface>, stray: Option<seq<byte>>, k: nat, left: nat,
                                       claim: (nat, byte) -> bool, rest: Outcome)
    requires left > 0 && ifcs != [] && SeeIfcs(ifcs[1..], LeftOver(ifcs[0]), k + 1, left - 1, claim) == rest
    ensures SeeIfcs(ifcs, stray, k, left, claim) == SeeTurn(ifcs[0], stray, k, claim, rest)
  {}

  /** A turn, given what the walk and the tree make of the turns behind it. */
  lemma {:induction false} TurnRefines(mem: seq<byte>, ptr: nat, end: nat, i: Interface, stray: Option<seq<byte>>,
                                       at: nat,
                                       next: nat, k: nat, count: nat, claim: (nat, byte) -> bool, rest: Outcome)
    requires end + FIELDS <= |mem| && k < count && Meets(mem, ptr, end, i, stray, at, next)
    requires SeeEps(i.endpoints, None, NONE, NONE).Seen? ==> WalkIfcs(mem, next, end, k + 1, count, claim) == rest
    ensures WalkIfcs(mem, ptr, end, k, count, claim) == SeeTurn(i, stray, k, claim, rest)
  {
    TurnSeen(mem, ptr, end, i, stray, at, next, k, count, claim);
    TurnAgrees(i, stray, k, claim, WalkIfcs(mem, next, end, k + 1, count, claim), rest);
  }

  /** The interface loop over the interfaces of a tree sees what the tree says. */
  lemma {:induction false} IfcsRefine(mem: seq<byte>, ptr: nat, end: nat, ifcs: seq<Interface>,
                                      stray: Option<seq<byte>>,
                                      k: nat, count: nat, left: nat, claim: (nat, byte) -> bool)
    requires end + FIELDS <= |mem| && k + left == count && MeetsAll(mem, ptr, end, ifcs, stray, left)
    ensures WalkIfcs(mem, ptr, end, k, count, claim) == SeeIfcs(ifcs, stray, k, left, claim)
    decreases left
  {
    if left == 0 {
    } else if ifcs == [] {
      PastTheEnd(mem, ptr, end, stray, k, count, claim);
    } else {
      var next, rest := NextPtr(ptr, ifcs, stray), SeeIfcs(ifcs[1..], LeftOver(ifcs[0]), k + 1, left - 1, claim);
      MeetsRest(mem, ptr, end, ifcs, stray, left);
      if SeeEps(ifcs[0].endpoints, None, NONE, NONE).Seen? {
        IfcsRefine(mem, next, end, ifcs[1..], LeftOver(ifcs[0]), k + 1, count, left - 1, claim);
      }
      TurnRefines(mem, ptr, end, ifcs[0], stray, FirstAt(ptr, ifcs, stray), next, k, count, claim, rest);
      SeeIfcsStep(ifcs, stray, k, left, claim, rest);
    }
  }

  lemma {:induction false} HeadsHeld(mem: seq<byte>, p: nat, t: Tree)
    requires TreeOk(t) && Holds(mem, p, DeviceDesc(t)) && Holds(mem, p + 2 + |t.device|, ConfigDesc(t))
    ensures mem[p] == 2 + |t.device| && mem[p + 1] == USB_DT_DEVICE
    ensures var cfg := p + 2 + |t.device|;
            mem[cfg] == 5 + |t.config| && mem[cfg + 1] == USB_DT_CONFIG && mem[cfg + 4] == t.count
  {
    var d, c, cfg := DeviceDesc(t), ConfigDesc(t), p + 2 + |t.device|;
    assert mem[p + 0] == d[0] && mem[p + 1] == d[1];
    assert mem[cfg + 0] == c[0] && mem[cfg + 1] == c[1] && mem[cfg + 4] == c[4];
  }

  lemma {:induction false} TreeParts(mem: seq<byte>, t: Tree, more: seq<byte>)
    requires Holds(mem, 0, Serialize(t)) && more == InterfacesBytes(t.interfaces)
    ensures var d, c := DeviceDesc(t), ConfigDesc(t);
            && Holds(mem, 0, d) && Holds(mem, 2 + |t.device|, c) && Holds(mem, 2 + |t.device| + 5 + |t.config|, more)
            && |Serialize(t)| == 2 + |t.device| + 5 + |t.config| + |more|
  {
    HoldsSplit3(mem, 0, DeviceDesc(t), ConfigDesc(t), more, Serialize(t));
  }

  lemma {:induction false} IfcsOfTreeHeld(mem: seq<byte>, t: Tree)
    requires TreeOk(t) && Holds(mem, 0, Serialize(t))
    ensures |Serialize(t)| == 2 + |t.device| + 5 + |t.config| + IfcsLen(t.interfaces)
    ensures IfcsAt(mem, 2 + |t.device| + 5 + |t.config|, t.interfaces)
  {
    var more := InterfacesBytes(t.interfaces);
    TreeParts(mem, t, more);
    IfcsHeld(mem, 2 + |t.device| + 5 + |t.config|, t.interfaces, more);
  }

  lemma {:induction false} TreeHeld(mem: seq<byte>, t: Tree)
    requires TreeOk(t) && Holds(mem, 0, Serialize(t))
    ensures |Serialize(t)| == 2 + |t.device| + 5 + |t.config| + IfcsLen(t.interfaces)
    ensures mem[0] == 2 + |t.device| && mem[1] == USB_DT_DEVICE
    ensures var cfg := 2 + |t.device|;
            && mem[cfg] == 5 + |t.config| && mem[cfg + 1] == USB_DT_CONFIG && mem[cfg + 4] == t.count
            && IfcsAt(mem, cfg + 5 + |t.config|, t.interfaces)
  {
    TreeParts(mem, t, InterfacesBytes(t.interfaces));
    HeadsHeld(mem, 0, t);
    IfcsOfTreeHeld(mem, t);
  }

  /** The walk up to the interfaces, which come to `r`. */
  lemma {:induction false} HeadsWalked(mem: seq<byte>, n: nat, cfg: nat, ptr: nat, count: nat, claim: (nat,
                                       byte) -> bool,
                                       r: Outcome)
    requires n + FIELDS <= |mem| && cfg < n && mem[0] == cfg && mem[1] == USB_DT_DEVICE
    requires ptr == cfg + mem[cfg] && mem[cfg + 1] == USB_DT_CONFIG && mem[cfg + 4] == count
    requires ptr < n ==> WalkIfcs(mem, ptr, n, 0, count, claim) == r
    ensures Walk(mem, n, claim) == if ptr >= n then EINVAL else r
  {}

  lemma {:induction false} SomeLength(ifcs: seq<Interface>)
    ensures ifcs != [] ==> IfcsLen(ifcs) >= 9
    ensures ifcs == [] ==> IfcsLen(ifcs) == 0
  {}

  /** `parse_usb_desc` on the serialization of any tree, whatever follows it in
      memory, unless the walk is to go past its end: a bare configuration with
      nothing behind it is an error, and otherwise the walk sees exactly what the
      tree says in as many turns as the configuration counts. */
  lemma {:induction false} WalkRefines(mem: seq<byte>, n: nat, t: Tree, claim: (nat, byte) -> bool)
    requires n + FIELDS <= |mem| && TreeOk(t) && Holds(mem, 0, Serialize(t)) && |Serialize(t)| <= n
    requires NoCompanionAt(mem, |Serialize(t)|, n) && (t.count > |t.interfaces| ==> |Serialize(t)| == n)
    ensures Walk(mem, n, claim) ==
            if t.interfaces == [] && |Serialize(t)| == n then EINVAL else SeeIfcs(t.interfaces, None, 0, t.count, claim)
  {
    var ptr := 2 + |t.device| + 5 + |t.config|;
    TreeHeld(mem, t);
    SomeLength(t.interfaces);
    if ptr < n {
      InterfacesWalked(mem, ptr, n, t.interfaces, t.count, claim);
    }
    HeadsWalked(mem, n, 2 + |t.device|, ptr, t.count, claim, SeeIfcs(t.interfaces, None, 0, t.count, claim));
  }

  lemma {:induction false} InterfacesWalked(mem: seq<byte>, ptr: nat, n: nat, ifcs: seq<Interface>, count: nat,
                                            claim: (nat, byte) -> bool)
    requires n + FIELDS <= |mem| && InterfacesOk(ifcs) && IfcsAt(mem, ptr, ifcs) && IfcsSkip(ptr, ifcs) <= n
    requires NoCompanionAt(mem, IfcsSkip(ptr, ifcs), n) && (count > |ifcs| ==> IfcsSkip(ptr, ifcs) == n)
    ensures WalkIfcs(mem, ptr, n, 0, count, claim) == SeeIfcs(ifcs, None, 0, count, claim)
  {
    LieFrom(mem, ptr, n, ifcs, None, ptr);
    LieIsMet(mem, ptr, n, ifcs, None, count);
    IfcsRefine(mem, ptr, n, ifcs, None, 0, count, count, claim);
  }

  // ---- What is found -------------------------------------------------------

  ghost predicate Serves(e: Endpoint, dirIn: bool) {
    IsBulk(e.attributes) && IsIn(e.address) == dirIn
  }

  /** `a` is the address of the last bulk endpoint of the given direction, or
      `dflt` if there is none. */
  ghost predicate IsLast(es: seq<Endpoint>, dirIn: bool, dflt: int, a: int) {
    || (a == dflt && forall j :: 0 <= j < |es| ==> !Serves(es[j], dirIn))
    || exists j :: 0 <= j < |es| && Serves(es[j], dirIn) && a == es[j].address
         && forall l :: j < l < |es| ==> !Serves(es[l], dirIn)
  }

  /** The walk can step onto the `j`-th endpoint. */
  ghost predicate EpClear(es: seq<Endpoint>, stray: Option<seq<byte>>, j: nat)
    requires j < |es|
  {
    Clear(if j == 0 then stray else Stray(es[j - 1]), es[j].before, USB_DT_ENDPOINT_SIZE)
  }

  ghost predicate EpsClear(es: seq<Endpoint>, stray: Option<seq<byte>>) {
    forall j :: 0 <= j < |es| ==> EpClear(es, stray, j)
  }

  function StrayAfter(es: seq<Endpoint>, stray: Option<seq<byte>>): Option<seq<byte>> {
    if es == [] then stray else Stray(es[|es| - 1])
  }

  lemma {:induction false} IsLastCons(es: seq<Endpoint>, dirIn: bool, dflt: int, a: int)
    requires es != []
    requires IsLast(es[1..], dirIn, if Serves(es[0], dirIn) then es[0].address else dflt, a)
    ensures IsLast(es, dirIn, dflt, a)
  {
    assert forall l :: 1 <= l < |es| ==> es[l] == es[1..][l - 1];
    if exists j :: 0 <= j < |es| - 1 && Serves(es[1..][j], dirIn) && a == es[1..][j].address
                   && forall l :: j < l < |es| - 1 ==> !Serves(es[1..][l], dirIn) {
      var j :| 0 <= j < |es| - 1 && Serves(es[1..][j], dirIn) && a == es[1..][j].address
               && forall l :: j < l < |es| - 1 ==> !Serves(es[1..][l], dirIn);
      assert Serves(es[j + 1], dirIn);
    } else if Serves(es[0], dirIn) {
      assert forall l :: 0 < l < |es| ==> !Serves(es[l], dirIn);
    }
  }

  lemma {:induction false} EpsClearCons(es: seq<Endpoint>, stray: Option<seq<byte>>)
    requires es != []
    ensures EpsClear(es, stray) <==> Clear(stray, es[0].before, USB_DT_ENDPOINT_SIZE) && EpsClear(es[1..], Stray(es[0]))
  {
    if EpsClear(es, stray) {
      assert EpClear(es, stray, 0);
      forall j | 0 <= j < |es| - 1 ensures EpClear(es[1..], Stray(es[0]), j) {
        assert EpClear(es, stray, j + 1);
      }
    }
    if Clear(stray, es[0].before, USB_DT_ENDPOINT_SIZE) && EpsClear(es[1..], Stray(es[0])) {
      forall j | 0 <= j < |es| ensures EpClear(es, stray, j) {
        if j > 0 {
          assert EpClear(es[1..], Stray(es[0]), j - 1);
        }
      }
    }
  }

  /** The endpoints of an interface are seen exactly when the walk can step onto
      each of them, and then the last bulk one of each direction is found. */
  lemma {:induction false} SeeEpsIff(es: seq<Endpoint>, stray: Option<seq<byte>>, epIn: int, epOut: int)
    ensures var seen := SeeEps(es, stray, epIn, epOut);
            && (seen.Seen? <==> EpsClear(es, stray))
            && (seen.Seen? ==> seen.stray == StrayAfter(es, stray))
            && (seen.Seen? ==> IsLast(es, true, epIn, seen.epIn) && IsLast(es, false, epOut, seen.epOut))
    decreases |es|
  {
    if es != [] {
      var e := es[0];
      var i := if Serves(e, true) then e.address else epIn;
      var o := if Serves(e, false) then e.address else epOut;
      EpsClearCons(es, stray);
      SeeEpsIff(es[1..], Stray(e), i, o);
      var seen := SeeEps(es[1..], Stray(e), i, o);
      if seen.Seen? {
        IsLastCons(es, true, epIn, seen.epIn);
        IsLastCons(es, false, epOut, seen.epOut);
      }
    }
  }

  predicate Claimable(i: Interface, k: nat, claim: (nat, byte) -> bool) {
    IsFastboot(i.cls, i.sub, i.proto) && claim(k, i.number)
  }

  /** The first fastboot interface that can be claimed, or the number of them. */
  function FirstClaimable(ifcs: seq<Interface>, k: nat, claim: (nat, byte) -> bool): (m: nat)
    ensures m <= |ifcs|
    ensures m < |ifcs| ==> Claimable(ifcs[m], k + m, claim)
    ensures forall i :: 0 <= i < m ==> !Claimable(ifcs[i], k + i, claim)
  {
    if ifcs == [] || Claimable(ifcs[0], k, claim) then 0 else 1 + FirstClaimable(ifcs[1..], k + 1, claim)
  }

  /** The walk can get past the descriptors in front of an interface, and through
      its endpoints. */
  ghost predicate IfcClear(i: Interface, stray: Option<seq<byte>>) {
    Clear(stray, i.before, USB_DT_INTERFACE_SIZE) && EpsClear(i.endpoints, None)
  }

  /** The first `n` of the interfaces are clear. */
  ghost predicate ClearFor(ifcs: seq<Interface>, stray: Option<seq<byte>>, n: nat)
    decreases n
  {
    n == 0 || ifcs == [] ||
    (IfcClear(ifcs[0], stray) && ClearFor(ifcs[1..], StrayAfter(ifcs[0].endpoints, None), n - 1))
  }

  /** The `i`-th interface is clear, behind what the one before it leaves over. */
  ghost predicate ClearAt(ifcs: seq<Interface>, stray: Option<seq<byte>>, i: nat)
    requires i < |ifcs|
  {
    IfcClear(ifcs[i], if i == 0 then stray else StrayAfter(ifcs[i - 1].endpoints, None))
  }

  lemma {:induction false} ClearForIff(ifcs: seq<Interface>, stray: Option<seq<byte>>, n: nat)
    ensures ClearFor(ifcs, stray, n) <==> forall i: nat :: i < n && i < |ifcs| ==> ClearAt(ifcs, stray, i)
    decreases n
  {
    if n > 0 && ifcs != [] {
      var rest, s := ifcs[1..], StrayAfter(ifcs[0].endpoints, None);
      ClearForIff(rest, s, n - 1);
      forall i: nat | i < |rest| ensures ClearAt(rest, s, i) == ClearAt(ifcs, stray, i + 1) {
        assert rest[i] == ifcs[i + 1] && (i > 0 ==> rest[i - 1] == ifcs[i]);
      }
      if forall i: nat :: i < n && i < |ifcs| ==> ClearAt(ifcs, stray, i) {
        assert ClearAt(ifcs, stray, 0);
        forall i: nat | i < n - 1 && i < |rest| ensures ClearAt(rest, s, i) {
          assert ClearAt(ifcs, stray, i + 1);
        }
      } else {
        var i: nat :| i < n && i < |ifcs| && !ClearAt(ifcs, stray, i);
        assert i > 0 ==> !ClearAt(rest, s, i - 1);
      }
    }
  }

  /** What a caller wants of the walk: the last bulk endpoint of each direction of
      the first fastboot interface that can be claimed, or ENOENT. */
  ghost predicate Wanted(ifcs: seq<Interface>, k: nat, claim: (nat, byte) -> bool, r: Outcome) {
    var m := FirstClaimable(ifcs, k, claim);
    if m == |ifcs| then r == ENOENT
    else
      && r.Found?
      && IsLast(ifcs[m].endpoints, true, NONE, r.epIn)
      && IsLast(ifcs[m].endpoints, false, NONE, r.epOut)
  }

  lemma {:induction false} WantedCons(ifcs: seq<Interface>, k: nat, claim: (nat, byte) -> bool, r: Outcome)
    requires ifcs != [] && !Claimable(ifcs[0], k, claim)
    ensures FirstClaimable(ifcs, k, claim) == 1 + FirstClaimable(ifcs[1..], k + 1, claim)
    ensures Wanted(ifcs, k, claim, r) == Wanted(ifcs[1..], k + 1, claim, r)
  {
    var m := FirstClaimable(ifcs[1..], k + 1, claim);
    assert m < |ifcs| - 1 ==> ifcs[1..][m] == ifcs[m + 1];
  }

  /** A turn at the first interface: an error where the walk cannot get through it,
      what is wanted if it can be claimed, and else what the other turns come to. */
  lemma {:induction false} TurnIff(ifcs: seq<Interface>, stray: Option<seq<byte>>, k: nat, claim: (nat, byte) -> bool,
                                   rest: Outcome)
    requires ifcs != []
    ensures var r := SeeTurn(ifcs[0], stray, k, claim, rest);
            if !IfcClear(ifcs[0], stray) then r == EINVAL
            else if Claimable(ifcs[0], k, claim) then Wanted(ifcs, k, claim, r)
            else r == rest && LeftOver(ifcs[0]) == StrayAfter(ifcs[0].endpoints, None)
  {
    SeeEpsIff(ifcs[0].endpoints, None, NONE, NONE);
  }

  /** What is to be found in `left` turns: the wanted interface, if it is among the
      first `left`; else nothing, if there are as many; and an error when the walk
      cannot get that far. */
  ghost predicate SeesRight(ifcs: seq<Interface>, stray: Option<seq<byte>>, k: nat, left: nat,
                            claim: (nat, byte) -> bool, r: Outcome)
  {
    var m := FirstClaimable(ifcs, k, claim);
    if m < left && m < |ifcs| then
      if ClearFor(ifcs, stray, m + 1) then Wanted(ifcs, k, claim, r) else r == EINVAL
    else r == if left <= |ifcs| && ClearFor(ifcs, stray, left) then ENOENT else EINVAL
  }

  lemma {:induction false} NotClearRight(ifcs: seq<Interface>, stray: Option<seq<byte>>, k: nat, left: nat,
                                         claim: (nat, byte) -> bool)
    requires ifcs != [] && left > 0 && !IfcClear(ifcs[0], stray)
    ensures SeesRight(ifcs, stray, k, left, claim, EINVAL)
  {}

  lemma {:induction false} GoOnRight(ifcs: seq<Interface>, stray: Option<seq<byte>>, k: nat, left: nat,
                                     claim: (nat, byte) -> bool, r: Outcome)
    requires ifcs != [] && left > 0 && IfcClear(ifcs[0], stray) && !Claimable(ifcs[0], k, claim)
    requires SeesRight(ifcs[1..], StrayAfter(ifcs[0].endpoints, None), k + 1, left - 1, claim, r)
    ensures SeesRight(ifcs, stray, k, left, claim, r)
  {
    WantedCons(ifcs, k, claim, r);
  }

  /** A turn comes out right if the turns behind it do. */
  lemma {:induction false} TurnRight(ifcs: seq<Interface>, stray: Option<seq<byte>>, k: nat, left: nat,
                                     claim: (nat, byte) -> bool, rest: Outcome, r: Outcome)
    requires ifcs != [] && left > 0 && SeesRight(ifcs[1..], LeftOver(ifcs[0]), k + 1, left - 1, claim, rest)
    requires r == SeeTurn(ifcs[0], stray, k, claim, rest)
    ensures SeesRight(ifcs, stray, k, left, claim, r)
  {
    TurnIff(ifcs, stray, k, claim, rest);
    if !IfcClear(ifcs[0], stray) {
      NotClearRight(ifcs, stray, k, left, claim);
    } else if !Claimable(ifcs[0], k, claim) {
      GoOnRight(ifcs, stray, k, left, claim, rest);
    }
  }

  /** Where there is no turn left, or nothing to turn to. */
  lemma {:induction false} NoTurnRight(ifcs: seq<Interface>, stray: Option<seq<byte>>, k: nat, left: nat,
                                       claim: (nat, byte) -> bool)
    requires left == 0 || ifcs == []
    ensures SeesRight(ifcs, stray, k, left, claim, SeeIfcs(ifcs, stray, k, left, claim))
  {}

  lemma {:induction false} SeeIfcsIff(ifcs: seq<Interface>, stray: Option<seq<byte>>, k: nat, left: nat,
                                      claim: (nat, byte) -> bool)
    ensures SeesRight(ifcs, stray, k, left, claim, SeeIfcs(ifcs, stray, k, left, claim))
    decreases left
  {
    if left == 0 || ifcs == [] {
      NoTurnRight(ifcs, stray, k, left, claim);
    } else {
      var rest := SeeIfcs(ifcs[1..], LeftOver(ifcs[0]), k + 1, left - 1, claim);
      SeeIfcsIff(ifcs[1..], LeftOver(ifcs[0]), k + 1, left - 1, claim);
      SeeIfcsStep(ifcs, stray, k, left, claim, rest);
      TurnRight(ifcs, stray, k, left, claim, rest, SeeIfcs(ifcs, stray, k, left, claim));
    }
  }

  /** The walk gets to what is wanted in the turns it has: to the interface, or past
      the last turn if there is none to be found. */
  ghost predicate Reaches(t: Tree, claim: (nat, byte) -> bool) {
    var m := FirstClaimable(t.interfaces, 0, claim);
    if m < |t.interfaces| then m < t.count && ClearFor(t.interfaces, None, m + 1)
    else t.count <= |t.interfaces| && ClearFor(t.interfaces, None, t.count)
  }

  /** `parse_usb_desc` on the serialization of a tree with at least an interface: it
      finds what is wanted exactly when the interface is among the first `count`
      descriptors, and no descriptor on the way to it is too short to be stepped
      over. The companion of an endpoint that is not a bulk one is such a
      descriptor. Otherwise it reports EINVAL, or ENOENT for an interface that it
      has no turn left for. */
  lemma {:induction false} ParseFindsIff(mem: seq<byte>, n: nat, t: Tree, claim: (nat, byte) -> bool)
    requires n + FIELDS <= |mem| && TreeOk(t) && Holds(mem, 0, Serialize(t)) && |Serialize(t)| <= n
    requires NoCompanionAt(mem, |Serialize(t)|, n) && (t.count > |t.interfaces| ==> |Serialize(t)| == n)
    requires t.interfaces != []
    ensures Wanted(t.interfaces, 0, claim, Walk(mem, n, claim)) <==> Reaches(t, claim)
    ensures Wanted(t.interfaces, 0, claim, Walk(mem, n, claim)) || Walk(mem, n, claim) == EINVAL ||
            (Walk(mem, n, claim) == ENOENT && t.count <= FirstClaimable(t.interfaces, 0, claim))
  {
    WalkRefines(mem, n, t, claim);
    SeeIfcsIff(t.interfaces, None, 0, t.count, claim);
  }

  /** How many of the descriptors are of an interface in its default setting. */
  function Defaults(ifcs: seq<Interface>): nat {
    if ifcs == [] then 0 else (if ifcs[0].alternate == 0 then 1 else 0) + Defaults(ifcs[1..])
  }

  lemma {:induction false} DefaultsAppend(a: seq<Interface>, b: seq<Interface>)
    ensures Defaults(a + b) == Defaults(a) + Defaults(b)
    decreases |a|
  {
    if a == [] {
      assert a + b == b;
    } else {
      assert (a + b)[1..] == a[1..] + b;
      DefaultsAppend(a[1..], b);
    }
  }

  /** In a configuration that counts its interfaces as the specification says, a
      descriptor is among those looked at exactly when fewer alternate settings
      come before it than interfaces from it on. */
  lemma {:induction false} LookedAtIff(t: Tree, m: nat)
    requires m < |t.interfaces| && t.count == Defaults(t.interfaces)
    ensures m < t.count <==> m - Defaults(t.interfaces[..m]) < Defaults(t.interfaces[m..])
  {
    assert t.interfaces == t.interfaces[..m] + t.interfaces[m..];
    DefaultsAppend(t.interfaces[..m], t.interfaces[m..]);
  }

  /** An alternate setting hides a fastboot interface behind it: two interfaces, the
      first with a second setting, and the walk stops before the other. */
  lemma {:induction false} AlternateHides(mem: seq<byte>, n: nat, t: Tree, claim: (nat, byte) -> bool)
    requires n + FIELDS <= |mem| && TreeOk(t) && Holds(mem, 0, Serialize(t)) && |Serialize(t)| == n
    requires |t.interfaces| == 3 && t.count == Defaults(t.interfaces) == 2
    requires FirstClaimable(t.interfaces, 0, claim) == 2 && ClearFor(t.interfaces, None, 2)
    ensures Walk(mem, n, claim) == ENOENT
  {
    WalkRefines(mem, n, t, claim);
    SeeIfcsIff(t.interfaces, None, 0, t.count, claim);
  }

  /** The companion behind an interrupt endpoint ends the walk with an error as
      soon as anything else has to be scanned for. */
  lemma {:induction false} StrayCompanionBlocks(es: seq<Endpoint>, j: nat)
    requires j + 1 < |es| && EndpointOk(es[j]) && es[j].companion.Some? && !IsBulk(es[j].attributes)
    ensures SeeEps(es, None, NONE, NONE) == Blocked
  {
    SeeEpsIff(es, None, NONE, NONE);
    assert !EpClear(es, None, j + 1);
  }
}
