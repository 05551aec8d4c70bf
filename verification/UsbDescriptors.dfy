/** The descriptor walk of `fastboot.c`: finding the bulk endpoints of a fastboot
    interface in the raw descriptors of a device. The layouts are those of section
    9.6 of the USB 2.0 specification and section 9.6.7 of the USB 3.0 specification. */
module UsbDescriptors {
  import opened Bytes

  const USB_DT_DEVICE: byte := 1
  const USB_DT_CONFIG: byte := 2
  const USB_DT_INTERFACE: byte := 4
  const USB_DT_ENDPOINT: byte := 5
  const USB_DT_SS_ENDPOINT_COMP: byte := 0x30

  const USB_DT_INTERFACE_SIZE: nat := 9
  const USB_DT_ENDPOINT_SIZE: nat := 7
  const USB_DT_SS_EP_COMP_SIZE: nat := 6

  /** `(unsigned)-1`, standing for an endpoint that was not found. */
  const NONE: int := 0xFFFF_FFFF

  /** The furthest field that is read past the start of a descriptor. */
  const FIELDS: nat := 8

  datatype Outcome = Found(epIn: int, epOut: int) | EINVAL | ENOENT

  predicate IsBulk(attributes: byte) {
    attributes % 4 == 2
  }

  predicate IsIn(address: byte) {
    address >= 0x80
  }

  predicate IsFastboot(cls: byte, sub: byte, proto: byte) {
    cls == 0xff && sub == 0x42 && proto == 0x03
  }

  // ---- The walk over bytes -------------------------------------------------

  /** The descriptor a scan stops at, and where the next one starts. */
  datatype Hit = Hit(at: nat, next: nat)

  /** The inner `do ... while`: skips descriptors until one of the given kind, or
      until the data ends; a descriptor shorter than `min` is an error. */
  function ScanTo(mem: seq<byte>, ptr: nat, end: nat, min: nat, kind: byte): (r: Option<Hit>)
    requires ptr < end && end + FIELDS <= |mem| && min > 0
    ensures r.Some? ==> r.value.at < end && ptr < r.value.next
    decreases end - ptr
  {
    if mem[ptr] < min then None
    else
      var next := ptr + mem[ptr];
      if next < end && mem[ptr + 1] != kind then ScanTo(mem, next, end, min, kind)
      else Some(Hit(ptr, next))
  }

  /** The endpoints found, and where the walk went on from. */
  datatype Eps = EpsError | Eps(ptr: nat, epIn: int, epOut: int)

  /** The loop over the endpoints of an interface, with `left` of them to go. */
  function WalkEps(mem: seq<byte>, ptr: nat, end: nat, left: nat, epIn: int, epOut: int): Eps
    requires end + FIELDS <= |mem|
    decreases left
  {
    if left == 0 then Eps(ptr, epIn, epOut)
    else if ptr >= end then EpsError
    else
      match ScanTo(mem, ptr, end, USB_DT_ENDPOINT_SIZE, USB_DT_ENDPOINT)
      case None => EpsError
      case Some(h) =>
        var address, attributes := mem[h.at + 2], mem[h.at + 3];
        if !IsBulk(attributes) then WalkEps(mem, h.next, end, left - 1, epIn, epOut)
        else
          var epIn', epOut' := if IsIn(address) then address else epIn, if IsIn(address) then epOut else address;
          if h.next >= end then Eps(h.next, epIn', epOut')
          else
            var ptr' := if mem[h.next + 1] == USB_DT_SS_ENDPOINT_COMP then h.next + USB_DT_SS_EP_COMP_SIZE else h.next;
            WalkEps(mem, ptr', end, left - 1, epIn', epOut')
  }

  /** The loop over interfaces, at its `k`-th turn. `claim` says which claims
      succeed, by turn and interface number. */
  function WalkIfcs(mem: seq<byte>, ptr: nat, end: nat, k: nat, count: nat, claim: (nat, byte) -> bool): Outcome
    requires end + FIELDS <= |mem| && k <= count
    decreases count - k
  {
    if k == count then ENOENT
    else if ptr >= end then EINVAL
    else
      match ScanTo(mem, ptr, end, USB_DT_INTERFACE_SIZE, USB_DT_INTERFACE)
      case None => EINVAL
      case Some(h) =>
        match WalkEps(mem, h.next, end, mem[h.at + 4], NONE, NONE)
        case EpsError => EINVAL
        case Eps(ptr', epIn, epOut) =>
          if IsFastboot(mem[h.at + 5], mem[h.at + 6], mem[h.at + 7]) && claim(k, mem[h.at + 2])
          then Found(epIn, epOut)
          else WalkIfcs(mem, ptr', end, k + 1, count, claim)
  }

  /** The whole walk over the first `n` bytes of `mem`. */
  function Walk(mem: seq<byte>, n: nat, claim: (nat, byte) -> bool): Outcome
    requires n + FIELDS <= |mem|
  {
    var cfg: int := mem[0];
    if cfg >= n || mem[1] != USB_DT_DEVICE then EINVAL
    else
      var ptr := cfg + mem[cfg];
      if ptr >= n || mem[cfg + 1] != USB_DT_CONFIG then EINVAL
      else WalkIfcs(mem, ptr, n, 0, mem[cfg + 4], claim)
  }

  // ---- What is found, in bytes ---------------------------------------------

  /** A descriptor of at least `min` bytes stands at `p`, of the given kind unless the
      data ends with it: the scan does not look at the kind of the last one. */
  ghost predicate StandsAt(mem: seq<byte>, end: nat, p: nat, min: nat, kind: byte)
    requires end + FIELDS <= |mem|
  {
    p < end && mem[p] >= min && (mem[p + 1] == kind || p + mem[p] >= end)
  }

  lemma {:induction false} ScanStands(mem: seq<byte>, ptr: nat, end: nat, min: nat, kind: byte)
    requires ptr < end && end + FIELDS <= |mem| && min > 0
    ensures match ScanTo(mem, ptr, end, min, kind)
            case None => true
            case Some(h) => h.at >= ptr && h.next == h.at + mem[h.at] && StandsAt(mem, end, h.at, min, kind)
    decreases end - ptr
  {
    if mem[ptr] >= min && ptr + mem[ptr] < end && mem[ptr + 1] != kind {
      ScanStands(mem, ptr + mem[ptr], end, min, kind);
    }
  }

  /** A bulk endpoint with the address `a`: section 9.6.6 of the USB 2.0 specification
      has the transfer type in the low two bits of the attributes. */
  ghost predicate BulkAt(mem: seq<byte>, end: nat, p: nat, a: int)
    requires end + FIELDS <= |mem|
  {
    StandsAt(mem, end, p, 7, 5) && mem[p + 3] % 4 == 2 && mem[p + 2] == a
  }

  /** `a` is the address of a bulk endpoint behind `from`. */
  ghost predicate BulkBehind(mem: seq<byte>, end: nat, from: nat, a: int)
    requires end + FIELDS <= |mem|
  {
    exists p: nat :: p >= from && BulkAt(mem, end, p, a)
  }

  /** What is found as IN has bit 7 of its address set, and what is found as OUT has not. */
  ghost predicate Directed(mem: seq<byte>, end: nat, from: nat, epIn: int, epOut: int)
    requires end + FIELDS <= |mem|
  {
    && (epIn == 0xFFFF_FFFF || (0x80 <= epIn < 0x100 && BulkBehind(mem, end, from, epIn)))
    && (epOut == 0xFFFF_FFFF || (0 <= epOut < 0x80 && BulkBehind(mem, end, from, epOut)))
  }

  lemma {:induction false} EpsDirected(mem: seq<byte>, from: nat, ptr: nat, end: nat, left: nat, epIn: int, epOut: int)
    requires end + FIELDS <= |mem| && from <= ptr && Directed(mem, end, from, epIn, epOut)
    ensures match WalkEps(mem, ptr, end, left, epIn, epOut)
            case EpsError => true
            case Eps(p, i, o) => p >= ptr && Directed(mem, end, from, i, o)
    decreases left
  {
    if left > 0 && ptr < end {
      ScanStands(mem, ptr, end, 7, 5);
      var scan := ScanTo(mem, ptr, end, USB_DT_ENDPOINT_SIZE, USB_DT_ENDPOINT);
      if scan.Some? {
        var h, address := scan.value, mem[scan.value.at + 2];
        if !IsBulk(mem[h.at + 3]) {
          EpsDirected(mem, from, h.next, end, left - 1, epIn, epOut);
        } else {
          assert BulkAt(mem, end, h.at, address);
          var i, o := if IsIn(address) then address else epIn, if IsIn(address) then epOut else address;
          assert Directed(mem, end, from, i, o);
          if h.next < end {
            var next := if mem[h.next + 1] == USB_DT_SS_ENDPOINT_COMP then h.next + USB_DT_SS_EP_COMP_SIZE else h.next;
            EpsDirected(mem, from, next, end, left - 1, i, o);
          }
        }
      }
    }
  }

  /** The `k`-th turn claims the fastboot interface whose descriptor stands at `q`, with
      its bytes class 0xff, subclass 0x42 and protocol 0x03. */
  ghost predicate ClaimedAt(mem: seq<byte>, end: nat, q: nat, k: nat, claim: (nat, byte) -> bool)
    requires end + FIELDS <= |mem|
  {
    && StandsAt(mem, end, q, 9, 4) && claim(k, mem[q + 2])
    && mem[q + 5] == 0xff && mem[q + 6] == 0x42 && mem[q + 7] == 0x03
  }

  lemma {:induction false} IfcsDirected(mem: seq<byte>, ptr: nat, end: nat, k: nat, count: nat,
                                        claim: (nat, byte) -> bool) returns (q: nat, j: nat)
    requires end + FIELDS <= |mem| && k <= count && WalkIfcs(mem, ptr, end, k, count, claim).Found?
    ensures k <= j < count && ClaimedAt(mem, end, q, j, claim)
    ensures var r := WalkIfcs(mem, ptr, end, k, count, claim); Directed(mem, end, q + mem[q], r.epIn, r.epOut)
    decreases count - k
  {
    ScanStands(mem, ptr, end, 9, 4);
    var h := ScanTo(mem, ptr, end, USB_DT_INTERFACE_SIZE, USB_DT_INTERFACE).value;
    EpsDirected(mem, h.next, h.next, end, mem[h.at + 4], NONE, NONE);
    if IsFastboot(mem[h.at + 5], mem[h.at + 6], mem[h.at + 7]) && claim(k, mem[h.at + 2]) {
      q, j := h.at, k;
    } else {
      var eps := WalkEps(mem, h.next, end, mem[h.at + 4], NONE, NONE);
      q, j := IfcsDirected(mem, eps.ptr, end, k + 1, count, claim);
    }
  }

  /** Whatever the bytes: what is found belongs to a claimed fastboot interface, and the
      endpoints are bulk endpoints behind it, IN and OUT told apart by bit 7. */
  lemma {:induction false} FoundInBytes(mem: seq<byte>, n: nat, claim: (nat, byte) -> bool) returns (q: nat, k: nat)
    requires n + FIELDS <= |mem| && Walk(mem, n, claim).Found?
    ensures mem[0] < n && mem[1] == 1 && mem[mem[0] + 1] == 2 && k < mem[mem[0] + 4]
    ensures ClaimedAt(mem, n, q, k, claim)
    ensures Directed(mem, n, q + mem[q], Walk(mem, n, claim).epIn, Walk(mem, n, claim).epOut)
  {
    var cfg: int := mem[0];
    q, k := IfcsDirected(mem, cfg + mem[cfg], n, 0, mem[cfg + 4], claim);
  }

  /** The last descriptor of the data is taken for an endpoint whatever its kind. */
  lemma {:induction false} LastIsTaken(mem: seq<byte>, ptr: nat, end: nat)
    requires ptr < end && end + FIELDS <= |mem| && mem[ptr] >= 7 && ptr + mem[ptr] >= end && mem[ptr + 3] % 4 == 2
    ensures WalkEps(mem, ptr, end, 1, NONE, NONE) ==
            if mem[ptr + 2] >= 0x80 then Eps(ptr + mem[ptr], mem[ptr + 2], NONE)
            else Eps(ptr + mem[ptr], NONE, mem[ptr + 2])
  {}

  /** A SuperSpeed device byte by byte: device, configuration and interface descriptors of
      18, 9 and 9 bytes, an IN endpoint of 7 with its companion of 6, and an OUT one. */
  ghost predicate IsSample(mem: seq<byte>) {
    && |mem| >= 64 && mem[0] == 18 && mem[1] == 1 && mem[18] == 9 && mem[19] == 2 && mem[22] == 1
    && mem[27] == 9 && mem[28] == 4 && mem[29] == 3 && mem[31] == 2
    && mem[32] == 0xff && mem[33] == 0x42 && mem[34] == 3
    && mem[36] == 7 && mem[37] == 5 && mem[38] == 0x81 && mem[39] == 2
    && mem[43] == 6 && mem[44] == 0x30
    && mem[49] == 7 && mem[50] == 5 && mem[51] == 0x02 && mem[52] == 2
  }

  lemma {:induction false} SampleFound(mem: seq<byte>, claim: (nat, byte) -> bool)
    requires IsSample(mem)
    ensures Walk(mem, 56, claim) == if claim(0, 3) then Found(0x81, 0x02) else ENOENT
  {
    assert ScanTo(mem, 49, 56, 7, 5) == Some(Hit(49, 56));
    assert WalkEps(mem, 49, 56, 1, 0x81, NONE) == Eps(56, 0x81, 0x02);
    assert ScanTo(mem, 36, 56, 7, 5) == Some(Hit(36, 43));
    assert WalkEps(mem, 36, 56, 2, NONE, NONE) == Eps(56, 0x81, 0x02);
    assert ScanTo(mem, 27, 56, 9, 4) == Some(Hit(27, 36));
    assert WalkIfcs(mem, 56, 56, 1, 1, claim) == ENOENT;
  }

  /** The scan loop, on the buffer. */
  method Scan(desc: array<byte>, start: nat, end: nat, min: nat, kind: byte)
    returns (ok: bool, at: nat, ptr: nat)
    requires start < end && end + FIELDS <= desc.Length && min > 0
    ensures match ScanTo(desc[..], start, end, min, kind)
            case None => !ok
            case Some(h) => ok && at == h.at && ptr == h.next
  {
    at, ptr := start, start;
    var more := true;
    while more
      invariant start <= ptr && at < end
      invariant more ==> ptr < end && ScanTo(desc[..], ptr, end, min, kind) == ScanTo(desc[..], start, end, min, kind)
      invariant !more ==> ScanTo(desc[..], start, end, min, kind) == Some(Hit(at, ptr))
      decreases more, end - ptr
    {
      at := ptr;
      if desc[at] < min {
        return false, at, ptr;
      }
      ptr := ptr + desc[at];
      more := ptr < end && desc[at + 1] != kind;
    }
    ok := true;
  }

  /** The loop over the endpoints of one interface. */
  method Endpoints(desc: array<byte>, start: nat, end: nat, count: nat)
    returns (ok: bool, ptr: nat, epIn: int, epOut: int)
    requires end + FIELDS <= desc.Length
    ensures match WalkEps(desc[..], start, end, count, NONE, NONE)
            case EpsError => !ok
            case Eps(p, i, o) => ok && ptr == p && epIn == i && epOut == o
  {
    ptr, epIn, epOut := start, NONE, NONE;
    var l := 0;
    while l < count
      invariant 0 <= l <= count
      invariant WalkEps(desc[..], start, end, count, NONE, NONE) ==
                WalkEps(desc[..], ptr, end, count - l, epIn, epOut)
    {
      if ptr >= end {
        return false, ptr, epIn, epOut;
      }
      var found, ept;
      found, ept, ptr := Scan(desc, ptr, end, USB_DT_ENDPOINT_SIZE, USB_DT_ENDPOINT);
      if !found {
        return false, ptr, epIn, epOut;
      }
      l := l + 1;
      if !IsBulk(desc[ept + 3]) {
        continue;
      }
      if IsIn(desc[ept + 2]) {
        epIn := desc[ept + 2];
      } else {
        epOut := desc[ept + 2];
      }
      if ptr >= end {
        break;
      }
      if desc[ptr + 1] == USB_DT_SS_ENDPOINT_COMP {
        ptr := ptr + USB_DT_SS_EP_COMP_SIZE;
      }
    }
    ok := true;
  }

  /** The loop over the interfaces. */
  method Interfaces(desc: array<byte>, start: nat, end: nat, count: nat, claim: (nat, byte) -> bool)
    returns (r: Outcome)
    requires end + FIELDS <= desc.Length
    ensures r == WalkIfcs(desc[..], start, end, 0, count, claim)
  {
    var ptr, k := start, 0;
    while k < count
      invariant 0 <= k <= count && ptr >= 0
      invariant WalkIfcs(desc[..], start, end, 0, count, claim) == WalkIfcs(desc[..], ptr, end, k, count, claim)
    {
      if ptr >= end {
        return EINVAL;
      }
      var ok, ifc, epIn, epOut;
      ok, ifc, ptr := Scan(desc, ptr, end, USB_DT_INTERFACE_SIZE, USB_DT_INTERFACE);
      if !ok {
        return EINVAL;
      }
      ok, ptr, epIn, epOut := Endpoints(desc, ptr, end, desc[ifc + 4]);
      if !ok {
        return EINVAL;
      }
      k := k + 1;
      if !IsFastboot(desc[ifc + 5], desc[ifc + 6], desc[ifc + 7]) {
        continue;
      }
      if !claim(k - 1, desc[ifc + 2]) {
        continue;
      }
      return Found(epIn, epOut);
    }
    r := ENOENT;
  }

  /** `parse_usb_desc` on the `n` bytes that `read` put in `desc`; what lies past
      them is whatever memory holds. */
  method ParseUsbDesc(desc: array<byte>, n: nat, claim: (nat, byte) -> bool) returns (r: Outcome)
    requires n + FIELDS <= desc.Length
    ensures r == Walk(desc[..], n, claim)
  {
    var cfg: int := desc[0];
    if cfg >= n || desc[1] != USB_DT_DEVICE {
      return EINVAL;
    }
    var ptr := cfg + desc[cfg];
    if ptr >= n || desc[cfg + 1] != USB_DT_CONFIG {
      return EINVAL;
    }
    r := Interfaces(desc, ptr, n, desc[cfg + 4], claim);
  }
}
