/** The framing of `cdba.h`: a packed header `type:u8, len:u16` followed by
    `len` bytes. Both ends use the host byte order, taken here as little endian. */
module Wire {
  import opened Bytes

  const MSG_SELECT_BOARD: byte := 1
  const MSG_CONSOLE: byte := 2
  const MSG_HARDRESET: byte := 3
  const MSG_POWER_ON: byte := 4
  const MSG_POWER_OFF: byte := 5
  const MSG_FASTBOOT_PRESENT: byte := 6
  const MSG_FASTBOOT_DOWNLOAD: byte := 7
  const MSG_FASTBOOT_BOOT: byte := 8
  const MSG_STATUS_UPDATE: byte := 9
  const MSG_VBUS_ON: byte := 10
  const MSG_VBUS_OFF: byte := 11
  const MSG_FASTBOOT_REBOOT: byte := 12
  const MSG_SEND_BREAK: byte := 13
  const MSG_LIST_DEVICES: byte := 14
  const MSG_BOARD_INFO: byte := 15
  const MSG_FASTBOOT_CONTINUE: byte := 16
  const MSG_KEY_PRESS: byte := 17

  const HDR_SIZE: nat := 3

  datatype Frame = Frame(kind: byte, data: seq<byte>)

  /** The header that `cdba_send_buf` builds: `msg.len` is a `uint16_t`, so a
      longer payload has its length truncated while all its bytes are written. */
  function Header(kind: byte, len: nat): (h: seq<byte>)
    ensures |h| == HDR_SIZE
  {
    [kind, len % 0x100, len / 0x100 % 0x100]
  }

  function Encode(f: Frame): seq<byte> {
    Header(f.kind, |f.data|) + f.data
  }

  /** The header in bytes: the kind, and the length in little endian. */
  lemma {:induction false} HeaderBytes(f: Frame)
    requires Fits(f)
    ensures var s := Encode(f);
            && |s| == 3 + |f.data| && s[0] == f.kind && s[3..] == f.data
            && var lo: int, hi: int := s[1], s[2]; lo + 256 * hi == |f.data|
  {}

  function EncodeAll(fs: seq<Frame>): seq<byte> {
    if fs == [] then [] else Encode(fs[0]) + EncodeAll(fs[1..])
  }

  /** The payload length fits the 16-bit length field. */
  predicate Fits(f: Frame) {
    |f.data| < U16
  }

  ghost predicate AllFit(fs: seq<Frame>) {
    forall i :: 0 <= i < |fs| ==> Fits(fs[i])
  }

  /** The `len` field of a header held in the first bytes of `s`. */
  function LenField(s: seq<byte>): (n: nat)
    requires |s| >= HDR_SIZE
    ensures n < U16
  {
    var lo: int, hi: int := s[1], s[2];
    lo + 0x100 * hi
  }

  /** A whole frame is available at the front of `s`. */
  predicate Complete(s: seq<byte>) {
    |s| >= HDR_SIZE && |s| >= HDR_SIZE + LenField(s)
  }

  function FirstFrame(s: seq<byte>): Frame
    requires Complete(s)
  {
    Frame(s[0], s[HDR_SIZE..HDR_SIZE + LenField(s)])
  }

  function AfterFirst(s: seq<byte>): (r: seq<byte>)
    requires Complete(s)
    ensures |r| < |s|
  {
    s[HDR_SIZE + LenField(s)..]
  }

  /** What a receiver that drains whole frames makes of a byte string. */
  datatype Parsed = Parsed(frames: seq<Frame>, rest: seq<byte>)

  function Parse(s: seq<byte>): Parsed
    decreases |s|
  {
    if Complete(s) then
      var p := Parse(AfterFirst(s));
      Parsed([FirstFrame(s)] + p.frames, p.rest)
    else
      Parsed([], s)
  }

  // ---- One frame -----------------------------------------------------------

  /** Encoding then splitting gives the frame back, whatever follows it. */
  lemma {:induction false} EncodeThenSplit(f: Frame, t: seq<byte>)
    requires Fits(f)
    ensures Complete(Encode(f) + t)
    ensures FirstFrame(Encode(f) + t) == f && AfterFirst(Encode(f) + t) == t
  {
    var s := Encode(f) + t;
    assert s[1] == |f.data| % 0x100 && s[2] == |f.data| / 0x100;
    assert LenField(s) == |f.data|;
    assert s[HDR_SIZE..HDR_SIZE + |f.data|] == f.data;
    assert s[HDR_SIZE + |f.data|..] == t;
  }

  /** Splitting loses nothing: the first frame and the remainder re-encode to
      the same bytes, and a split frame always fits the length field. */
  lemma {:induction false} SplitThenEncode(s: seq<byte>)
    requires Complete(s)
    ensures Fits(FirstFrame(s))
    ensures s == Encode(FirstFrame(s)) + AfterFirst(s)
  {
    var n := LenField(s);
    assert n % 0x100 == s[1] && n / 0x100 % 0x100 == s[2];
    assert s == s[..HDR_SIZE] + s[HDR_SIZE..HDR_SIZE + n] + s[HDR_SIZE + n..];
    assert s[..HDR_SIZE] == Header(s[0], n);
  }

  /** A sent frame is received as itself exactly when its payload length fits
      in 16 bits: longer payloads are written in full under a truncated length. */
  lemma {:induction false} FrameRoundTripIff(f: Frame)
    ensures Parse(Encode(f)) == Parsed([f], []) <==> Fits(f)
  {
    if Fits(f) {
      EncodeThenSplit(f, []);
      assert Encode(f) + [] == Encode(f);
    } else if Parse(Encode(f)) == Parsed([f], []) {
      SplitThenEncode(Encode(f));
    }
  }

  // ---- Streams -------------------------------------------------------------

  lemma {:induction false} EncodeAllAppend(a: seq<Frame>, b: seq<Frame>)
    ensures EncodeAll(a + b) == EncodeAll(a) + EncodeAll(b)
  {
    if a == [] {
      assert a + b == b;
    } else {
      assert (a + b)[1..] == a[1..] + b;
      EncodeAllAppend(a[1..], b);
    }
  }

  lemma {:induction false} EncodeAllCons(f: Frame, fs: seq<Frame>)
    ensures EncodeAll([f] + fs) == Encode(f) + EncodeAll(fs)
  {
    assert ([f] + fs)[1..] == fs;
  }

  lemma {:induction false} EncodeAllSnoc(a: seq<Frame>, f: Frame)
    ensures EncodeAll(a + [f]) == EncodeAll(a) + Encode(f)
  {
    EncodeAllAppend(a, [f]);
    assert [f][1..] == [];
  }

  /** Parsing accounts for every byte ... */
  lemma {:induction false} ParseAccountsForAll(s: seq<byte>)
    ensures s == EncodeAll(Parse(s).frames) + Parse(s).rest
    decreases |s|
  {
    if Complete(s) {
      var f, t := FirstFrame(s), AfterFirst(s);
      var p := Parse(t);
      ParseAccountsForAll(t);
      calc {
        EncodeAll(Parse(s).frames) + Parse(s).rest;
        { EncodeAllCons(f, p.frames); }
        (Encode(f) + EncodeAll(p.frames)) + p.rest;
        { ConcatAssoc(Encode(f), EncodeAll(p.frames), p.rest); }
        Encode(f) + t;
        { SplitThenEncode(s); }
        s;
      }
    }
  }

  /** ... and leaves no whole frame behind. */
  lemma {:induction false} ParseLeavesNoFrame(s: seq<byte>)
    ensures AllFit(Parse(s).frames) && !Complete(Parse(s).rest)
    decreases |s|
  {
    if Complete(s) {
      SplitThenEncode(s);
      ParseLeavesNoFrame(AfterFirst(s));
    }
  }

  lemma {:induction false} ParseCons(f: Frame, u: seq<byte>)
    requires Fits(f)
    ensures Parse(Encode(f) + u) == Parsed([f] + Parse(u).frames, Parse(u).rest)
  {
    EncodeThenSplit(f, u);
  }

  lemma {:induction false} ParseEncoded(fs: seq<Frame>, t: seq<byte>)
    requires AllFit(fs)
    ensures Parse(EncodeAll(fs) + t) == Parsed(fs + Parse(t).frames, Parse(t).rest)
  {
    if fs == [] {
      assert EncodeAll(fs) + t == t;
      assert fs + Parse(t).frames == Parse(t).frames;
    } else {
      var f, gs := fs[0], fs[1..];
      ParseEncoded(gs, t);
      ParseCons(f, EncodeAll(gs) + t);
      ConcatAssoc(Encode(f), EncodeAll(gs), t);
      ConcatAssoc([f], gs, Parse(t).frames);
      assert fs == [f] + gs;
    }
  }

  /** Decoding does not depend on how the bytes are split into reads: draining
      after `a` and again after `b` is the same as draining `a + b` at once. */
  lemma {:induction false} ParseChunked(a: seq<byte>, b: seq<byte>)
    ensures var pa := Parse(a);
            var pb := Parse(pa.rest + b);
            Parse(a + b) == Parsed(pa.frames + pb.frames, pb.rest)
  {
    ParseAccountsForAll(a);
    ParseLeavesNoFrame(a);
    var pa := Parse(a);
    assert a + b == EncodeAll(pa.frames) + (pa.rest + b);
    ParseEncoded(pa.frames, pa.rest + b);
  }

  ghost predicate StrictPrefix(a: seq<byte>, b: seq<byte>) {
    |a| < |b| && a == b[..|a|]
  }

  lemma {:induction false} PrefixPastHead(a: seq<byte>, e: seq<byte>, t: seq<byte>)
    requires a <= e + t && |a| >= |e|
    ensures a == e + a[|e|..] && a[|e|..] <= t
  {
    assert a == (e + t)[..|a|];
  }

  /** Less than a frame is no frame. */
  lemma {:induction false} ParseShort(f: Frame, a: seq<byte>)
    requires Fits(f) && |a| < |Encode(f)| && a == Encode(f)[..|a|]
    ensures Parse(a) == Parsed([], a)
  {
    EncodeThenSplit(f, []);
    assert Encode(f) + [] == Encode(f);
    assert |a| >= HDR_SIZE ==> LenField(a) == LenField(Encode(f));
  }

  lemma {:induction false} PrefixOfHead(f: Frame, a: seq<byte>, t: seq<byte>)
    requires Fits(f) && a <= Encode(f) + t && |a| < |Encode(f)|
    ensures Parse(a) == Parsed([], a) && StrictPrefix(a, Encode(f))
  {
    assert a == (Encode(f) + t)[..|a|] == Encode(f)[..|a|];
    ParseShort(f, a);
  }

  lemma {:induction false} TakeCons<T>(s: seq<T>, j: nat)
    requires j < |s|
    ensures [s[0]] + s[1..][..j] == s[..j + 1]
  {}

  /** Where a receiver stands after any prefix of an encoded stream: it has
      decoded exactly the first `k` frames and holds a strict prefix of the next. */
  lemma {:induction false} ParsePrefix(fs: seq<Frame>, a: seq<byte>) returns (k: nat)
    requires AllFit(fs)
    requires a <= EncodeAll(fs)
    ensures k <= |fs| && Parse(a).frames == fs[..k]
    ensures k < |fs| ==> StrictPrefix(Parse(a).rest, Encode(fs[k]))
    ensures k == |fs| ==> Parse(a).rest == [] && a == EncodeAll(fs)
  {
    if fs == [] {
      return 0;
    }
    var e := Encode(fs[0]);
    if |a| < |e| {
      PrefixOfHead(fs[0], a, EncodeAll(fs[1..]));
      assert fs[..0] == [];
      return 0;
    }
    var b := a[|e|..];
    PrefixPastHead(a, e, EncodeAll(fs[1..]));
    ParseCons(fs[0], b);
    var j := ParsePrefix(fs[1..], b);
    TakeCons(fs, j);
    k := j + 1;
  }
}
