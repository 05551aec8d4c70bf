/** The USB side of `fastboot.c`: bulk transfers of bounded size, replies, and
    the download of an image. */
module Fastboot {
  import opened Bytes
  import opened CLib

  const MAX_USBFS_BULK_SIZE: nat := 16 * 1024
  const ENXIO: int := 6

  /** One outgoing bulk transfer: the bytes offered and how many were taken. */
  datatype Xfer = Xfer(offered: seq<byte>, taken: nat)

  /** One incoming transfer: what the device says, or an ioctl failure. */
  datatype Reply = Text(status: string) | Failure

  /** The bytes the device took, in order. */
  function Taken(xs: seq<Xfer>): seq<byte> {
    if xs == [] then []
    else
      var x := xs[|xs| - 1];
      Taken(xs[..|xs| - 1]) + (if x.taken <= |x.offered| then x.offered[..x.taken] else x.offered)
  }

  ghost predicate Bounded(xs: seq<Xfer>) {
    forall i :: 0 <= i < |xs| ==> |xs[i].offered| <= 16384 && xs[i].taken <= |xs[i].offered|
  }

  lemma {:induction false} TakenAppend(a: seq<Xfer>, b: seq<Xfer>)
    ensures Taken(a + b) == Taken(a) + Taken(b)
  {
    if b == [] {
      assert a + b == a;
    } else {
      assert (a + b)[..|a + b| - 1] == a + b[..|b| - 1];
      TakenAppend(a, b[..|b| - 1]);
    }
  }

  /** The result of `fastboot_read` and the replies it leaves unread. */
  datatype Read = Read(ret: int, rest: seq<Reply>)

  /** `fastboot_read` over the replies to come; a device that has no more to say
      times out. */
  function ReadReply(replies: seq<Reply>): Read {
    if replies == [] then Read(-ENXIO, [])
    else
      var rest := replies[1..];
      match replies[0]
      case Failure => Read(-ENXIO, rest)
      case Text(s) =>
        if |s| < 4 then Read(-1, rest)
        else if s[..4] == "INFO" then ReadReply(rest)
        else if s[..4] == "OKAY" then Read(|s| - 4, rest)
        else if s[..4] == "FAIL" then Read(-ENXIO, rest)
        else if s[..4] == "DATA" then Read(ToInt32(StrToL(s, 4, 16)), rest)
        else ReadReply(rest)
  }

  /** A reply that `fastboot_read` goes on after. */
  ghost predicate Passes(r: Reply) {
    r.Text? && |r.status| >= 4 && r.status[..4] != "OKAY" && r.status[..4] != "FAIL" && r.status[..4] != "DATA"
  }

  /** A reply that it takes for a success. */
  ghost predicate Agrees(r: Reply) {
    && r.Text? && |r.status| >= 4
    && (r.status[..4] == "OKAY" || (r.status[..4] == "DATA" && ToInt32(StrToL(r.status, 4, 16)) >= 0))
  }

  /** What it returns for it: the length of the text behind OKAY, or the number behind DATA. */
  function ResultOf(r: Reply): int {
    if r.Text? && |r.status| >= 4 then
      (if r.status[..4] == "OKAY" then |r.status| - 4 else ToInt32(StrToL(r.status, 4, 16)))
    else 0
  }

  /** The reply at `k` agrees, and those before it do not matter. */
  ghost predicate YesAt(replies: seq<Reply>, k: nat) {
    k < |replies| && Agrees(replies[k]) && forall j :: 0 <= j < k ==> Passes(replies[j])
  }

  ghost predicate SaysYes(replies: seq<Reply>) {
    exists k: nat :: YesAt(replies, k)
  }

  /** `fastboot_read` succeeds exactly when the first reply that matters agrees, and
      leaves the replies behind that one. */
  lemma {:induction false} ReadOkIff(replies: seq<Reply>)
    ensures ReadReply(replies).ret >= 0 <==> SaysYes(replies)
    ensures forall k: nat :: YesAt(replies, k) ==> ReadReply(replies).rest == replies[k + 1..]
    ensures forall k: nat :: YesAt(replies, k) ==> ReadReply(replies).ret == ResultOf(replies[k])
  {
    if replies != [] {
      if Passes(replies[0]) {
        ReadOkIff(replies[1..]);
        PassedOver(replies);
        YesRest(replies);
        forall k: nat | YesAt(replies, k)
          ensures ReadReply(replies).rest == replies[k + 1..] && ReadReply(replies).ret == ResultOf(replies[k])
        {
          assert replies[1..][k - 1 + 1..] == replies[k + 1..];
        }
        if k: nat :| YesAt(replies[1..], k) {
          assert YesAt(replies, k + 1);
        }
      } else {
        assert forall k: nat :: YesAt(replies, k) ==> k == 0;
        assert YesAt(replies, 0) <==> Agrees(replies[0]);
        Decided(replies);
      }
    }
  }

  lemma {:induction false} YesRest(replies: seq<Reply>)
    requires replies != [] && Passes(replies[0])
    ensures forall k: nat :: YesAt(replies, k) ==> k > 0 && YesAt(replies[1..], k - 1)
    ensures forall k: nat :: YesAt(replies[1..], k) ==> YesAt(replies, k + 1)
  {}

  lemma {:induction false} PassedOver(replies: seq<Reply>)
    requires replies != [] && Passes(replies[0])
    ensures ReadReply(replies) == ReadReply(replies[1..])
  {}

  lemma {:induction false} Decided(replies: seq<Reply>)
    requires replies != [] && !Passes(replies[0])
    ensures ReadReply(replies).ret >= 0 <==> Agrees(replies[0])
    ensures ReadReply(replies).rest == replies[1..]
    ensures Agrees(replies[0]) ==> ReadReply(replies).ret == ResultOf(replies[0])
  {}

  function Ascii(s: string): (r: seq<byte>)
    ensures |r| == |s| && forall i :: 0 <= i < |s| && s[i] as int < 0x80 ==> r[i] == s[i] as int
  {
    seq(|s|, i requires 0 <= i < |s| => s[i] as int % 0x100)
  }

  /** `sprintf(cmd, "download:%08x", (unsigned int)len)`. */
  function DownloadCommand(len: nat): string {
    "download:" + Hex(len % U32, 8)
  }

  lemma {:induction false} CommandLength(len: nat)
    ensures |Ascii(DownloadCommand(len))| == 17
  {}

  /** The command announces the length of the image exactly when that length
      fits 32 bits. */
  lemma {:induction false} CommandAnnouncesLengthIff(len: nat)
    ensures StrToL(DownloadCommand(len), 9, 16) == len <==> len < U32
  {
    var n := len % U32;
    HexRoundTrip("download:", n);
    assert n == len <==> len < U32;
  }

  lemma {:induction false} DataReply(s: string, later: seq<Reply>)
    requires |s| >= 4 && s[..4] == "DATA"
    ensures ReadReply([Text(s)] + later).ret == ToInt32(StrToL(s, 4, 16))
  {
    assert s[..4][0] == 'D' && "INFO"[0] == 'I' && "OKAY"[0] == 'O' && "FAIL"[0] == 'F';
    assert ([Text(s)] + later)[0] == Text(s);
  }

  lemma {:induction false} EchoedLength(n: nat, later: seq<Reply>)
    requires n < U32
    ensures ReadReply([Text("DATA" + Hex(n, 8))] + later).ret == ToInt32(n)
  {
    var s := "DATA" + Hex(n, 8);
    assert s[..4] == "DATA";
    DataReply(s, later);
    HexRoundTrip("DATA", n);
  }

  /** A device that acknowledges a download by echoing the announced length is
      believed exactly when that length, as an `int`, is not negative. */
  lemma {:induction false} EchoedLengthAcceptedIff(len: nat, later: seq<Reply>)
    ensures ReadReply([Text("DATA" + Hex(len % U32, 8))] + later).ret >= 0 <==> len % U32 < 0x8000_0000
  {
    EchoedLength(len % U32, later);
    ToInt32Sign(len % U32);
  }

  lemma {:induction false} ToInt32Sign(n: nat)
    requires n < U32
    ensures ToInt32(n) >= 0 <==> n < 0x8000_0000
  {}

  // ---- Outgoing transfers --------------------------------------------------

  /** What `fastboot_write` does: whether every byte was taken, the transfers that
      were, and the results that the device has left for later transfers. */
  datatype Written = Written(ok: bool, xs: seq<Xfer>, results: seq<int>)

  /** `fastboot_write` over the results of the transfers to come, each a failure or
      a number of bytes; a device that has no more of them times out. */
  function WriteRun(data: seq<byte>, results: seq<int>): Written
    decreases |results|
  {
    if results == [] || results[0] < 0 then Written(false, [], if results == [] then [] else results[1..])
    else
      var offered := data[..Min(|data|, MAX_USBFS_BULK_SIZE)];
      var n := Min(results[0], |offered|);
      if n == |data| then Written(true, [Xfer(offered, n)], results[1..])
      else
        var w := WriteRun(data[n..], results[1..]);
        Written(w.ok, [Xfer(offered, n)] + w.xs, w.results)
  }

  /** Each transfer offers all that is left, up to 16 KiB. */
  lemma {:induction false} FirstOffer(data: seq<byte>, results: seq<int>)
    requires results != [] && results[0] >= 0
    ensures var xs := WriteRun(data, results).xs;
            xs != [] && xs[0].offered == (if |data| <= 16384 then data else data[..16384])
  {}

  /** One transfer in front of others. */
  lemma {:induction false} TakenCons(data: seq<byte>, len: nat, n: nat, xs: seq<Xfer>)
    requires n <= len <= |data| && len <= MAX_USBFS_BULK_SIZE && Bounded(xs) && Taken(xs) <= data[n..]
    ensures var ys := [Xfer(data[..len], n)] + xs;
            Bounded(ys) && Taken(ys) == data[..n] + Taken(xs) <= data
  {
    var x := Xfer(data[..len], n);
    TakenOne(x);
    TakenAppend([x], xs);
    assert data[..len][..n] == data[..n];
    assert data == data[..n] + data[n..];
  }

  /** A write that has made the transfers `xs` and goes on as `here`. */
  ghost predicate GoesOn(all: Written, xs: seq<Xfer>, here: Written) {
    all == Written(here.ok, xs + here.xs, here.results)
  }

  lemma {:induction false} WriteGoesOn(all: Written, xs: seq<Xfer>, data: seq<byte>, count: nat, results: seq<int>)
    requires count <= |data| && results != [] && results[0] >= 0 && GoesOn(all, xs, WriteRun(data[count..], results))
    ensures var offered := data[count..][..Min(|data| - count, MAX_USBFS_BULK_SIZE)];
            var n := Min(results[0], |offered|);
            if count + n == |data| then all == Written(true, xs + [Xfer(offered, n)], results[1..])
            else GoesOn(all, xs + [Xfer(offered, n)], WriteRun(data[count + n..], results[1..]))
  {
    var offered := data[count..][..Min(|data| - count, MAX_USBFS_BULK_SIZE)];
    var n := Min(results[0], |offered|);
    assert data[count..][n..] == data[count + n..];
    ConcatAssoc(xs, [Xfer(offered, n)], WriteRun(data[count + n..], results[1..]).xs);
  }

  /** Whatever the device does, what it takes is a prefix of the data, in bounded
      transfers; and it is all of the data exactly when none of them failed. */
  lemma {:induction false} WriteRunTakes(data: seq<byte>, results: seq<int>)
    ensures var w := WriteRun(data, results);
            && Bounded(w.xs) && Taken(w.xs) <= data
            && (w.ok ==> Taken(w.xs) == data) && (data != [] && Taken(w.xs) == data ==> w.ok)
    decreases |results|
  {
    if results != [] && results[0] >= 0 {
      var len := Min(|data|, MAX_USBFS_BULK_SIZE);
      var n := Min(results[0], len);
      if n == |data| {
        TakenCons(data, len, n, []);
        assert [Xfer(data[..len], n)] + [] == [Xfer(data[..len], n)] && data[..n] + [] == data;
      } else {
        WriteRunTakes(data[n..], results[1..]);
        TakenCons(data, len, n, WriteRun(data[n..], results[1..]).xs);
      }
    }
  }

  lemma {:induction false} TakenOne(x: Xfer)
    requires x.taken <= |x.offered|
    ensures Taken([x]) == x.offered[..x.taken]
  {
    assert [x][..0] == [];
  }

  /** The loop of `fastboot_download` over the pieces of the image. */
  function WritePieces(data: seq<byte>, results: seq<int>): Written
    decreases |data|
  {
    if data == [] then Written(true, [], results)
    else
      var n := Min(|data|, MAX_USBFS_BULK_SIZE);
      var w := WriteRun(data[..n], results);
      if !w.ok then w
      else
        var rest := WritePieces(data[n..], w.results);
        Written(rest.ok, w.xs + rest.xs, rest.results)
  }

  lemma {:induction false} WritePiecesTakes(data: seq<byte>, results: seq<int>)
    ensures var w := WritePieces(data, results);
            && Bounded(w.xs) && Taken(w.xs) <= data && (w.ok <==> Taken(w.xs) == data)
    decreases |data|
  {
    if data != [] {
      var n := Min(|data|, MAX_USBFS_BULK_SIZE);
      var piece, after := data[..n], data[n..];
      var w := WriteRun(piece, results);
      assert data == piece + after;
      WriteRunTakes(piece, results);
      if w.ok {
        var rest := WritePieces(after, w.results);
        WritePiecesTakes(after, w.results);
        TakenAppend(w.xs, rest.xs);
      }
    }
  }

  /** One piece in front of the others. */
  lemma {:induction false} PiecesStep(data: seq<byte>, offset: nat, n: nat, results: seq<int>)
    requires offset + n <= |data| && n == Min(|data| - offset, MAX_USBFS_BULK_SIZE) > 0
    ensures var w, all := WriteRun(data[offset..offset + n], results), WritePieces(data[offset..], results);
            var rest := WritePieces(data[offset + n..], w.results);
            if w.ok then all == Written(rest.ok, w.xs + rest.xs, rest.results) else all == w
  {
    assert data[offset..][..n] == data[offset..offset + n] && data[offset..][n..] == data[offset + n..];
  }

  lemma {:induction false} PiecesEnd(all: Written, xs: seq<Xfer>, data: seq<byte>, results: seq<int>)
    requires GoesOn(all, xs, WritePieces(data[|data|..], results))
    ensures all == Written(true, xs, results)
  {
    assert xs + [] == xs;
  }

  lemma {:induction false} PieceGoesOn(all: Written, xs: seq<Xfer>, data: seq<byte>, offset: nat, n: nat,
                                       results: seq<int>)
    requires offset < |data| && n == Min(|data| - offset, MAX_USBFS_BULK_SIZE)
    requires GoesOn(all, xs, WritePieces(data[offset..], results))
    ensures var w := WriteRun(data[offset..offset + n], results);
            if w.ok then GoesOn(all, xs + w.xs, WritePieces(data[offset + n..], w.results))
            else all == Written(false, xs + w.xs, w.results)
  {
    PiecesStep(data, offset, n, results);
    var w := WriteRun(data[offset..offset + n], results);
    ConcatAssoc(xs, w.xs, WritePieces(data[offset + n..], w.results).xs);
  }

  // ---- A download ----------------------------------------------------------

  /** What `fastboot_download` does: its result, whether the command was taken in
      full, the transfers of the command and of the image, and what the device has
      left to say. */
  datatype Run = Run(ret: int, announced: bool, cmd: seq<Xfer>, image: seq<Xfer>,
                     results: seq<int>, replies: seq<Reply>)

  /** The result of the first write is not looked at. */
  function DownloadRun(image: seq<byte>, results: seq<int>, replies: seq<Reply>): Run {
    var c := WriteRun(Ascii(DownloadCommand(|image|)), results);
    var go := ReadReply(replies);
    if go.ret < 0 then Run(-1, c.ok, c.xs, [], c.results, go.rest)
    else
      var w := WritePieces(image, c.results);
      if !w.ok then Run(-1, c.ok, c.xs, w.xs, w.results, go.rest)
      else
        var done := ReadReply(go.rest);
        Run(done.ret, c.ok, c.xs, w.xs, w.results, done.rest)
  }

  /** A download succeeds exactly when the device says yes to it, takes the whole image
      and says yes again; whatever happens, what it took of the image is a prefix of it,
      in bounded transfers, and nothing of it unless the device had said yes. */
  lemma {:induction false} DownloadIff(image: seq<byte>, results: seq<int>, replies: seq<Reply>)
    ensures var r := DownloadRun(image, results, replies);
            && Bounded(r.cmd) && Bounded(r.image) && Taken(r.image) <= image
            && (r.ret >= 0 <==>
                  Taken(r.image) == image && exists k: nat :: YesAt(replies, k) && SaysYes(replies[k + 1..]))
            && (!SaysYes(replies) ==> r.image == [] && r.ret == -1)
  {
    var c := WriteRun(Ascii(DownloadCommand(|image|)), results);
    WriteRunTakes(Ascii(DownloadCommand(|image|)), results);
    WritePiecesTakes(image, c.results);
    ReadOkIff(replies);
    ReadOkIff(ReadReply(replies).rest);
  }

  /** A refusal: FAIL, something too short to be a reply, or a failed transfer. */
  ghost predicate Refuses(r: Reply) {
    r.Failure? || |r.status| < 4 || r.status[..4] == "FAIL"
  }

  /** Where the first reply that matters is a refusal nothing of the image is sent. */
  lemma {:induction false} RefusedIff(image: seq<byte>, results: seq<int>, replies: seq<Reply>, k: nat)
    requires k < |replies| && Refuses(replies[k]) && forall j :: 0 <= j < k ==> Passes(replies[j])
    ensures !SaysYes(replies)
    ensures var r := DownloadRun(image, results, replies); r.image == [] && r.ret == -1
  {
    assert forall i: nat :: !YesAt(replies, i);
    DownloadIff(image, results, replies);
  }

  /** The device was sent the whole command, with the exact length of an image below
      4 GiB, exactly when no transfer of the command failed. A download that succeeds
      has announced its length under that condition and no other. */
  lemma {:induction false} AnnouncedIff(image: seq<byte>, results: seq<int>, replies: seq<Reply>)
    ensures var r := DownloadRun(image, results, replies);
            && Taken(r.cmd) <= Ascii(DownloadCommand(|image|))
            && (r.announced <==> Taken(r.cmd) == Ascii(DownloadCommand(|image|)))
            && (r.announced <==> WriteRun(Ascii(DownloadCommand(|image|)), results).ok)
  {
    CommandLength(|image|);
    WriteRunTakes(Ascii(DownloadCommand(|image|)), results);
  }

  /** Enough results that are no failures for `n` bytes. */
  predicate Accepts(results: seq<int>, n: nat)
    decreases |results|
  {
    && results != [] && results[0] >= 0
    && (Min(results[0], MAX_USBFS_BULK_SIZE) >= n || Accepts(results[1..], n - Min(results[0], MAX_USBFS_BULK_SIZE)))
  }

  /** A write is taken in full exactly when the device, before it fails, accepts as
      many bytes. */
  lemma {:induction false} WriteOkIff(data: seq<byte>, results: seq<int>)
    ensures WriteRun(data, results).ok <==> Accepts(results, |data|)
    decreases |results|
  {
    if results != [] && results[0] >= 0 {
      var n := Min(results[0], Min(|data|, MAX_USBFS_BULK_SIZE));
      if n < |data| {
        WriteOkIff(data[n..], results[1..]);
      }
    }
  }

  /** The command lost to a failing transfer, and the download a success: a device
      that says OKAY without having been told the length is believed. */
  lemma {:induction false} UnannouncedSuccess(image: seq<byte>, results: seq<int>)
    requires WritePieces(image, results).ok
    ensures var r := DownloadRun(image, [-1] + results, [Text("OKAY"), Text("OKAY")]);
            r.ret >= 0 && Taken(r.image) == image && !r.announced && r.cmd == []
  {
    var replies := [Text("OKAY"), Text("OKAY")];
    assert ([-1] + results)[1..] == results;
    assert replies[1..] == [Text("OKAY")] && [Text("OKAY")][1..] == [];
    OkayReply(replies);
    OkayReply(replies[1..]);
    WritePiecesTakes(image, results);
  }

  lemma {:induction false} OkayReply(replies: seq<Reply>)
    requires replies != [] && replies[0] == Text("OKAY")
    ensures ReadReply(replies) == Read(0, replies[1..])
  {
    var s := "OKAY";
    assert s[..4] == s && s[0] != "INFO"[0];
  }

  // ---- A boot --------------------------------------------------------------

  /** Everything sent so far, and what the device has left to do and to say. */
  datatype UsbState = UsbState(log: seq<Xfer>, results: seq<int>, replies: seq<Reply>)

  /** A command whose result nobody looks at, as `fastboot_boot` and its like send one. */
  function CommandRun(cmd: string, u: UsbState): UsbState {
    var w := WriteRun(Ascii(cmd), u.results);
    UsbState(u.log + w.xs, w.results, ReadReply(u.replies).rest)
  }

  function AfterDownload(image: seq<byte>, u: UsbState): UsbState {
    var r := DownloadRun(image, u.results, u.replies);
    UsbState(u.log + r.cmd + r.image, r.results, r.replies)
  }

  /** What a board's description says about booting: the slot to activate, and whether
      the image is flashed or booted from memory. */
  datatype Boot = Boot(active: Option<string>, flash: bool)

  function SlotRun(b: Boot, u: UsbState): UsbState {
    if b.active.Some? then CommandRun("set_active:" + b.active.value, u) else u
  }

  /** `device_fastboot_boot`, or `device_fastboot_flash_reboot`. */
  function GoRun(b: Boot, u: UsbState): UsbState {
    if b.flash then CommandRun("reboot", CommandRun("flash:boot", u)) else CommandRun("boot", u)
  }

  /** `device_boot` over USB. */
  function BootRun(b: Boot, image: seq<byte>, u: UsbState): UsbState {
    GoRun(b, AfterDownload(image, SlotRun(b, u)))
  }

  /** One image after the other. */
  function BootAll(b: Boot, images: seq<seq<byte>>, u: UsbState): UsbState
    decreases |images|
  {
    if images == [] then u else BootAll(b, images[1..], BootRun(b, images[0], u))
  }

  // ---- The device ----------------------------------------------------------

  /** The endpoints of the device: what was transferred, the results of the outgoing
      transfers to come, and the replies to come. */
  class Usb {
    var log: seq<Xfer>
    var results: seq<int>
    var replies: seq<Reply>

    ghost function View(): UsbState
      reads this
    {
      UsbState(log, results, replies)
    }

    /** `ioctl(USBDEVFS_BULK)` on the OUT endpoint: fails, or takes part of the data. */
    method Bulk(data: seq<byte>) returns (n: int)
      modifies this`log, this`results
      ensures results == if old(results) == [] then [] else old(results)[1..]
      ensures if old(results) == [] || old(results)[0] < 0 then n == -1 && log == old(log)
              else n == Min(old(results)[0], |data|) && log == old(log) + [Xfer(data, n)]
    {
      if results == [] {
        return -1;
      }
      var r := results[0];
      results := results[1..];
      if r < 0 {
        return -1;
      }
      n := Min(r, |data|);
      log := log + [Xfer(data, n)];
    }

    /** `fastboot_write`: transfers of at most 16 KiB, however the device shortens
        them, until every byte is taken; the first failure stops it. */
    method Write(data: seq<byte>) returns (ret: int)
      modifies this`log, this`results
      ensures var w := WriteRun(data, old(results));
              && log == old(log) + w.xs && results == w.results
              && ret == if w.ok then ToInt32(|data|) else -1
    {
      ghost var xs: seq<Xfer> := [];
      ghost var all := WriteRun(data, results);
      var count := 0;
      assert data[0..] == data;
      while true
        invariant 0 <= count <= |data| && log == old(log) + xs
        invariant GoesOn(all, xs, WriteRun(data[count..], results))
        decreases |results|
      {
        var buf := data[count..][..Min(|data| - count, MAX_USBFS_BULK_SIZE)];
        if results != [] && results[0] >= 0 {
          WriteGoesOn(all, xs, data, count, results);
        }
        var n := Bulk(buf);
        if n < 0 {
          assert xs + [] == xs;
          return -1;
        }
        ConcatAssoc(old(log), xs, [Xfer(buf, n)]);
        xs := xs + [Xfer(buf, n)];
        count := count + n;
        if count == |data| {
          return ToInt32(count);
        }
      }
    }

    /** `fastboot_read`. */
    method ReadStatus() returns (ret: int)
      modifies this`replies
      ensures Read(ret, replies) == ReadReply(old(replies))
    {
      while true
        invariant ReadReply(replies) == ReadReply(old(replies))
        decreases |replies|
      {
        if replies == [] {
          return -ENXIO;
        }
        var reply := replies[0];
        replies := replies[1..];
        if reply.Failure? {
          return -ENXIO;
        }
        var status := reply.status;
        if |status| < 4 {
          return -1;
        }
        if status[..4] == "INFO" {
          // shown to the user
        } else if status[..4] == "OKAY" {
          return |status| - 4;
        } else if status[..4] == "FAIL" {
          return -ENXIO;
        } else if status[..4] == "DATA" {
          return ToInt32(StrToL(status, 4, 16));
        }
      }
    }

    /** The loop of `fastboot_download`: the image in pieces of at most 16 KiB. */
    method WriteImage(data: seq<byte>) returns (ret: int)
      modifies this`log, this`results
      ensures var w := WritePieces(data, old(results));
              log == old(log) + w.xs && results == w.results && (ret >= 0 <==> w.ok) && ret >= -1
    {
      ghost var xs: seq<Xfer> := [];
      ghost var all := WritePieces(data, results);
      ret := 0;
      var offset, len := 0, |data|;
      assert data[0..] == data;
      while len > 0
        invariant 0 <= len && offset == |data| - len && ret >= 0 && log == old(log) + xs
        invariant GoesOn(all, xs, WritePieces(data[offset..], results))
      {
        var xfer := Min(len, MAX_USBFS_BULK_SIZE);
        PieceGoesOn(all, xs, data, offset, xfer, results);
        ghost var w := WriteRun(data[offset..offset + xfer], results);
        ret := Write(data[offset..offset + xfer]);
        ConcatAssoc(old(log), xs, w.xs);
        if ret < 0 {
          return;
        }
        xs := xs + w.xs;
        offset := offset + xfer;
        len := len - xfer;
      }
      PiecesEnd(all, xs, data, results);
    }

    /** `fastboot_boot`, `fastboot_set_active`, `fastboot_flash`, `fastboot_reboot` and
        `fastboot_continue`. */
    method Command(cmd: string)
      modifies this`log, this`results, this`replies
      ensures View() == CommandRun(cmd, old(View()))
    {
      var _ := Write(Ascii(cmd));
      var _ := ReadStatus();
    }

    /** `fastboot_download`. */
    method Download(data: seq<byte>) returns (ret: int)
      modifies this`log, this`results, this`replies
      ensures var r := DownloadRun(data, old(results), old(replies));
              && ret == r.ret && log == old(log) + r.cmd + r.image
              && results == r.results && replies == r.replies
    {
      var _ := Write(Ascii(DownloadCommand(|data|)));
      ret := ReadStatus();
      if ret < 0 {
        assert log + [] == log;
        return -1;
      }
      ret := WriteImage(data);
      if ret < 0 {
        return;
      }
      ret := ReadStatus();
    }
  }
}
