/** What one writable pass of the client does to its work queue, on values: the
    sends behind each work item, and the pass that `main` makes over the list
    with the one-element lookahead of `list_for_each_entry_safe`. */
module WorkQueue {
  import opened Bytes
  import opened Wire

  const CHUNK: nat := 2048

  /** A queued request. `id` is the identity of its list node. */
  datatype Item =
    | Send(id: nat, frame: Frame, fatal: bool)    // one message; a refusal ends the client when fatal
    | File(id: nat, data: seq<byte>, offset: nat) // an image upload

  ghost predicate ItemOk(it: Item) {
    it.File? ==> it.offset <= |it.data|
  }

  // ---- cdba_send_buf -------------------------------------------------------

  /** The result of one framed send: `ok` or refused, and the bytes it wrote. */
  datatype Sent = Sent(ok: bool, wrote: seq<byte>)

  /** `cdba_send_buf` on a pipe with `room` free bytes (a pipe takes each of
      these writes whole or not at all): header first, then the payload. */
  function SendFrame(f: Frame, room: nat): (s: Sent)
    ensures |s.wrote| <= room
  {
    if room < HDR_SIZE then Sent(false, [])
    else if |f.data| > 0 && room - HDR_SIZE < |f.data| then Sent(false, Header(f.kind, |f.data|))
    else Sent(true, Encode(f))
  }

  /** The header got through and the payload did not. */
  predicate Torn(f: Frame, room: nat) {
    HDR_SIZE <= room < HDR_SIZE + |f.data|
  }

  /** A send is all-or-nothing exactly when the free space is short of a header
      or enough for the whole frame. */
  lemma {:induction false} SendAtomicIff(f: Frame, room: nat)
    ensures !Torn(f, room) <==>
            var s := SendFrame(f, room); s == Sent(true, Encode(f)) || s == Sent(false, [])
  {
    if Torn(f, room) {
      assert SendFrame(f, room).wrote != [];
    }
  }

  // ---- One work item -------------------------------------------------------

  datatype Outcome = Outcome(item: Item, sent: Sent, requeued: bool, failed: bool)

  /** The next message of an upload: at most 2048 bytes from the offset on, and
      an empty one once everything was sent. */
  function NextFrame(data: seq<byte>, offset: nat): Frame
    requires offset <= |data|
  {
    var left := if CHUNK < |data| - offset then CHUNK else |data| - offset;
    Frame(MSG_FASTBOOT_DOWNLOAD, data[offset..offset + left])
  }

  function FrameOf(it: Item): Frame
    requires ItemOk(it)
  {
    match it
    case Send(_, f, _) => f
    case File(_, data, offset) => NextFrame(data, offset)
  }

  /** Running the function of a work item that has just been unlinked. */
  function RunItem(it: Item, room: nat): (o: Outcome)
    requires ItemOk(it)
    ensures ItemOk(o.item) && o.item.id == it.id && o.item.File? == it.File?
    ensures o.requeued ==> it.File?
  {
    var s := SendFrame(FrameOf(it), room);
    match it
    case Send(_, _, fatal) => Outcome(it, s, false, fatal && !s.ok)
    case File(_, data, offset) =>
      if !s.ok then Outcome(it, s, true, false)
      else
        var left := |NextFrame(data, offset).data|;
        Outcome(it.(offset := offset + left), s, left != 0, false)
  }

  /** Running an item makes the client give up exactly when it is a fatal send that the
      pipe has no room for, header of 3 bytes included. */
  lemma {:induction false} GivesUpIff(it: Item, room: nat)
    requires ItemOk(it)
    ensures RunItem(it, room).failed <==> it.Send? && it.fatal && room < 3 + |it.frame.data|
  {}

  /** An upload has the next 2048 bytes to send, or what is left. */
  lemma {:induction false} PieceIs(data: seq<byte>, offset: nat)
    requires offset <= |data|
    ensures var f := NextFrame(data, offset);
            f.kind == 7 && f.data == data[offset..][..if |data| - offset > 2048 then 2048 else |data| - offset]
  {}

  // ---- The pass ------------------------------------------------------------

  ghost predicate AtMostOneFile(q: seq<Item>) {
    forall i, j :: 0 <= i < j < |q| ==> !(q[i].File? && q[j].File?)
  }

  ghost predicate QueueOk(q: seq<Item>) {
    AtMostOneFile(q) && forall i :: 0 <= i < |q| ==> ItemOk(q[i])
  }

  /** The queue after its first item was unlinked and run. */
  function Rotate(q: seq<Item>, o: Outcome): seq<Item>
    requires q != []
  {
    q[1..] + (if o.requeued then [o.item] else [])
  }

  lemma {:induction false} RotateOk(q: seq<Item>, room: nat)
    requires QueueOk(q) && q != []
    ensures QueueOk(Rotate(q, RunItem(q[0], room)))
  {}

  datatype PassResult = PassResult(
    queue: seq<Item>,   // what is left on the list
    ran: seq<Item>,     // the items run, in order, as they were when run
    wrote: seq<byte>,   // bytes put on the pipe
    failed: bool        // the client gave up
  )

  /** One pass. The lookahead pointer is taken before an item runs, so the pass
      goes on after an item exactly when another was queued behind it. */
  function Pass(q: seq<Item>, room: nat): (r: PassResult)
    requires QueueOk(q)
    ensures |r.wrote| <= room
    decreases 2 * |q| + (if q != [] && q[0].File? then 1 else 0)
  {
    if q == [] then PassResult([], [], [], false)
    else
      var o := RunItem(q[0], room);
      RotateOk(q, room);
      var q' := Rotate(q, o);
      if o.failed || |q| == 1 then
        PassResult(q', [q[0]], o.sent.wrote, o.failed)
      else
        assert q'[0] == q[1];
        var r := Pass(q', room - |o.sent.wrote|);
        PassResult(r.queue, [q[0]] + r.ran, o.sent.wrote + r.wrote, r.failed)
  }

  /** A pass that has already run `ran` and goes on as `rest`. */
  function Continue(ran: seq<Item>, wrote: seq<byte>, rest: PassResult): PassResult {
    PassResult(rest.queue, ran + rest.ran, wrote + rest.wrote, rest.failed)
  }

  /** The pass with outcome `whole` has run `ran`, and has either ended or goes
      on from the queue `q`. */
  ghost predicate Reached(whole: PassResult, ended: bool, q: seq<Item>, room: nat, ran: seq<Item>, wrote: seq<byte>) {
    if ended then whole == PassResult(q, ran, wrote, false)
    else QueueOk(q) && whole == Continue(ran, wrote, Pass(q, room))
  }

  lemma {:induction false} PassStep(whole: PassResult, q: seq<Item>, room: nat, ran: seq<Item>, wrote: seq<byte>)
    requires q != [] && Reached(whole, false, q, room, ran, wrote)
    ensures var o := RunItem(q[0], room);
            var ran', wrote' := ran + [q[0]], wrote + o.sent.wrote;
            && QueueOk(Rotate(q, o))
            && (o.failed ==> whole == PassResult(Rotate(q, o), ran', wrote', true))
            && (!o.failed ==> Reached(whole, |q| == 1, Rotate(q, o), room - |o.sent.wrote|, ran', wrote'))
  {
    var o := RunItem(q[0], room);
    RotateOk(q, room);
    if !o.failed && |q| > 1 {
      var r := Pass(Rotate(q, o), room - |o.sent.wrote|);
      ConcatAssoc(ran, [q[0]], r.ran);
      ConcatAssoc(wrote, o.sent.wrote, r.wrote);
    }
  }

  function Ids(q: seq<Item>): (r: seq<nat>)
    ensures |r| == |q|
    ensures forall i :: 0 <= i < |q| ==> r[i] == q[i].id
  {
    if q == [] then [] else [q[0].id] + Ids(q[1..])
  }

  lemma {:induction false} IdsAppend(a: seq<Item>, b: seq<Item>)
    ensures Ids(a + b) == Ids(a) + Ids(b)
  {
    forall i | 0 <= i < |a + b| ensures Ids(a + b)[i] == (Ids(a) + Ids(b))[i] {}
  }

  ghost predicate NoFileBefore(q: seq<Item>, n: int) {
    forall i :: 0 <= i < n && i < |q| ==> q[i].Send?
  }

  /** A pass that starts with a message goes on with the rest of the queue. */
  lemma {:induction false} PassSend(q: seq<Item>, room: nat) returns (left: nat)
    requires QueueOk(q) && |q| > 1 && q[0].Send? && !Pass(q, room).failed
    ensures QueueOk(q[1..])
    ensures var r := Pass(q[1..], left);
            !r.failed && Pass(q, room).ran == [q[0]] + r.ran && Pass(q, room).queue == r.queue
  {
    var o := RunItem(q[0], room);
    RotateOk(q, room);
    assert Rotate(q, o) == q[1..];
    left := room - |o.sent.wrote|;
  }

  /** Without an upload, or with the upload last, each item runs once, in order. */
  lemma {:induction false} PassUploadLast(q: seq<Item>, room: nat)
    requires QueueOk(q) && NoFileBefore(q, |q| - 1)
    requires !Pass(q, room).failed
    ensures Ids(Pass(q, room).ran) == Ids(q)
    ensures |Pass(q, room).queue| <= 1
    ensures forall it :: it in Pass(q, room).queue ==> it.File? && q != [] && q[|q| - 1].File? && it.id == q[|q| - 1].id
    decreases |q|
  {
    if |q| > 1 {
      var left := PassSend(q, room);
      assert NoFileBefore(q[1..], |q| - 2);
      PassUploadLast(q[1..], left);
      IdsAppend([q[0]], Pass(q[1..], left).ran);
    } else if |q| == 1 {
      assert Pass(q, room).ran == q;
    }
  }

  /** `id` is an upload among the first `n` items. */
  ghost predicate UploadWithin(q: seq<Item>, n: int, id: nat) {
    exists i :: 0 <= i < n && i < |q| && q[i].File? && q[i].id == id
  }

  lemma {:induction false} UploadLater(it: Item, q: seq<Item>, n: int, id: nat)
    requires UploadWithin(q, n, id)
    ensures UploadWithin([it] + q, n + 1, id)
  {
    var i :| 0 <= i < n && i < |q| && q[i].File? && q[i].id == id;
    assert ([it] + q)[i + 1] == q[i];
  }

  /** A pass that starts with an upload goes on with the rest of the queue and, if
      there is more to send, with the upload behind it. */
  lemma {:induction false} PassFile(q: seq<Item>, room: nat) returns (left: nat, back: seq<Item>)
    requires QueueOk(q) && |q| > 1 && q[0].File? && !Pass(q, room).failed
    ensures back == [] || (|back| == 1 && back[0].File? && back[0].id == q[0].id)
    ensures QueueOk(q[1..] + back) && NoFileBefore(q[1..] + back, |q[1..] + back| - 1)
    ensures var r := Pass(q[1..] + back, left);
            !r.failed && Pass(q, room).ran == [q[0]] + r.ran && Pass(q, room).queue == r.queue
  {
    var o := RunItem(q[0], room);
    RotateOk(q, room);
    back := if o.requeued then [o.item] else [];
    assert Rotate(q, o) == q[1..] + back;
    left := room - |o.sent.wrote|;
  }

  lemma {:induction false} PassUploadFirst(q: seq<Item>, room: nat) returns (again: seq<nat>)
    requires QueueOk(q) && |q| > 1 && q[0].File?
    requires !Pass(q, room).failed
    ensures Ids(Pass(q, room).ran) == Ids(q) + again
    ensures again == [] || again == [q[0].id]
    ensures |Pass(q, room).queue| <= 1 && forall it :: it in Pass(q, room).queue ==> it.File?
    ensures forall it :: it in Pass(q, room).queue ==> it.id == q[0].id
  {
    var left, back := PassFile(q, room);
    var rest := q[1..] + back;
    again := Ids(back);
    PassUploadLast(rest, left);
    LastIsUpload(q, back);
    IdsAppend([q[0]], Pass(rest, left).ran);
    IdsAppend(q[1..], back);
    ConcatAssoc([q[0].id], Ids(q[1..]), again);
  }

  /** Behind an upload there is none but itself. */
  lemma {:induction false} LastIsUpload(q: seq<Item>, back: seq<Item>)
    requires QueueOk(q) && |q| > 1 && q[0].File?
    requires back == [] || (|back| == 1 && back[0].id == q[0].id)
    ensures var rest := q[1..] + back; rest[|rest| - 1].File? ==> rest[|rest| - 1].id == q[0].id
  {
    assert back == [] ==> (q[1..] + back)[|q| - 2] == q[|q| - 1];
  }

  /** The work-list pass. Every item queued at the start runs, in queue order;
      an upload runs a second time only if something was queued behind it and
      it still had work; and when the pass ends the list holds that upload or
      nothing, so no node is lost or duplicated. This holds whatever the pipe
      accepts, so a pass ends even while the upload is always refused. */
  lemma {:induction false} PassOrder(q: seq<Item>, room: nat) returns (again: seq<nat>)
    requires QueueOk(q)
    requires !Pass(q, room).failed
    ensures Ids(Pass(q, room).ran) == Ids(q) + again
    ensures again == [] || (|again| == 1 && UploadWithin(q, |q| - 1, again[0]))
    ensures |Pass(q, room).queue| <= 1 && forall it :: it in Pass(q, room).queue ==> it.File?
    ensures forall it :: it in Pass(q, room).queue ==> UploadWithin(q, |q|, it.id)
    decreases |q|
  {
    again := [];
    if |q| <= 1 {
      assert Ids(q) + again == Ids(q);
    } else if q[0].File? {
      again := PassUploadFirst(q, room);
    } else {
      var room' := PassSend(q, room);
      var q' := q[1..];
      assert [q[0]] + q' == q;
      again := PassOrder(q', room');
      forall it | it in Pass(q', room').queue ensures UploadWithin(q, |q|, it.id) {
        UploadLater(q[0], q', |q'|, it.id);
      }
      if again != [] {
        UploadLater(q[0], q', |q'| - 1, again[0]);
      }
      IdsAppend([q[0]], Pass(q', room').ran);
      IdsAppend([q[0]], q');
      ConcatAssoc([q[0].id], Ids(q'), again);
    }
  }

  // ---- Two uploads at once -------------------------------------------------

  /** The queue after `n` items of a pass over uploads that the pipe refuses, or
      nothing if the pass has ended by then. */
  function AfterBlocked(q: seq<Item>, n: nat): Option<seq<Item>>
    requires forall i :: 0 <= i < |q| ==> ItemOk(q[i])
    decreases n
  {
    if n == 0 then Some(q)
    else if q == [] || |q| == 1 then None
    else AfterBlocked(Rotate(q, RunItem(q[0], 0)), n - 1)
  }

  /** A pass over uploads that are all refused ends exactly when there is at
      most one of them: a second one keeps the lookahead from reaching the end. */
  lemma {:induction false} BlockedPassEndsIff(q: seq<Item>)
    requires forall i :: 0 <= i < |q| ==> q[i].File? && ItemOk(q[i])
    ensures (exists n: nat :: AfterBlocked(q, n) == None) <==> |q| <= 1
  {
    if |q| <= 1 {
      assert AfterBlocked(q, 1) == None;
    } else {
      forall n: nat
        ensures AfterBlocked(q, n) != None
      {
        BlockedForever(q, n);
      }
    }
  }

  lemma {:induction false} BlockedForever(q: seq<Item>, n: nat)
    requires |q| > 1 && forall i :: 0 <= i < |q| ==> q[i].File? && ItemOk(q[i])
    ensures AfterBlocked(q, n).Some? && |AfterBlocked(q, n).value| == |q|
    decreases n
  {
    if n > 0 {
      BlockedForever(Rotate(q, RunItem(q[0], 0)), n - 1);
    }
  }
}
