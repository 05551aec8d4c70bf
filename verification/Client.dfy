/** The sending half of `cdba.c`: framed sends, the upload work function, and the
    pass of `main` over the intrusive work list, edited while it is iterated. */
module Client {
  import opened Bytes
  import opened Wire
  import opened WorkQueue
  import opened IntrusiveList

  /** The non-blocking pipe to the server: everything written so far, and the
      room left in it. A write that does not fit is refused with EAGAIN. */
  class Pipe {
    var wire: seq<byte>
    var room: nat

    method Write(data: seq<byte>) returns (n: int)
      modifies this
      ensures |data| <= old(room) ==> n == |data| && wire == old(wire) + data && room == old(room) - |data|
      ensures |data| > old(room) ==> n == -1 && wire == old(wire) && room == old(room)
    {
      if |data| > room {
        return -1;
      }
      wire, room := wire + data, room - |data|;
      n := |data|;
    }
  }

  /** `cdba_send_buf`: 0, or a negative value when either write is refused. */
  method SendBuf(pipe: Pipe, kind: byte, data: seq<byte>) returns (ret: int)
    modifies pipe
    ensures var s := SendFrame(Frame(kind, data), old(pipe.room));
            && pipe.wire == old(pipe.wire) + s.wrote
            && pipe.room == old(pipe.room) - |s.wrote|
            && (ret == 0 <==> s.ok) && ret <= 0
  {
    var hdr := Header(kind, |data|);
    ret := pipe.Write(hdr);
    if ret < 0 {
      return;
    }
    if |data| > 0 {
      ret := pipe.Write(data);
    } else {
      assert hdr == hdr + data;
    }
    ConcatAssoc(old(pipe.wire), hdr, data);
    ret := if ret < 0 then ret else 0;
  }

  class Client {
    const work_items: List<Item>
    const pipe: Pipe
    ghost var items: seq<Item>
    ghost var ran: seq<Item>

    /** The list is well formed and its nodes carry, in order, `items`. */
    ghost predicate Valid()
      reads this`items, work_items, work_items.nodes
    {
      && work_items.Valid()
      && |work_items.xs| == |items|
      && forall i :: 0 <= i < |items| ==> work_items.xs[i].entry == Some(items[i])
    }

    constructor (pipe: Pipe)
      ensures Valid() && fresh(work_items) && items == [] && this.pipe == pipe
    {
      work_items := new List();
      this.pipe := pipe;
      items, ran := [], [];
    }

    /** `request_*`: queues a request behind the others. A node must not be on
        the list already. */
    method Request(node: Node<Item>)
      requires Valid() && node in work_items.nodes && node != work_items.head
      requires node !in work_items.xs && node.entry.Some?
      modifies this`items, work_items`xs, work_items.nodes`prev, work_items.nodes`next
      ensures Valid()
      ensures work_items.xs == old(work_items.xs) + [node] && items == old(items) + [node.entry.value]
    {
      work_items.Add(node);
      items := items + [node.entry.value];
    }

    /** `fastboot_work_fn`: sends the next piece of the image and goes back to
        the end of the list, unless the empty piece has been sent. */
    method FastbootWork(node: Node<Item>)
      requires Valid() && node in work_items.nodes && node != work_items.head && node !in work_items.xs
      requires node.entry.Some? && node.entry.value.File? && ItemOk(node.entry.value)
      modifies this`items, work_items`xs, work_items.nodes, pipe
      ensures Valid()
      ensures var o := RunItem(old(node.entry.value), old(pipe.room));
              && pipe.wire == old(pipe.wire) + o.sent.wrote
              && pipe.room == old(pipe.room) - |o.sent.wrote|
              && work_items.xs == old(work_items.xs) + (if o.requeued then [node] else [])
              && items == old(items) + (if o.requeued then [o.item] else [])
    {
      var work := node.entry.value;
      var left := if CHUNK < |work.data| - work.offset then CHUNK else |work.data| - work.offset;
      ghost var o := RunItem(work, pipe.room);
      assert NextFrame(work.data, work.offset).data == work.data[work.offset..work.offset + left];
      var ret := SendBuf(pipe, MSG_FASTBOOT_DOWNLOAD, work.data[work.offset..work.offset + left]);
      if ret < 0 {
        assert o.requeued && o.item == work;
        Request(node);
        return;
      }
      node.entry := Some(work.(offset := work.offset + left));
      if left != 0 {
        assert o.requeued && o.item == node.entry.value;
        Request(node);
      } else {
        assert !o.requeued;
      }
    }

    /** Runs the function of a work item that was just unlinked. */
    method RunWork(node: Node<Item>) returns (failed: bool)
      requires Valid() && node in work_items.nodes && node != work_items.head && node !in work_items.xs
      requires node.entry.Some? && ItemOk(node.entry.value)
      modifies this`items, work_items`xs, work_items.nodes, pipe
      ensures Valid()
      ensures var o := RunItem(old(node.entry.value), old(pipe.room));
              && failed == o.failed
              && pipe.wire == old(pipe.wire) + o.sent.wrote
              && pipe.room == old(pipe.room) - |o.sent.wrote|
              && work_items.xs == old(work_items.xs) + (if o.requeued then [node] else [])
              && items == old(items) + (if o.requeued then [o.item] else [])
    {
      failed := false;
      if node.entry.value.File? {
        FastbootWork(node);
      } else {
        var ret := SendBuf(pipe, node.entry.value.frame.kind, node.entry.value.frame.data);
        failed := node.entry.value.fatal && ret < 0;
      }
    }

    /** The body of the pass: unlinks the first node, then runs its function. */
    method UnlinkAndRun(work: Node<Item>) returns (failed: bool)
      requires Valid() && items != [] && work == work_items.xs[0] && ItemOk(items[0])
      modifies this`items, work_items`xs, work_items.nodes, pipe
      ensures Valid()
      ensures var o := RunItem(old(items)[0], old(pipe.room));
              && failed == o.failed
              && pipe.wire == old(pipe.wire) + o.sent.wrote
              && pipe.room == old(pipe.room) - |o.sent.wrote|
              && work_items.xs == old(work_items.xs)[1..] + (if o.requeued then [work] else [])
              && items == Rotate(old(items), o)
    {
      work_items.Del(work, 0);
      items := items[1..];
      failed := RunWork(work);
    }

    /** One turn of the pass whose outcome is `whole` and which has written
        `wrote` so far. */
    method Turn(work: Node<Item>, ghost whole: PassResult, ghost wrote: seq<byte>)
      returns (failed: bool, ghost sent: seq<byte>)
      requires Valid() && items != [] && work == work_items.xs[0]
      requires Reached(whole, false, items, pipe.room, ran, wrote)
      modifies this`items, this`ran, work_items`xs, work_items.nodes, pipe
      ensures Valid() && pipe.wire == old(pipe.wire) + sent
      ensures failed ==> whole == PassResult(items, ran, wrote + sent, true)
      ensures !failed ==> Reached(whole, |old(items)| == 1, items, pipe.room, ran, wrote + sent)
      ensures var requeued := RunItem(old(items)[0], old(pipe.room)).requeued;
              && items == Rotate(old(items), RunItem(old(items)[0], old(pipe.room)))
              && work_items.xs == old(work_items.xs)[1..] + if requeued then [work] else []
    {
      PassStep(whole, items, pipe.room, ran, wrote);
      sent := RunItem(items[0], pipe.room).sent.wrote;
      ran := ran + [items[0]];
      failed := UnlinkAndRun(work);
    }

    /** The writable branch of the main loop. */
    method WorkPass() returns (failed: bool)
      requires Valid() && QueueOk(items)
      modifies this`items, this`ran, work_items`xs, work_items.nodes, pipe
      ensures Valid()
      ensures var r := Pass(old(items), old(pipe.room));
              && items == r.queue && failed == r.failed && ran == r.ran
              && pipe.wire == old(pipe.wire) + r.wrote
    {
      ghost var P := Pass(items, pipe.room);
      ghost var wrote, sent := [], [];
      ran := [];
      var work := work_items.head.next;
      var next := work.next;
      while work != work_items.head
        invariant Valid() && pipe.wire == old(pipe.wire) + wrote
        invariant work != work_items.head ==> items != [] && work == work_items.xs[0] && next == work_items.At(1)
        invariant Reached(P, work == work_items.head, items, pipe.room, ran, wrote)
        decreases work != work_items.head, 2 * |items| + (if items != [] && items[0].File? then 1 else 0)
      {
        failed, sent := Turn(work, P, wrote);
        ConcatAssoc(old(pipe.wire), wrote, sent);
        wrote := wrote + sent;
        if failed {
          return;
        }
        work := next;
        next := work.next;
      }
      failed := false;
    }
  }
}
