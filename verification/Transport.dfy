/** Runs of the whole upload path: a client working through its queue, the pipe,
    the receive ring and the server, in any interleaving. */
module Transport {
  import opened Bytes
  import opened Wire
  import opened WorkQueue
  import opened IntrusiveList
  import CircBuf
  import Client
  import Server
  import Fastboot
  import Booting

  /** What the ring can hold. */
  const CAPACITY: nat := 16383

  /** The state of a run; `sent` and `received` record what has happened. */
  datatype Sys = Sys(
    queue: seq<Item>,          // the client's work list
    alive: bool,               // the client has not given up
    files: seq<seq<byte>>,     // images requested so far, in order
    sent: seq<Frame>,          // frames the client has sent
    link: seq<byte>,           // bytes in the pipe
    received: seq<byte>,       // bytes the server has read
    ring: seq<byte>,           // bytes waiting in the server's ring
    server: Server.Upload
  )

  const Initial := Sys([], true, [], [], [], [], [], Server.Start)

  datatype Step =
    | RunFirst(room: nat)              // one turn of the client's work-list pass
    | Request(item: Item)              // some other request is queued
    | StartUpload(id: nat, image: seq<byte>)
    | Key(frame: Frame, room: nat)     // the console sends a message, dropping it if refused
    | Read(k: nat)                     // the server reads `k` bytes and drains

  /** A message other than an upload piece, as the client sends them. */
  predicate Other(f: Frame) {
    Server.Known(f.kind) && f.kind != MSG_FASTBOOT_DOWNLOAD && Fits(f)
  }

  ghost predicate NoFile(q: seq<Item>) {
    forall i :: 0 <= i < |q| ==> q[i].Send?
  }

  /** The environment's side: no send is torn, one upload is active at a time,
      and a read takes what is there and fits the ring. */
  ghost predicate Enabled(s: Sys, e: Step) {
    match e
    case RunFirst(room) => s.alive && s.queue != [] && ItemOk(s.queue[0]) && !Torn(FrameOf(s.queue[0]), room)
    case Request(item) => s.alive && item.Send? && Other(item.frame)
    case StartUpload(_, _) => s.alive && NoFile(s.queue)
    case Key(f, room) => s.alive && Other(f) && !Torn(f, room)
    case Read(k) => k <= |s.link| && |s.ring| + k <= CAPACITY
  }

  function Emit(s: Sys, f: Frame, m: Sent): Sys {
    s.(sent := s.sent + (if m.ok then [f] else []), link := s.link + m.wrote)
  }

  function Next(s: Sys, e: Step): Sys
    requires Enabled(s, e)
  {
    match e
    case RunFirst(room) =>
      var o := RunItem(s.queue[0], room);
      Emit(s, FrameOf(s.queue[0]), o.sent).(queue := Rotate(s.queue, o), alive := !o.failed)
    case Request(item) => s.(queue := s.queue + [item])
    case StartUpload(id, image) => s.(queue := s.queue + [File(id, image, 0)], files := s.files + [image])
    case Key(f, room) => Emit(s, f, SendFrame(f, room))
    case Read(k) =>
      var c := s.ring + s.link[..k];
      s.(link := s.link[k..], received := s.received + s.link[..k],
         ring := Parse(c).rest, server := Server.DispatchAll(s.server, Parse(c).frames))
  }

  ghost predicate CanRun(s: Sys, es: seq<Step>)
    decreases |es|
  {
    es == [] || (Enabled(s, es[0]) && CanRun(Next(s, es[0]), es[1..]))
  }

  ghost function Run(s: Sys, es: seq<Step>): Sys
    requires CanRun(s, es)
    decreases |es|
  {
    if es == [] then s else Run(Next(s, es[0]), es[1..])
  }

  // ---- The invariant -------------------------------------------------------

  /** The upload state the server will have once it has read everything sent. */
  function Eventually(s: Sys): Server.Upload {
    Server.DispatchAll(Server.Start, s.sent)
  }

  ghost predicate FramesOk(fs: seq<Frame>) {
    forall i :: 0 <= i < |fs| ==> Fits(fs[i]) && Server.Known(fs[i].kind)
  }

  /** What was sent amounts to the images requested before the one in progress,
      and to that one up to its offset. */
  ghost predicate UploadsInStep(s: Sys) {
    var u := Eventually(s);
    && !u.exited
    && (NoFile(s.queue) && s.alive ==> u.boots == s.files && u.payload == [])
    && forall i :: 0 <= i < |s.queue| && s.queue[i].File? ==>
         && ItemOk(s.queue[i]) && s.files == u.boots + [s.queue[i].data]
         && u.payload == s.queue[i].data[..s.queue[i].offset]
  }

  ghost predicate QueueSends(q: seq<Item>) {
    QueueOk(q) && forall i :: 0 <= i < |q| && q[i].Send? ==> Other(q[i].frame)
  }

  ghost predicate LinkInStep(s: Sys) {
    && FramesOk(s.sent)
    && s.received + s.link == EncodeAll(s.sent)
    && s.ring == Parse(s.received).rest
    && s.server == Server.DispatchAll(Server.Start, Parse(s.received).frames)
  }

  ghost predicate Inv(s: Sys) {
    QueueSends(s.queue) && LinkInStep(s) && UploadsInStep(s) && Eventually(s).boots <= s.files
  }

  lemma {:induction false} InitialInv()
    ensures Inv(Initial)
  {}

  lemma {:induction false} DispatchOne(s: Sys, f: Frame)
    ensures Server.DispatchAll(Server.Start, s.sent + [f]) ==
            var u := Eventually(s); if u.exited then u else Server.Dispatch(u, f)
  {
    Server.DispatchAppend(Server.Start, s.sent, [f]);
  }

  /** A send that is not torn keeps the byte stream a stream of whole frames. */
  lemma {:induction false} EmitKeepsLink(s: Sys, f: Frame, room: nat)
    requires LinkInStep(s) && Fits(f) && Server.Known(f.kind) && !Torn(f, room)
    ensures LinkInStep(Emit(s, f, SendFrame(f, room)))
  {
    var m := SendFrame(f, room);
    if m.ok {
      EncodeAllSnoc(s.sent, f);
      ConcatAssoc(s.received, s.link, Encode(f));
    } else {
      assert s.link + [] == s.link && s.sent + [] == s.sent;
    }
  }

  /** Messages other than upload pieces leave the accumulated image alone. */
  lemma {:induction false} OtherKeepsUploads(s: Sys, f: Frame, room: nat)
    requires Other(f)
    ensures var t := Emit(s, f, SendFrame(f, room));
            !Eventually(s).exited ==>
              var u, v := Eventually(s), Eventually(t);
              !v.exited && v.boots == u.boots && v.payload == u.payload
  {
    DispatchOne(s, f);
    assert s.sent + [] == s.sent;
  }

  lemma {:induction false} RunSendKeepsInv(s: Sys, room: nat)
    requires Inv(s) && Enabled(s, RunFirst(room)) && s.queue[0].Send?
    ensures Inv(Next(s, RunFirst(room)))
  {
    var f := s.queue[0].frame;
    EmitKeepsLink(s, f, room);
    OtherKeepsUploads(s, f, room);
    var t := Next(s, RunFirst(room));
    assert t.queue == s.queue[1..];
    assert forall i :: 0 <= i < |t.queue| ==> t.queue[i] == s.queue[i + 1];
    assert NoFile(t.queue) ==> NoFile(s.queue);
  }

  /** A piece of an upload advances the accumulated image by that piece, and the
      empty piece completes it. */
  lemma {:induction false} RunFileKeepsInv(s: Sys, room: nat)
    requires Inv(s) && Enabled(s, RunFirst(room)) && s.queue[0].File?
    ensures Inv(Next(s, RunFirst(room)))
  {
    var it := s.queue[0];
    var f, o := FrameOf(it), RunItem(it, room);
    var t := Next(s, RunFirst(room));
    EmitKeepsLink(s, f, room);
    DispatchOne(s, f);
    RotateOk(s.queue, room);
    assert NoFile(s.queue[1..]);
    if !o.sent.ok {
      assert s.sent + [] == s.sent;
      assert Eventually(t) == Eventually(s);
    } else if o.requeued {
      assert it.data[..it.offset] + f.data == it.data[..it.offset + |f.data|];
    } else {
      assert it.data[..it.offset] == it.data;
    }
    if o.requeued {
      assert t.queue[|s.queue| - 1] == o.item;
      assert !NoFile(t.queue);
    }
    assert UploadsInStep(t);
  }

  lemma {:induction false} ReadKeepsInv(s: Sys, k: nat)
    requires Inv(s) && Enabled(s, Read(k))
    ensures Inv(Next(s, Read(k)))
  {
    var b := s.link[..k];
    ParseChunked(s.received, b);
    Server.DispatchAppend(Server.Start, Parse(s.received).frames, Parse(s.ring + b).frames);
    assert s.link == b + s.link[k..];
    ConcatAssoc(s.received, b, s.link[k..]);
  }

  lemma {:induction false} QueueKeepsInv(s: Sys, e: Step)
    requires Inv(s) && Enabled(s, e) && (e.Request? || e.StartUpload?)
    ensures Inv(Next(s, e))
  {
    var t := Next(s, e);
    assert forall i :: 0 <= i < |s.queue| ==> t.queue[i] == s.queue[i];
    if e.Request? {
      assert NoFile(t.queue) ==> NoFile(s.queue);
    } else {
      assert t.queue[|s.queue|].File? && !NoFile(t.queue);
      assert e.image[..0] == [];
    }
  }

  /** Every step of the client, the console and the server keeps the invariant. */
  lemma {:induction false} StepKeepsInv(s: Sys, e: Step)
    requires Inv(s) && Enabled(s, e)
    ensures Inv(Next(s, e))
  {
    match e
    case RunFirst(room) =>
      if s.queue[0].Send? { RunSendKeepsInv(s, room); } else { RunFileKeepsInv(s, room); }
    case Key(f, room) =>
      EmitKeepsLink(s, f, room);
      OtherKeepsUploads(s, f, room);
    case Read(k) => ReadKeepsInv(s, k);
    case _ => QueueKeepsInv(s, e);
  }

  lemma {:induction false} RunKeepsInv(s: Sys, es: seq<Step>)
    requires Inv(s) && CanRun(s, es)
    ensures Inv(Run(s, es))
    decreases |es|
  {
    if es != [] {
      StepKeepsInv(s, es[0]);
      RunKeepsInv(Next(s, es[0]), es[1..]);
    }
  }

  // ---- What follows on every run -------------------------------------------

  lemma {:induction false} BootsGrow(u: Server.Upload, fs: seq<Frame>)
    ensures u.boots <= Server.DispatchAll(u, fs).boots
    ensures u.dispatched <= Server.DispatchAll(u, fs).dispatched
    decreases |fs|
  {
    if fs != [] && !u.exited {
      BootsGrow(Server.Dispatch(u, fs[0]), fs[1..]);
    }
  }

  lemma {:induction false} KnownAllDispatched(u: Server.Upload, fs: seq<Frame>)
    requires !u.exited && FramesOk(fs)
    ensures !Server.DispatchAll(u, fs).exited
    ensures Server.DispatchAll(u, fs).dispatched == u.dispatched + fs
    decreases |fs|
  {
    if fs != [] {
      KnownAllDispatched(Server.Dispatch(u, fs[0]), fs[1..]);
      assert u.dispatched + [fs[0]] + fs[1..] == u.dispatched + fs;
    } else {
      assert u.dispatched + fs == u.dispatched;
    }
  }

  /** What the invariant says of the frames that have arrived. */
  lemma {:induction false} Arrived(s: Sys) returns (k: nat)
    requires LinkInStep(s)
    ensures k <= |s.sent| && s.server == Server.DispatchAll(Server.Start, s.sent[..k])
    ensures if k < |s.sent| then StrictPrefix(s.ring, Encode(s.sent[k])) else s.ring == []
  {
    assert s.received <= EncodeAll(s.sent);
    k := ParsePrefix(s.sent, s.received);
  }

  /** The server has dispatched a prefix of the frames sent, holds a strict prefix of
      the next one, and has booted a prefix of the images requested, each exactly as
      it was requested. */
  ghost predicate Safe(s: Sys) {
    && !s.server.exited
    && s.server.dispatched <= s.sent
    && s.server.boots <= s.files
    && var n := |s.server.dispatched|;
       if n < |s.sent| then StrictPrefix(s.ring, Encode(s.sent[n])) else s.ring == []
  }

  lemma {:induction false} InvIsSafe(s: Sys)
    requires Inv(s)
    ensures Safe(s)
  {
    var k := Arrived(s);
    KnownAllDispatched(Server.Start, s.sent[..k]);
    assert s.sent[..k] + s.sent[k..] == s.sent;
    Server.DispatchAppend(Server.Start, s.sent[..k], s.sent[k..]);
    BootsGrow(s.server, s.sent[k..]);
    assert [] + s.sent[..k] == s.sent[..k];
  }

  /** Safety, in every state of every run. */
  lemma {:induction false} Safety(es: seq<Step>)
    requires CanRun(Initial, es)
    ensures Safe(Run(Initial, es))
  {
    InitialInv();
    RunKeepsInv(Initial, es);
    InvIsSafe(Run(Initial, es));
  }

  /** Everything requested has been booted, once each, in order and unchanged;
      everything sent has been dispatched; nothing is left over. */
  ghost predicate Delivered(s: Sys) {
    && s.server.boots == s.files
    && s.server.dispatched == s.sent
    && s.server.payload == [] && s.ring == []
  }

  lemma {:induction false} QuietIsDelivered(s: Sys)
    requires Inv(s) && s.alive && NoFile(s.queue) && s.link == []
    ensures Delivered(s)
  {
    assert s.received + [] == s.received == EncodeAll(s.sent) == EncodeAll(s.sent) + [];
    ParseEncoded(s.sent, []);
    assert s.sent + [] == s.sent;
    KnownAllDispatched(Server.Start, s.sent);
    assert [] + s.sent == s.sent;
  }

  /** Delivery: in every run, once the client has no upload in progress and the
      pipe is empty, the server has booted exactly the images requested. */
  lemma {:induction false} Delivery(es: seq<Step>)
    requires CanRun(Initial, es)
    requires var s := Run(Initial, es); s.alive && NoFile(s.queue) && s.link == []
    ensures Delivered(Run(Initial, es))
  {
    InitialInv();
    RunKeepsInv(Initial, es);
    QuietIsDelivered(Run(Initial, es));
  }

  // ---- The receive ring never stalls ---------------------------------------

  /** The largest payload whose frame leaves a byte free in a full ring. */
  const MAX_PAYLOAD: nat := CAPACITY - HDR_SIZE

  lemma {:induction false} NoStall(fs: seq<Frame>, a: seq<byte>)
    requires AllFit(fs) && forall i :: 0 <= i < |fs| ==> |fs[i].data| <= MAX_PAYLOAD
    requires a <= EncodeAll(fs)
    ensures |Parse(a).rest| < CAPACITY
  {
    var k := ParsePrefix(fs, a);
  }

  /** However a stream of frames arrives, draining always leaves room in the ring
      for another byte exactly when no payload exceeds 16380 bytes. */
  lemma {:induction false} NoStallIff(fs: seq<Frame>)
    requires AllFit(fs)
    ensures (forall i :: 0 <= i < |fs| ==> |fs[i].data| <= MAX_PAYLOAD) <==>
            (forall a :: a <= EncodeAll(fs) ==> |Parse(a).rest| < CAPACITY)
  {
    if forall i :: 0 <= i < |fs| ==> |fs[i].data| <= MAX_PAYLOAD {
      forall a | a <= EncodeAll(fs) ensures |Parse(a).rest| < CAPACITY {
        NoStall(fs, a);
      }
    } else {
      var i :| 0 <= i < |fs| && |fs[i].data| > MAX_PAYLOAD;
      StallPoint(fs, i);
    }
  }

  /** Part-way through a larger frame the ring is full and still lacks its end. */
  lemma {:induction false} StallPoint(fs: seq<Frame>, i: nat)
    requires AllFit(fs) && i < |fs| && |fs[i].data| > MAX_PAYLOAD
    ensures exists a :: a <= EncodeAll(fs) && |Parse(a).rest| == CAPACITY
  {
    var before, head := EncodeAll(fs[..i]), Encode(fs[i])[..CAPACITY];
    assert fs == fs[..i] + ([fs[i]] + fs[i + 1..]);
    EncodeAllAppend(fs[..i], [fs[i]] + fs[i + 1..]);
    EncodeAllCons(fs[i], fs[i + 1..]);
    EncodeThenSplit(fs[i], []);
    assert Encode(fs[i]) + [] == Encode(fs[i]);
    assert LenField(head) == LenField(Encode(fs[i]));
    ParseEncoded(fs[..i], head);
    var a := before + head;
    assert EncodeAll(fs)[..|a|] == a;
  }

  /** In every state of every run with such frames, the server can read whenever
      something is in the pipe. */
  lemma {:induction false} ReadIsEnabled(es: seq<Step>)
    requires CanRun(Initial, es)
    requires var s := Run(Initial, es);
             s.link != [] && forall i :: 0 <= i < |s.sent| ==> |s.sent[i].data| <= MAX_PAYLOAD
    ensures Enabled(Run(Initial, es), Read(1))
  {
    InitialInv();
    RunKeepsInv(Initial, es);
    var s := Run(Initial, es);
    NoStall(s.sent, s.received);
  }

  // ---- Delivery stays possible ---------------------------------------------

  ghost predicate SmallFrames(s: Sys) {
    && (forall i :: 0 <= i < |s.sent| ==> |s.sent[i].data| <= MAX_PAYLOAD)
    && forall i :: 0 <= i < |s.queue| && s.queue[i].Send? ==> |s.queue[i].frame.data| <= MAX_PAYLOAD
  }

  function Weight(it: Item): nat {
    if it.File? && it.offset <= |it.data| then 2 + |it.data| - it.offset else 1
  }

  /** An upper bound on the turns the client still needs. */
  function TurnsLeft(q: seq<Item>): nat {
    if q == [] then 0 else Weight(q[0]) + TurnsLeft(q[1..])
  }

  lemma {:induction false} TurnsLeftAppend(a: seq<Item>, b: seq<Item>)
    ensures TurnsLeft(a + b) == TurnsLeft(a) + TurnsLeft(b)
  {
    if a == [] {
      assert a + b == b;
    } else {
      assert (a + b)[1..] == a[1..] + b;
      TurnsLeftAppend(a[1..], b);
    }
  }

  /** With room for a whole frame, a turn of the client succeeds and shortens
      the work left. */
  lemma {:induction false} RoomyTurn(s: Sys) returns (room: nat)
    requires Inv(s) && s.alive && s.queue != [] && SmallFrames(s)
    ensures Enabled(s, RunFirst(room))
    ensures var t := Next(s, RunFirst(room));
            t.alive && t.files == s.files && SmallFrames(t) && TurnsLeft(t.queue) < TurnsLeft(s.queue)
  {
    var f := FrameOf(s.queue[0]);
    room := HDR_SIZE + |f.data|;
    var o := RunItem(s.queue[0], room);
    var back := if o.requeued then [o.item] else [];
    TurnsLeftAppend(s.queue[1..], back);
    assert o.requeued ==> back[1..] == [];
  }

  /** No run gets stuck: from any reachable state in which the client is still
      there, some continuation empties its queue and delivers everything. */
  lemma {:induction false} CanFinish(s: Sys) returns (es: seq<Step>)
    requires Inv(s) && s.alive && SmallFrames(s)
    ensures CanRun(s, es) && Delivered(Run(s, es))
    ensures Run(s, es).files == s.files && Run(s, es).queue == []
    decreases TurnsLeft(s.queue), |s.link|
  {
    if s.link == [] && s.queue == [] {
      QuietIsDelivered(s);
      return [];
    }
    var e: Step;
    if s.link != [] {
      NoStall(s.sent, s.received);
      e := Read(1);
    } else {
      var room := RoomyTurn(s);
      e := RunFirst(room);
    }
    StepKeepsInv(s, e);
    var rest := CanFinish(Next(s, e));
    es := [e] + rest;
    assert es[1..] == rest;
  }

  // ---- A pass of the client is a sequence of steps -------------------------

  /** The turns that one pass of the work list takes. */
  function PassSteps(q: seq<Item>, room: nat): seq<Step>
    requires QueueOk(q)
    decreases 2 * |q| + (if q != [] && q[0].File? then 1 else 0)
  {
    if q == [] then []
    else
      var o := RunItem(q[0], room);
      RotateOk(q, room);
      if o.failed || |q| == 1 then [RunFirst(room)]
      else
        assert Rotate(q, o)[0] == q[1];
        [RunFirst(room)] + PassSteps(Rotate(q, o), room - |o.sent.wrote|)
  }

  /** A pass has on the queue and on the pipe the effect of its turns. */
  lemma {:induction false} PassIsRun(s: Sys, room: nat)
    requires QueueOk(s.queue) && CanRun(s, PassSteps(s.queue, room))
    ensures var p := Pass(s.queue, room);
            var t := Run(s, PassSteps(s.queue, room));
            && t.queue == p.queue && t.link == s.link + p.wrote && (s.alive ==> t.alive == !p.failed)
            && t.server == s.server && t.ring == s.ring && t.files == s.files && t.received == s.received
    decreases 2 * |s.queue| + (if s.queue != [] && s.queue[0].File? then 1 else 0)
  {
    if s.queue == [] {
      assert s.link + [] == s.link;
    } else {
      var q, o := s.queue, RunItem(s.queue[0], room);
      var t := Next(s, RunFirst(room));
      RotateOk(q, room);
      if o.failed || |q| == 1 {
        assert PassSteps(q, room)[1..] == [];
      } else {
        assert Rotate(q, o)[0] == q[1];
        assert PassSteps(q, room)[1..] == PassSteps(t.queue, room - |o.sent.wrote|);
        PassIsRun(t, room - |o.sent.wrote|);
        ConcatAssoc(s.link, o.sent.wrote, Pass(t.queue, room - |o.sent.wrote|).wrote);
      }
    }
  }

  // ---- A read of the server is a step --------------------------------------

  /** The client object is where the run is: its queue, and what it has written. */
  ghost predicate ClientMirrors(s: Sys, client: Client.Client)
    reads client, client.pipe
  {
    s.alive && s.queue == client.items && s.received + s.link == client.pipe.wire
  }

  /** The writable branch of the main loop performs the turns of its pass, as long as
      the room in the pipe tears no send. */
  method ClientPasses(s: Sys, client: Client.Client) returns (failed: bool, ghost es: seq<Step>)
    requires client.Valid() && QueueOk(client.items) && ClientMirrors(s, client)
    requires CanRun(s, PassSteps(s.queue, client.pipe.room))
    modifies client`items, client`ran, client.work_items`xs, client.work_items.nodes, client.pipe
    ensures client.Valid() && es == PassSteps(s.queue, old(client.pipe.room)) && CanRun(s, es)
    ensures failed == !Run(s, es).alive && (!failed ==> ClientMirrors(Run(s, es), client))
    ensures s.received + Run(s, es).link == client.pipe.wire && Run(s, es).queue == client.items
  {
    es := PassSteps(s.queue, client.pipe.room);
    PassIsRun(s, client.pipe.room);
    ConcatAssoc(s.received, s.link, Pass(s.queue, client.pipe.room).wrote);
    failed := client.WorkPass();
  }

  /** `request_*` is a request step, or the start of an upload. */
  method ClientAsks(s: Sys, client: Client.Client, node: Node<Item>) returns (ghost e: Step)
    requires client.Valid() && node in client.work_items.nodes && node != client.work_items.head
    requires node !in client.work_items.xs && node.entry.Some? && ClientMirrors(s, client)
    requires var it := node.entry.value; if it.File? then it.offset == 0 && NoFile(s.queue) else Other(it.frame)
    modifies client`items, client.work_items`xs, client.work_items.nodes`prev, client.work_items.nodes`next
    ensures client.Valid() && Enabled(s, e) && ClientMirrors(Next(s, e), client)
    ensures e == var it := old(node.entry.value); if it.File? then StartUpload(it.id, it.data) else Step.Request(it)
  {
    var it := node.entry.value;
    e := if it.File? then StartUpload(it.id, it.data) else Step.Request(it);
    client.Request(node);
  }

  /** The server and its pipe are in this state of a run. */
  ghost predicate Mirrors(s: Sys, server: Server.Server)
    requires server.Valid()
    reads server, server.recv_buf, server.recv_buf.buf, server.stdin
  {
    s.server == server.View() && s.ring == server.recv_buf.Contents() && s.link == server.stdin.stream
  }

  /** `handle_stdin` performs the step that reads the bytes it got: the runs speak of
      what the server does. It fails to only when the pipe has broken. */
  method ServerReads(s: Sys, server: Server.Server) returns (ret: int, ghost k: nat)
    requires server.Valid() && !server.exited && Mirrors(s, server)
    modifies server`fastboot_payload, server`boots, server`dispatched, server`exited
    modifies server.recv_buf`head, server.recv_buf`tail, server.recv_buf.buf, server.stdin
    modifies server.usb`log, server.usb`results, server.usb`replies
    ensures server.Valid() && Enabled(s, Read(k))
    ensures ret == -1 <==> server.stdin.calls != old(server.stdin.calls) && CircBuf.Broken(server.stdin.last)
    ensures ret == 0 || ret == -1
    ensures ret == 0 ==>
              var t := Next(s, Read(k));
              && t.server == server.View() && t.link == server.stdin.stream && (!server.exited ==> Mirrors(t, server))
              && server.usb.View() ==
                 Server.UsbAll(server.boot, s.server, old(server.usb.View()), Parse(s.ring + s.link[..k]).frames)
  {
    ghost var got;
    ret, got := server.HandleStdin();
    k := |got|;
    assert s.link[..k] == got && s.link[k..] == server.stdin.stream;
  }

  /** With everything delivered, what went over USB is a boot of each image requested, in
      order, and nothing else unless the board was told to continue: whatever the device
      does it has been offered the commands and the images and has taken prefixes of
      them, and one that takes everything and answers OKAY has them all. */
  lemma {:induction false} DeliveredOverUsb(es: seq<Step>, b: Fastboot.Boot, u: Fastboot.UsbState)
    requires CanRun(Initial, es)
    requires var s := Run(Initial, es);
             && s.alive && NoFile(s.queue) && s.link == []
             && forall i :: 0 <= i < |s.sent| ==> s.sent[i].kind != MSG_FASTBOOT_CONTINUE
    ensures var s := Run(Initial, es);
            var t := Server.UsbAll(b, Server.Start, u, s.server.dispatched);
            var parts := Booting.AllParts(b, s.files);
            && t == Fastboot.BootAll(b, s.files, u)
            && Booting.Offered(u, t, parts)
            && (Booting.Takes(u.results, |Booting.Cat(parts)|) &&
                Booting.Okays(u.replies, Booting.AllReplies(b, s.files)) ==>
                  Fastboot.Taken(t.log[|u.log|..]) == Booting.Cat(parts))
  {
    var s := Run(Initial, es);
    Delivery(es);
    InitialInv();
    RunKeepsInv(Initial, es);
    var k := Arrived(s);
    KnownAllDispatched(Server.Start, s.sent[..k]);
    assert [] + s.sent[..k] == s.sent[..k];
    Server.UsbIsBoots(b, Server.Start, u, s.sent[..k]);
    assert s.server.boots[0..] == s.server.boots;
    var parts := Booting.AllParts(b, s.files);
    Booting.AllOffered(b, s.files, u);
    if Booting.Takes(u.results, |Booting.Cat(parts)|) &&
       Booting.Okays(u.replies, Booting.AllReplies(b, s.files)) {
      Booting.AllSent(b, s.files, u, |Booting.Cat(parts)|, Booting.AllReplies(b, s.files));
    }
  }

  // ---- What the assumptions are for ----------------------------------------

  /** A send torn between header and payload and then retried: the server takes
      the retried header for payload. */
  lemma {:induction false} TornHeaderShifts(piece: seq<byte>, later: seq<byte>)
    requires 0 < |piece| < U16
    ensures var h := Header(MSG_FASTBOOT_DOWNLOAD, |piece|);
            var s := h + (Encode(Frame(MSG_FASTBOOT_DOWNLOAD, piece)) + later);
            Complete(s) && FirstFrame(s).data == (h + piece)[..|piece|]
  {
    var h := Header(MSG_FASTBOOT_DOWNLOAD, |piece|);
    var s := h + (Encode(Frame(MSG_FASTBOOT_DOWNLOAD, piece)) + later);
    EncodeThenSplit(Frame(MSG_FASTBOOT_DOWNLOAD, piece), []);
    assert Encode(Frame(MSG_FASTBOOT_DOWNLOAD, piece)) + [] == Encode(Frame(MSG_FASTBOOT_DOWNLOAD, piece));
    assert LenField(s) == |piece|;
    assert s[HDR_SIZE..] == (h + piece) + later;
    assert s[HDR_SIZE..HDR_SIZE + |piece|] == s[HDR_SIZE..][..|piece|];
  }
}
