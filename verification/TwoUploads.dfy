/** Two uploads at once: what the client then sends, what the server boots, and when a
    second upload may be started without harm to the first. */
module TwoUploads {
  import opened Bytes
  import opened Wire
  import opened WorkQueue
  import opened Transport
  import Server

  function Piece(data: seq<byte>): Frame {
    Frame(MSG_FASTBOOT_DOWNLOAD, data)
  }

  function Frames(ps: seq<seq<byte>>): seq<Frame> {
    if ps == [] then [] else [Piece(ps[0])] + Frames(ps[1..])
  }

  function Cat(ps: seq<seq<byte>>): seq<byte> {
    if ps == [] then [] else ps[0] + Cat(ps[1..])
  }

  /** None of the pieces is empty. */
  ghost predicate Pieces(ps: seq<seq<byte>>) {
    forall i :: 0 <= i < |ps| ==> ps[i] != []
  }

  /** The pieces of an upload, and the empty one that ends it. */
  function Ended(ps: seq<seq<byte>>): seq<seq<byte>> {
    ps + [[]]
  }

  /** By turns from each, and then what one of them has left. */
  function Alternate(a: seq<seq<byte>>, b: seq<seq<byte>>): seq<seq<byte>>
    decreases |a| + |b|
  {
    if a == [] then b else [a[0]] + Alternate(b, a[1..])
  }

  lemma {:induction false} AlternateNone(a: seq<seq<byte>>)
    ensures Alternate(a, []) == a
  {
    if a != [] {
      assert Alternate([], a[1..]) == a[1..];
    }
  }

  lemma {:induction false} EndedCons(a: seq<seq<byte>>)
    requires a != []
    ensures Ended(a) != [] && Ended(a)[0] == a[0] && Ended(a)[1..] == Ended(a[1..])
  {}

  /** What was sent of the two when the first of them ended, and what was left of the
      other. The turn is the first one's. */
  function Before(a: seq<seq<byte>>, b: seq<seq<byte>>): seq<seq<byte>>
    decreases |a| + |b|
  {
    if a == [] then [] else [a[0]] + Before(b, a[1..])
  }

  function Behind(a: seq<seq<byte>>, b: seq<seq<byte>>): seq<seq<byte>>
    decreases |a| + |b|
  {
    if a == [] then b else Behind(b, a[1..])
  }

  /** That is: the pieces by turns, as far as the shorter one goes, and the rest of the
      longer one. */
  lemma {:induction false} BeforeIs(a: seq<seq<byte>>, b: seq<seq<byte>>)
    ensures Before(a, b) == Alternate(a[..Min(|a|, |b| + 1)], b[..Min(|a|, |b|)])
    ensures Behind(a, b) == if |a| <= |b| then b[|a|..] else a[|b| + 1..]
    decreases |a| + |b|
  {
    if a != [] {
      var x, y := a[..Min(|a|, |b| + 1)], b[..Min(|a|, |b|)];
      BeforeIs(b, a[1..]);
      assert x[0] == a[0] && x[1..] == a[1..][..Min(|b|, |a| - 1)];
      assert y == b[..Min(|b|, |a[1..]| + 1)];
    }
  }

  // ---- What the server makes of them ---------------------------------------

  lemma {:induction false} DispatchCons(u: Server.Upload, p: seq<byte>, ps: seq<seq<byte>>, rest: seq<seq<byte>>)
    requires !u.exited && ps == [p] + rest
    ensures Server.DispatchAll(u, Frames(ps)) == Server.DispatchAll(Server.Dispatch(u, Piece(p)), Frames(rest))
  {
    assert ps[1..] == rest;
    assert Frames(ps)[1..] == Frames(rest);
  }

  /** One upload is booted behind what was there already. */
  lemma {:induction false} OneUpload(u: Server.Upload, a: seq<seq<byte>>)
    requires !u.exited && Pieces(a)
    ensures var t := Server.DispatchAll(u, Frames(Ended(a)));
            !t.exited && t.payload == [] && t.boots == u.boots + [u.payload + Cat(a)]
    decreases |a|
  {
    if a == [] {
      assert Ended(a) == [[]] + [];
      DispatchCons(u, [], Ended(a), []);
      assert u.payload + [] == u.payload;
    } else {
      EndedCons(a);
      assert Ended(a) == [a[0]] + Ended(a[1..]);
      DispatchCons(u, a[0], Ended(a), Ended(a[1..]));
      OneUpload(Server.Dispatch(u, Piece(a[0])), a[1..]);
      ConcatAssoc(u.payload, a[0], Cat(a[1..]));
    }
  }

  /** Of two uploads by turns the server boots a mixture, where the first of them ends,
      and the rest of the other as a second image. */
  lemma {:induction false} TwoUploadsMix(u: Server.Upload, a: seq<seq<byte>>, b: seq<seq<byte>>)
    requires !u.exited && Pieces(a) && Pieces(b)
    ensures var t := Server.DispatchAll(u, Frames(Alternate(Ended(a), Ended(b))));
            !t.exited && t.payload == [] && t.boots == u.boots + [u.payload + Cat(Before(a, b)), Cat(Behind(a, b))]
    decreases |a| + |b|
  {
    if a == [] {
      AlternateNone(Ended(b));
      var v := Server.Dispatch(u, Piece([]));
      DispatchCons(u, [], Alternate(Ended(a), Ended(b)), Ended(b));
      OneUpload(v, b);
      assert u.payload + [] == u.payload && [] + Cat(b) == Cat(b);
      assert u.boots + [u.payload] + [Cat(b)] == u.boots + [u.payload, Cat(b)];
    } else {
      EndedCons(a);
      DispatchCons(u, a[0], Alternate(Ended(a), Ended(b)), Alternate(Ended(b), Ended(a[1..])));
      TwoUploadsMix(Server.Dispatch(u, Piece(a[0])), b, a[1..]);
      ConcatAssoc(u.payload, a[0], Cat(Before(b, a[1..])));
    }
  }

  // ---- When a second upload does no harm -------------------------------------

  lemma {:induction false} PiecesGrow(u: Server.Upload, ps: seq<seq<byte>>, rest: seq<seq<byte>>)
    requires !u.exited && Pieces(ps)
    ensures var v := u.(payload := u.payload + Cat(ps), dispatched := u.dispatched + Frames(ps));
            Server.DispatchAll(u, Frames(ps + rest)) == Server.DispatchAll(v, Frames(rest))
    decreases |ps|
  {
    if ps == [] {
      assert ps + rest == rest && u.payload + [] == u.payload && u.dispatched + [] == u.dispatched;
    } else {
      assert ps + rest == [ps[0]] + (ps[1..] + rest);
      DispatchCons(u, ps[0], ps + rest, ps[1..] + rest);
      PiecesGrow(Server.Dispatch(u, Piece(ps[0])), ps[1..], rest);
      ConcatAssoc(u.payload, ps[0], Cat(ps[1..]));
      ConcatAssoc(u.dispatched, [Piece(ps[0])], Frames(ps[1..]));
    }
  }

  /** What is booted when the upload of `b` starts after `i` pieces of `a` were sent. */
  function Booted(a: seq<seq<byte>>, i: nat, b: seq<seq<byte>>): seq<seq<byte>>
    requires i <= |a|
  {
    Server.DispatchAll(Server.Start, Frames(a[..i] + Alternate(Ended(a[i..]), Ended(b)))).boots
  }

  lemma {:induction false} BootedIs(a: seq<seq<byte>>, i: nat, b: seq<seq<byte>>)
    requires i <= |a| && Pieces(a) && Pieces(b)
    ensures Booted(a, i, b) == [Cat(a[..i]) + Cat(Before(a[i..], b)), Cat(Behind(a[i..], b))]
  {
    var u := Server.Start.(payload := [] + Cat(a[..i]), dispatched := [] + Frames(a[..i]));
    PiecesGrow(Server.Start, a[..i], Alternate(Ended(a[i..]), Ended(b)));
    TwoUploadsMix(u, a[i..], b);
    assert [] + Cat(a[..i]) == Cat(a[..i]);
  }

  lemma {:induction false} CatAppend(a: seq<seq<byte>>, b: seq<seq<byte>>)
    ensures Cat(a + b) == Cat(a) + Cat(b)
    decreases |a|
  {
    if a == [] {
      assert a + b == b;
    } else {
      assert (a + b)[1..] == a[1..] + b;
      CatAppend(a[1..], b);
      ConcatAssoc(a[0], Cat(a[1..]), Cat(b));
    }
  }

  /** Pieces of the same lengths, whatever is in them. */
  ghost predicate SameShape(a: seq<seq<byte>>, b: seq<seq<byte>>) {
    |a| == |b| && forall k :: 0 <= k < |a| ==> |a[k]| == |b[k]|
  }

  /** Nothing is left of the first upload but its end, or only its last piece and the
      second is of an empty image. Late enough where every send is taken. */
  ghost predicate Late(a: seq<seq<byte>>, i: nat, b: seq<seq<byte>>) {
    i == |a| || (b == [] && i + 1 == |a|)
  }

  lemma {:induction false} LateIsHarmless(a: seq<seq<byte>>, i: nat, b: seq<seq<byte>>)
    requires i <= |a| && Pieces(a) && Pieces(b) && Late(a, i, b)
    ensures Booted(a, i, b) == [Cat(a), Cat(b)]
  {
    BootedIs(a, i, b);
    assert a[..i] + a[i..] == a;
    CatAppend(a[..i], a[i..]);
    if i < |a| {
      assert Before([], []) == [] && a[i..] == [a[i]] && |a[i..][1..]| == 0;
      assert Before(a[i..], b) == [a[i]] + Before(b, []);
      assert Behind(a[i..], b) == Behind(b, []) == [];
    }
  }

  /** The same lengths, filled with one byte. */
  function Fill(ps: seq<seq<byte>>, v: byte): (r: seq<seq<byte>>)
    ensures SameShape(ps, r) && forall k :: 0 <= k < |r| ==> AllAre(r[k], v)
  {
    seq(|ps|, k requires 0 <= k < |ps| => seq(|ps[k]|, _ => v))
  }

  ghost predicate AllAre(s: seq<byte>, v: byte) {
    forall i :: 0 <= i < |s| ==> s[i] == v
  }

  lemma {:induction false} CatAllAre(ps: seq<seq<byte>>, v: byte)
    requires forall k :: 0 <= k < |ps| ==> AllAre(ps[k], v)
    ensures AllAre(Cat(ps), v)
  {
    if ps != [] {
      assert AllAre(ps[0], v);
      CatAllAre(ps[1..], v);
    }
  }

  /** A piece of the second upload gets into the first image. */
  lemma {:induction false} MixedIn(a: seq<seq<byte>>, i: nat, b: seq<seq<byte>>)
    requires i < |a| && b != [] && Pieces(a) && Pieces(b)
    requires (forall k :: 0 <= k < |a| ==> AllAre(a[k], 0)) && forall k :: 0 <= k < |b| ==> AllAre(b[k], 1)
    ensures Booted(a, i, b) != [Cat(a), Cat(b)]
  {
    BootedIs(a, i, b);
    CatAllAre(a, 0);
    var rest := Before(a[i..][1..], b[1..]);
    assert Before(a[i..], b) == [a[i]] + Before(b, a[i..][1..]);
    assert Before(b, a[i..][1..]) == [b[0]] + rest;
    assert Cat(Before(a[i..], b)) == a[i] + (b[0] + Cat(rest)) by {
      CatTwo(a[i], b[0], rest);
    }
    var first, k := Cat(a[..i]) + (a[i] + (b[0] + Cat(rest))), |Cat(a[..i])| + |a[i]|;
    assert AllAre(b[0], 1);
    assert first[k] == b[0][0] == 1;
  }

  lemma {:induction false} CatTwo(x: seq<byte>, y: seq<byte>, rest: seq<seq<byte>>)
    ensures Cat([x] + ([y] + rest)) == x + (y + Cat(rest))
  {
    assert ([x] + ([y] + rest))[1..] == [y] + rest && ([y] + rest)[1..] == rest;
  }

  lemma {:induction false} CatOne(x: seq<byte>)
    ensures Cat([x]) == x
  {
    var one: seq<seq<byte>> := [x];
    assert one[1..] == [] && x + [] == x;
  }

  /** The end of the second upload, of an empty image, cuts the first image short. */
  lemma {:induction false} CutShort(a: seq<seq<byte>>, i: nat)
    requires i + 1 < |a| && Pieces(a)
    ensures Booted(a, i, []) != [Cat(a), []]
  {
    BootedIs(a, i, []);
    assert Before(a[i..], []) == [a[i]] + Before([], a[i..][1..]) == [a[i]];
    assert a == a[..i] + ([a[i]] + ([a[i + 1]] + a[i + 2..]));
    CatAppend(a[..i], [a[i]] + ([a[i + 1]] + a[i + 2..]));
    CatTwo(a[i], a[i + 1], a[i + 2..]);
    CatOne(a[i]);
  }

  /** Sent strictly by turns, as they are while the pipe takes everything, a second
      upload started after `i` pieces of the first one does no harm, whatever is in the
      images, exactly when it is that late. (`RefusedUploadIff` is about runs in which
      the pipe may refuse sends.) */
  lemma {:induction false} SecondUploadIff(a: seq<seq<byte>>, i: nat, b: seq<seq<byte>>)
    requires i <= |a| && Pieces(a) && Pieces(b)
    ensures (forall x, y :: SameShape(a, x) && SameShape(b, y) ==> Booted(x, i, y) == [Cat(x), Cat(y)]) <==>
            Late(a, i, b)
  {
    if Late(a, i, b) {
      forall x, y | SameShape(a, x) && SameShape(b, y)
        ensures Booted(x, i, y) == [Cat(x), Cat(y)]
      {
        LateIsHarmless(x, i, y);
      }
    } else if b == [] {
      CutShort(a, i);
      assert SameShape(a, a) && SameShape(b, b);
    } else {
      var x, y := Fill(a, 0), Fill(b, 1);
      MixedIn(x, i, y);
      assert SameShape(a, x) && SameShape(b, y);
    }
  }

  // ---- What the client sends -----------------------------------------------

  /** The pieces in which an image is sent. */
  function Chunks(data: seq<byte>): (ps: seq<seq<byte>>)
    decreases |data|
  {
    if data == [] then [] else [data[..Min(CHUNK, |data|)]] + Chunks(data[Min(CHUNK, |data|)..])
  }

  lemma {:induction false} ChunksOk(data: seq<byte>)
    ensures Pieces(Chunks(data)) && Cat(Chunks(data)) == data
    decreases |data|
  {
    if data != [] {
      var n := Min(CHUNK, |data|);
      ChunksOk(data[n..]);
      assert data[..n] + data[n..] == data;
    }
  }

  /** The pieces that an upload still has to send. */
  function Left(it: Item): seq<seq<byte>>
    requires it.File? && ItemOk(it)
  {
    Ended(Chunks(it.data[it.offset..]))
  }

  /** A turn of the client whose message the pipe takes. */
  ghost predicate Taken(s: Sys, e: Step) {
    e.RunFirst? && Enabled(s, e) && SendFrame(FrameOf(s.queue[0]), e.room).ok
  }

  ghost predicate AllTaken(s: Sys, es: seq<Step>)
    decreases |es|
  {
    es == [] || (Taken(s, es[0]) && AllTaken(Next(s, es[0]), es[1..]))
  }

  /** Any room for a whole piece will do. */
  lemma {:induction false} RoomIsTaken(s: Sys, room: nat)
    requires s.alive && s.queue != [] && s.queue[0].File? && ItemOk(s.queue[0]) && room >= HDR_SIZE + CHUNK
    ensures Taken(s, RunFirst(room))
  {}

  lemma {:induction false} UploadTurn(s: Sys, e: Step)
    requires Taken(s, e) && s.queue[0].File?
    ensures Next(s, e).alive
    ensures var it, t := s.queue[0], Next(s, e);
            var piece := it.data[it.offset..][..Min(CHUNK, |it.data| - it.offset)];
            && t.sent == s.sent + [Piece(piece)]
            && t.queue == s.queue[1..] + if piece == [] then [] else [it.(offset := it.offset + |piece|)]
  {
    var it := s.queue[0];
    var n := Min(CHUNK, |it.data| - it.offset);
    assert it.data[it.offset..it.offset + n] == it.data[it.offset..][..n];
  }

  /** With its piece gone, it has the others left. */
  lemma {:induction false} LeftCons(it: Item)
    requires it.File? && ItemOk(it)
    ensures var piece := it.data[it.offset..][..Min(CHUNK, |it.data| - it.offset)];
            && it.offset + |piece| <= |it.data| && Left(it) != [] && Left(it)[0] == piece
            && Left(it)[1..] == if piece == [] then [] else Left(it.(offset := it.offset + |piece|))
  {
    var rest := it.data[it.offset..];
    var n := Min(CHUNK, |rest|);
    if rest != [] {
      assert rest[n..] == it.data[it.offset + n..];
      EndedCons(Chunks(rest));
      assert Chunks(rest)[1..] == Chunks(rest[n..]);
    }
  }

  lemma {:induction false} FramesAppend(sent: seq<Frame>, p: seq<byte>, ps: seq<seq<byte>>, rest: seq<seq<byte>>)
    requires ps == [p] + rest
    ensures sent + [Piece(p)] + Frames(rest) == sent + Frames(ps)
  {
    assert ps[1..] == rest;
    ConcatAssoc(sent, [Piece(p)], Frames(rest));
  }

  /** One upload or two, or none. */
  ghost predicate Uploading(q: seq<Item>) {
    |q| <= 2 && forall i :: 0 <= i < |q| ==> q[i].File? && ItemOk(q[i])
  }

  /** What such a queue has to send: by turns, the first one's next. */
  function ToSend(q: seq<Item>): seq<seq<byte>>
    requires Uploading(q)
  {
    Alternate(if q == [] then [] else Left(q[0]), if |q| == 2 then Left(q[1]) else [])
  }

  /** The queue after a turn of its first upload. */
  function Turned(q: seq<Item>): seq<Item>
    requires Uploading(q) && q != []
  {
    var piece := Left(q[0])[0];
    q[1..] + if piece == [] then [] else [q[0].(offset := q[0].offset + |piece|)]
  }

  lemma {:induction false} AlternateTurn(a: seq<seq<byte>>, b: seq<seq<byte>>, rest: seq<seq<byte>>)
    requires a != [] && rest == a[1..]
    ensures Alternate(a, b) == [a[0]] + Alternate(b, rest)
    ensures b == [] ==> Alternate(b, rest) == Alternate(rest, b)
  {
    AlternateNone(rest);
  }

  /** What a queue sends, by what each of its uploads has left. */
  lemma {:induction false} ToSendIs(q: seq<Item>, a: seq<seq<byte>>, b: seq<seq<byte>>)
    requires Uploading(q) && a == (if q == [] then [] else Left(q[0])) && b == if |q| == 2 then Left(q[1]) else []
    ensures ToSend(q) == Alternate(a, b)
  {}

  lemma {:induction false} TurnedSends(q: seq<Item>)
    requires Uploading(q) && q != []
    ensures Uploading(Turned(q)) && ToSend(q) == [Left(q[0])[0]] + ToSend(Turned(q))
  {
    var a, b := Left(q[0]), if |q| == 2 then Left(q[1]) else [];
    var rest := a[1..];
    LeftCons(q[0]);
    AlternateTurn(a, b, rest);
    ToSendIs(q, a, b);
    if |q| == 2 {
      ToSendIs(Turned(q), b, rest);
    } else {
      ToSendIs(Turned(q), rest, b);
    }
  }

  /** A turn sends the next piece of that. */
  lemma {:induction false} ClientTurn(s: Sys, e: Step)
    requires Taken(s, e) && Uploading(s.queue)
    ensures var t := Next(s, e);
            t.alive && t.queue == Turned(s.queue) && t.sent == s.sent + [Piece(Left(s.queue[0])[0])]
  {
    UploadTurn(s, e);
    LeftCons(s.queue[0]);
  }

  /** In every run of turns that the pipe takes, a client with nothing but uploads queued,
      one or two of them, sends their pieces by turns: what it has sent and what it has
      left to send is always the same. */
  lemma {:induction false} ClientAlternates(s: Sys, es: seq<Step>)
    requires s.alive && Uploading(s.queue) && AllTaken(s, es)
    ensures CanRun(s, es)
    ensures var t := Run(s, es);
            && t.alive && Uploading(t.queue) && |t.sent| == |s.sent| + |es|
            && t.sent + Frames(ToSend(t.queue)) == s.sent + Frames(ToSend(s.queue))
    decreases |es|
  {
    if es != [] {
      ClientTurn(s, es[0]);
      TurnedSends(s.queue);
      FramesAppend(s.sent, Left(s.queue[0])[0], ToSend(s.queue), ToSend(Turned(s.queue)));
      ClientAlternates(Next(s, es[0]), es[1..]);
    }
  }

  /** Turns with room come to an end. */
  lemma {:induction false} ClientFinishes(s: Sys) returns (es: seq<Step>)
    requires s.alive && Uploading(s.queue)
    ensures AllTaken(s, es) && CanRun(s, es) && Run(s, es).queue == []
    decreases |ToSend(s.queue)|
  {
    if s.queue == [] {
      return [];
    }
    var e := RunFirst(HDR_SIZE + CHUNK);
    RoomIsTaken(s, e.room);
    ClientTurn(s, e);
    TurnedSends(s.queue);
    var later := ClientFinishes(Next(s, e));
    es := [e] + later;
    assert es[1..] == later;
  }

  /** A second upload queued while the first is under way: once every turn has been
      taken, and the server has read what was sent, it has booted the mixture and the
      rest. */
  lemma {:induction false} SecondUploadMixes(s: Sys, es: seq<Step>)
    requires s.alive && Uploading(s.queue) && |s.queue| == 2 && !Eventually(s).exited
    requires AllTaken(s, es) && CanRun(s, es) && Run(s, es).queue == []
    ensures var a, b := Chunks(s.queue[0].data[s.queue[0].offset..]), Chunks(s.queue[1].data[s.queue[1].offset..]);
            var u := Eventually(s);
            Eventually(Run(s, es)).boots == u.boots + [u.payload + Cat(Before(a, b)), Cat(Behind(a, b))]
  {
    var a, b := Chunks(s.queue[0].data[s.queue[0].offset..]), Chunks(s.queue[1].data[s.queue[1].offset..]);
    ClientAlternates(s, es);
    assert Run(s, es).sent + [] == Run(s, es).sent;
    Server.DispatchAppend(Server.Start, s.sent, Frames(ToSend(s.queue)));
    ChunksOk(s.queue[0].data[s.queue[0].offset..]);
    ChunksOk(s.queue[1].data[s.queue[1].offset..]);
    TwoUploadsMix(Eventually(s), a, b);
  }

  // ---- Whatever the pipe refuses -------------------------------------------

  /** A step that is no request: a turn of the client with any room, a message from the
      console, a read of the server. */
  predicate Goes(e: Step) {
    e.RunFirst? || e.Key? || e.Read?
  }

  ghost predicate AllGo(es: seq<Step>) {
    forall i :: 0 <= i < |es| ==> Goes(es[i])
  }

  /** Two uploads of which only the ends are left, the second of an empty image, or
      what is then left of them. */
  ghost predicate Ending(s: Sys, base: seq<seq<byte>>, image: seq<byte>) {
    var u, q := Eventually(s), s.queue;
    && Uploading(q) && (forall i :: 0 <= i < |q| ==> q[i].offset == |q[i].data|) && !u.exited
    && if |q| == 2 then u.boots == base && u.payload == image
       else u.payload == [] && u.boots == base + if |q| == 1 then [image] else [image, []]
  }

  lemma {:induction false} EndingTurn(s: Sys, base: seq<seq<byte>>, image: seq<byte>, room: nat)
    requires Ending(s, base, image) && Enabled(s, RunFirst(room))
    ensures Ending(Next(s, RunFirst(room)), base, image)
  {
    var f := FrameOf(s.queue[0]);
    assert f == Piece([]);
    DispatchOne(s, f);
    if room < HDR_SIZE {
      assert s.sent + [] == s.sent;
    } else {
      assert base + [image] + [[]] == base + [image, []];
    }
  }

  lemma {:induction false} EndingStep(s: Sys, base: seq<seq<byte>>, image: seq<byte>, e: Step)
    requires Ending(s, base, image) && Enabled(s, e) && Goes(e)
    ensures Ending(Next(s, e), base, image)
  {
    match e
    case RunFirst(room) => EndingTurn(s, base, image, room);
    case Key(f, room) => OtherKeepsUploads(s, f, room);
    case _ =>
  }

  lemma {:induction false} EndingRun(s: Sys, base: seq<seq<byte>>, image: seq<byte>, es: seq<Step>)
    requires Ending(s, base, image) && CanRun(s, es) && AllGo(es)
    ensures Ending(Run(s, es), base, image)
    decreases |es|
  {
    if es != [] {
      EndingStep(s, base, image, es[0]);
      EndingRun(Next(s, es[0]), base, image, es[1..]);
    }
  }

  lemma {:induction false} RunCons(s: Sys, e: Step, es: seq<Step>)
    requires Enabled(s, e) && CanRun(Next(s, e), es) && Goes(e) && AllGo(es)
    ensures CanRun(s, [e] + es) && Run(s, [e] + es) == Run(Next(s, e), es) && AllGo([e] + es)
  {
    assert ([e] + es)[1..] == es;
  }

  lemma {:induction false} RunAppend(s: Sys, a: seq<Step>, b: seq<Step>)
    requires CanRun(s, a) && CanRun(Run(s, a), b) && AllGo(a) && AllGo(b)
    ensures CanRun(s, a + b) && Run(s, a + b) == Run(Run(s, a), b) && AllGo(a + b)
    decreases |a|
  {
    if a == [] {
      assert a + b == b;
    } else {
      assert (a + b)[1..] == a[1..] + b;
      RunAppend(Next(s, a[0]), a[1..], b);
    }
  }

  lemma {:induction false} TakenGo(s: Sys, es: seq<Step>)
    requires AllTaken(s, es)
    ensures AllGo(es)
    decreases |es|
  {
    if es != [] {
      TakenGo(Next(s, es[0]), es[1..]);
    }
  }

  /** A refusal passes the turn to the other upload. */
  lemma {:induction false} Refuse(s: Sys)
    requires s.alive && Uploading(s.queue) && |s.queue| == 2
    ensures Enabled(s, RunFirst(0))
    ensures var t := Next(s, RunFirst(0)); t.alive && t.queue == [s.queue[1], s.queue[0]] && t.sent == s.sent
  {
    assert s.sent + [] == s.sent;
  }

  /** The pieces of the first upload alone, the other being refused in between. */
  lemma {:induction false} SendFirst(s: Sys) returns (es: seq<Step>)
    requires s.alive && Uploading(s.queue) && |s.queue| == 2
    ensures CanRun(s, es) && AllGo(es)
    ensures var it, t := s.queue[0], Run(s, es);
            && t.alive && t.queue == [it.(offset := |it.data|), s.queue[1]]
            && t.sent == s.sent + Frames(Chunks(it.data[it.offset..]))
    decreases |s.queue[0].data| - s.queue[0].offset
  {
    var it := s.queue[0];
    if it.offset == |it.data| {
      assert s.sent + [] == s.sent;
      return [];
    }
    var e := RunFirst(HDR_SIZE + CHUNK);
    RoomIsTaken(s, e.room);
    LeftCons(it);
    ClientTurn(s, e);
    var s1 := Next(s, e);
    Refuse(s1);
    var s2 := Next(s1, RunFirst(0));
    var later := SendFirst(s2);
    RunCons(s1, RunFirst(0), later);
    RunCons(s, e, [RunFirst(0)] + later);
    FirstChunk(it, s2.queue[0]);
    FramesAppend(s.sent, Left(it)[0], Chunks(it.data[it.offset..]), Chunks(s2.queue[0].data[s2.queue[0].offset..]));
    es := [e] + ([RunFirst(0)] + later);
  }

  lemma {:induction false} FirstChunk(it: Item, next: Item)
    requires it.File? && it.offset < |it.data|
    requires next == it.(offset := it.offset + Min(CHUNK, |it.data| - it.offset))
    ensures Left(it)[0] == it.data[it.offset..next.offset]
    ensures Chunks(it.data[it.offset..]) == [Left(it)[0]] + Chunks(next.data[next.offset..])
  {
    var rest := it.data[it.offset..];
    var n := Min(CHUNK, |rest|);
    assert rest[n..] == it.data[it.offset + n..] && rest[..n] == it.data[it.offset..it.offset + n];
  }

  lemma {:induction false} FramesCat(a: seq<seq<byte>>, b: seq<seq<byte>>)
    ensures Frames(a + b) == Frames(a) + Frames(b)
    decreases |a|
  {
    if a == [] {
      assert a + b == b;
    } else {
      assert (a + b)[1..] == a[1..] + b;
      FramesCat(a[1..], b);
      ConcatAssoc([Piece(a[0])], Frames(a[1..]), Frames(b));
    }
  }

  /** Some pieces, an end, and an upload behind it: two images. */
  lemma {:induction false} TwoImages(u: Server.Upload, ps: seq<seq<byte>>, x: seq<seq<byte>>)
    requires !u.exited && Pieces(ps) && Pieces(x)
    ensures Server.DispatchAll(u, Frames(ps + ([[]] + Ended(x)))).boots == u.boots + [u.payload + Cat(ps), Cat(x)]
  {
    var v := u.(payload := u.payload + Cat(ps), dispatched := u.dispatched + Frames(ps));
    PiecesGrow(u, ps, [[]] + Ended(x));
    DispatchCons(v, [], [[]] + Ended(x), Ended(x));
    OneUpload(Server.Dispatch(v, Piece([])), x);
    assert [] + Cat(x) == Cat(x);
  }

  /** The rest of one upload alone. */
  lemma {:induction false} FinishOne(s: Sys) returns (es: seq<Step>)
    requires s.alive && Uploading(s.queue) && |s.queue| == 1
    ensures CanRun(s, es) && AllGo(es)
    ensures var t := Run(s, es); t.queue == [] && t.sent == s.sent + Frames(Left(s.queue[0]))
  {
    es := ClientFinishes(s);
    ClientAlternates(s, es);
    TakenGo(s, es);
    AlternateNone(Left(s.queue[0]));
    assert Run(s, es).sent + [] == Run(s, es).sent;
  }

  /** A turn that is taken, as one step of a run. */
  lemma {:induction false} Take(s: Sys) returns (e: Step)
    requires s.alive && Uploading(s.queue) && s.queue != []
    ensures Enabled(s, e) && Goes(e)
    ensures var t := Next(s, e);
            t.alive && t.queue == Turned(s.queue) && t.sent == s.sent + [Piece(Left(s.queue[0])[0])]
  {
    e := RunFirst(HDR_SIZE + CHUNK);
    RoomIsTaken(s, e.room);
    ClientTurn(s, e);
  }

  /** The end of the second upload, of an empty image, in front of what is left of the
      first. */
  lemma {:induction false} CutRun(s: Sys) returns (es: seq<Step>)
    requires s.alive && Uploading(s.queue) && |s.queue| == 2 && s.queue[1].data == []
    ensures CanRun(s, es) && AllGo(es) && Run(s, es).queue == []
    ensures var rest := Chunks(s.queue[0].data[s.queue[0].offset..]);
            Run(s, es).sent == s.sent + Frames([] + ([[]] + Ended(rest)))
  {
    Refuse(s);
    var s1 := Next(s, RunFirst(0));
    var e := Take(s1);
    LeftCons(s1.queue[0]);
    var later := FinishOne(Next(s1, e));
    RunCons(s1, e, later);
    RunCons(s, RunFirst(0), [e] + later);
    es := [RunFirst(0)] + ([e] + later);
    FramesAppend(s.sent, [], [] + ([[]] + Left(s.queue[0])), Left(s.queue[0]));
  }

  /** A piece of the second upload between the last piece and the end of the first. */
  lemma {:induction false} MixRun(s: Sys) returns (es: seq<Step>, p: seq<byte>, x: seq<seq<byte>>)
    requires s.alive && Uploading(s.queue) && |s.queue| == 2 && s.queue[1].offset < |s.queue[1].data|
    ensures CanRun(s, es) && AllGo(es) && Run(s, es).queue == [] && p != [] && Pieces(x)
    ensures var ps := Chunks(s.queue[0].data[s.queue[0].offset..]) + [p];
            Run(s, es).sent == s.sent + Frames(ps + ([[]] + Ended(x)))
  {
    var es1 := SendFirst(s);
    var s1 := Run(s, es1);
    Refuse(s1);
    var s2 := Next(s1, RunFirst(0));
    var e2 := Take(s2);
    LeftCons(s2.queue[0]);
    p := Left(s2.queue[0])[0];
    var s3 := Next(s2, e2);
    var e3 := Take(s3);
    LeftCons(s3.queue[0]);
    var s4 := Next(s3, e3);
    var later := FinishOne(s4);
    x := Chunks(s4.queue[0].data[s4.queue[0].offset..]);
    ChunksOk(s4.queue[0].data[s4.queue[0].offset..]);
    RunCons(s3, e3, later);
    RunCons(s2, e2, [e3] + later);
    RunCons(s1, RunFirst(0), [e2] + ([e3] + later));
    es := es1 + ([RunFirst(0)] + ([e2] + ([e3] + later)));
    RunAppend(s, es1, [RunFirst(0)] + ([e2] + ([e3] + later)));
    MixSent(s.sent, Chunks(s.queue[0].data[s.queue[0].offset..]), p, Ended(x));
  }

  lemma {:induction false} MixSent(sent: seq<Frame>, a: seq<seq<byte>>, p: seq<byte>, rest: seq<seq<byte>>)
    ensures sent + Frames(a) + [Piece(p)] + [Piece([])] + Frames(rest) == sent + Frames(a + [p] + ([[]] + rest))
  {
    FramesCat(a + [p], [[]] + rest);
    FramesCat(a, [p]);
    assert Frames([p]) == [Piece(p)] by {
      assert ([p] + [])[1..] == [];
    }
    FramesAppend([], [], [[]] + rest, rest);
    assert [] + [Piece([])] + Frames(rest) == [Piece([])] + Frames(rest);
    assert [] + Frames([[]] + rest) == Frames([[]] + rest);
  }

  /** Otherwise some run cuts the first image short or makes it too long. */
  lemma {:induction false} HarmfulRun(s: Sys, first: seq<byte>, second: seq<byte>) returns (es: seq<Step>)
    requires s.alive && Uploading(s.queue) && |s.queue| == 2 && s.queue[1].offset == 0
    requires s.queue[0].data == first && s.queue[1].data == second
    requires !Eventually(s).exited && Eventually(s).payload == first[..s.queue[0].offset]
    requires s.queue[0].offset < |first| || second != []
    ensures CanRun(s, es) && AllGo(es) && Run(s, es).queue == []
    ensures Eventually(Run(s, es)).boots != Eventually(s).boots + [first, second]
  {
    var u, rest := Eventually(s), first[s.queue[0].offset..];
    var ps, x, p;
    ChunksOk(rest);
    if second == [] {
      es := CutRun(s);
      ps, x := [], Chunks(rest);
    } else {
      es, p, x := MixRun(s);
      ps := Chunks(rest) + [p];
      CatAppend(Chunks(rest), [p]);
      CatOne(p);
    }
    Server.DispatchAppend(Server.Start, s.sent, Frames(ps + ([[]] + Ended(x))));
    TwoImages(u, ps, x);
    assert |u.payload + Cat(ps)| != |first|;
    assert Eventually(Run(s, es)).boots[|u.boots|] == u.payload + Cat(ps);
    assert (u.boots + [first, second])[|u.boots|] == first;
  }

  /** A second upload queued behind a first does no harm in any run, whatever the pipe
      refuses, exactly when the first has only its end left to send and the image of the
      second is empty: only then does it not matter which goes first. */
  lemma {:induction false} RefusedUploadIff(s: Sys, first: seq<byte>, second: seq<byte>)
    requires s.alive && Uploading(s.queue) && |s.queue| == 2 && s.queue[1].offset == 0
    requires s.queue[0].data == first && s.queue[1].data == second
    requires !Eventually(s).exited && Eventually(s).payload == first[..s.queue[0].offset]
    ensures (forall es :: CanRun(s, es) && AllGo(es) && Run(s, es).queue == [] ==>
               Eventually(Run(s, es)).boots == Eventually(s).boots + [first, second]) <==>
            s.queue[0].offset == |first| && second == []
  {
    if s.queue[0].offset == |first| && second == [] {
      assert Ending(s, Eventually(s).boots, first);
      forall es | CanRun(s, es) && AllGo(es) && Run(s, es).queue == []
        ensures Eventually(Run(s, es)).boots == Eventually(s).boots + [first, second]
      {
        EndingRun(s, Eventually(s).boots, first, es);
      }
    } else {
      var es := HarmfulRun(s, first, second);
    }
  }
}
