/** What `device_boot` comes to on the wire: the commands and the image, byte by byte. */
module Booting {
  import opened Bytes
  import opened CLib
  import opened Fastboot

  // ---- What a boot has to send ---------------------------------------------

  /** The command that activates a slot. */
  function SlotParts(b: Boot): seq<seq<byte>> {
    if b.active.Some? then [Ascii("set_active:" + b.active.value)] else []
  }

  /** The announcement of the image in eight hexadecimal digits, and the image. */
  function ImageParts(image: seq<byte>): seq<seq<byte>> {
    [Ascii("download:" + Hex(|image| % 0x1_0000_0000, 8)), image]
  }

  /** The commands behind the image. */
  function GoParts(b: Boot): seq<seq<byte>> {
    if b.flash then [Ascii("flash:boot"), Ascii("reboot")] else [Ascii("boot")]
  }

  function BootParts(b: Boot, image: seq<byte>): seq<seq<byte>> {
    (SlotParts(b) + ImageParts(image)) + GoParts(b)
  }

  function AllParts(b: Boot, images: seq<seq<byte>>): seq<seq<byte>> {
    if images == [] then [] else BootParts(b, images[0]) + AllParts(b, images[1..])
  }

  function Cat(parts: seq<seq<byte>>): seq<byte> {
    if parts == [] then [] else parts[0] + Cat(parts[1..])
  }

  lemma {:induction false} CatAppend(a: seq<seq<byte>>, b: seq<seq<byte>>)
    ensures Cat(a + b) == Cat(a) + Cat(b)
    decreases |a|
  {
    if a == [] {
      assert a + b == b;
    } else {
      assert (a + b)[1..] == a[1..] + b;
      CatAppend(a[1..], b);
      ConcatAssoc(a[0], Cat(a[1..]), Cat(b));
    }
  }

  lemma {:induction false} CatOne(part: seq<byte>)
    ensures Cat([part]) == part
  {
    var one: seq<seq<byte>> := [part];
    assert one[1..] == [] && part + [] == part;
  }

  /** How many replies a boot reads from a device that says nothing but OKAY. */
  function BootReplies(b: Boot): nat {
    |SlotParts(b)| + 2 + |GoParts(b)|
  }

  // ---- A device that takes everything --------------------------------------

  /** Each of the next `n` transfers takes something. */
  ghost predicate Takes(results: seq<int>, n: int) {
    n <= |results| && forall i :: 0 <= i < n ==> results[i] > 0
  }

  /** Each of the next `n` replies is OKAY. */
  ghost predicate Okays(replies: seq<Reply>, n: int) {
    n <= |replies| && forall i :: 0 <= i < n ==>
      replies[i].Text? && |replies[i].status| >= 4 && replies[i].status[..4] == "OKAY"
  }

  lemma {:induction false} WriteTaken(data: seq<byte>, results: seq<int>, n: int)
    requires data != [] && |data| <= n && Takes(results, n)
    ensures var w := WriteRun(data, results); w.ok && Takes(w.results, n - |data|)
    decreases |results|
  {
    var k := Min(results[0], Min(|data|, MAX_USBFS_BULK_SIZE));
    assert Takes(results[1..], n - 1);
    if k < |data| {
      WriteTaken(data[k..], results[1..], n - 1);
    }
  }

  lemma {:induction false} PiecesTaken(data: seq<byte>, results: seq<int>, n: int)
    requires |data| <= n && Takes(results, n)
    ensures var w := WritePieces(data, results); w.ok && Takes(w.results, n - |data|)
    decreases |data|
  {
    if data != [] {
      var k := Min(|data|, MAX_USBFS_BULK_SIZE);
      WriteTaken(data[..k], results, n);
      PiecesTaken(data[k..], WriteRun(data[..k], results).results, n - k);
    }
  }

  lemma {:induction false} OkayRead(replies: seq<Reply>, n: int)
    requires n > 0 && Okays(replies, n)
    ensures var r := ReadReply(replies); r.ret >= 0 && Okays(r.rest, n - 1)
  {
    assert Agrees(replies[0]) && YesAt(replies, 0);
    ReadOkIff(replies);
    assert replies[0 + 1..] == replies[1..];
  }

  /** `t` has sent exactly the parts behind `u`, and has this much left to take and say. */
  ghost predicate Sent(u: UsbState, t: UsbState, parts: seq<seq<byte>>, n: int, m: int) {
    && u.log <= t.log && Taken(t.log[|u.log|..]) == Cat(parts)
    && Takes(t.results, n) && Okays(t.replies, m)
  }

  lemma {:induction false} LogBehind(u: UsbState, t: UsbState, v: UsbState)
    requires u.log <= t.log <= v.log
    ensures u.log <= v.log && v.log[|u.log|..] == t.log[|u.log|..] + v.log[|t.log|..]
  {}

  lemma {:induction false} SentThen(u: UsbState, t: UsbState, v: UsbState, x: seq<seq<byte>>, y: seq<seq<byte>>,
                                    n: int, m: int, n': int, m': int)
    requires Sent(u, t, x, n, m) && Sent(t, v, y, n', m')
    ensures Sent(u, v, x + y, n', m')
  {
    LogBehind(u, t, v);
    TakenAppend(t.log[|u.log|..], v.log[|t.log|..]);
    CatAppend(x, y);
  }

  lemma {:induction false} NothingSent(u: UsbState, n: int, m: int)
    requires Takes(u.results, n) && Okays(u.replies, m)
    ensures Sent(u, u, [], n, m)
  {
    assert u.log[|u.log|..] == [];
  }

  lemma {:induction false} CommandSent(cmd: string, part: seq<byte>, u: UsbState, n: int, m: int)
    requires part == Ascii(cmd) && part != [] && |part| <= n && Takes(u.results, n) && m > 0 && Okays(u.replies, m)
    ensures Sent(u, CommandRun(cmd, u), [part], n - |part|, m - 1)
  {
    var w := WriteRun(part, u.results);
    WriteTaken(part, u.results, n);
    WriteRunTakes(part, u.results);
    OkayRead(u.replies, m);
    CatOne(part);
    assert (u.log + w.xs)[|u.log|..] == w.xs;
  }

  lemma {:induction false} SlotSent(b: Boot, u: UsbState, n: int, m: int)
    requires |Cat(SlotParts(b))| <= n && Takes(u.results, n) && |SlotParts(b)| <= m && Okays(u.replies, m)
    ensures Sent(u, SlotRun(b, u), SlotParts(b), n - |Cat(SlotParts(b))|, m - |SlotParts(b)|)
  {
    if b.active.Some? {
      var part := Ascii("set_active:" + b.active.value);
      CatOne(part);
      CommandSent("set_active:" + b.active.value, part, u, n, m);
    } else {
      NothingSent(u, n, m);
    }
  }

  lemma {:induction false} GoSent(b: Boot, u: UsbState, n: int, m: int)
    requires |Cat(GoParts(b))| <= n && Takes(u.results, n) && |GoParts(b)| <= m && Okays(u.replies, m)
    ensures Sent(u, GoRun(b, u), GoParts(b), n - |Cat(GoParts(b))|, m - |GoParts(b)|)
  {
    if b.flash {
      TwoSent("flash:boot", "reboot", u, n, m);
    } else {
      CatOne(Ascii("boot"));
      CommandSent("boot", Ascii("boot"), u, n, m);
    }
  }

  lemma {:induction false} TwoSent(first: string, second: string, u: UsbState, n: int, m: int)
    requires first != "" && second != "" && Takes(u.results, n) && 2 <= m && Okays(u.replies, m)
    requires |Cat([Ascii(first), Ascii(second)])| <= n
    ensures var t := CommandRun(second, CommandRun(first, u));
            Sent(u, t, [Ascii(first), Ascii(second)], n - |Cat([Ascii(first), Ascii(second)])|, m - 2)
  {
    var x, y := Ascii(first), Ascii(second);
    CatAppend([x], [y]);
    CatOne(x);
    CatOne(y);
    assert [x] + [y] == [x, y];
    CommandSent(first, x, u, n, m);
    CommandSent(second, y, CommandRun(first, u), n - |x|, m - 1);
    SentThen(u, CommandRun(first, u), CommandRun(second, CommandRun(first, u)), [x], [y],
             n - |x|, m - 1, n - |x| - |y|, m - 2);
  }

  lemma {:induction false} RunSent(cmd: seq<byte>, image: seq<byte>, results: seq<int>, n: int)
    requires cmd != [] && |cmd| + |image| <= n && Takes(results, n)
    ensures var c := WriteRun(cmd, results);
            var w := WritePieces(image, c.results);
            && w.ok && Takes(w.results, n - |cmd| - |image|)
            && Taken(c.xs + w.xs) == cmd + image
  {
    var c := WriteRun(cmd, results);
    var w := WritePieces(image, c.results);
    WriteTaken(cmd, results, n);
    WriteRunTakes(cmd, results);
    PiecesTaken(image, c.results, n - |cmd|);
    WritePiecesTakes(image, c.results);
    TakenAppend(c.xs, w.xs);
  }

  /** A download that is agreed to, by its two writes. */
  lemma {:induction false} DownloadRunIs(cmd: seq<byte>, image: seq<byte>, u: UsbState)
    requires cmd == Ascii(DownloadCommand(|image|)) && ReadReply(u.replies).ret >= 0
    requires WritePieces(image, WriteRun(cmd, u.results).results).ok
    ensures var c := WriteRun(cmd, u.results);
            var w := WritePieces(image, c.results);
            AfterDownload(image, u) ==
            UsbState(u.log + c.xs + w.xs, w.results, ReadReply(ReadReply(u.replies).rest).rest)
  {}

  lemma {:induction false} DownloadSent(cmd: seq<byte>, image: seq<byte>, u: UsbState, n: int, m: int)
    requires cmd == Ascii(DownloadCommand(|image|)) && cmd != []
    requires |cmd| + |image| <= n && Takes(u.results, n) && m >= 2 && Okays(u.replies, m)
    ensures Sent(u, AfterDownload(image, u), [cmd, image], n - |cmd| - |image|, m - 2)
  {
    var c := WriteRun(cmd, u.results);
    var w := WritePieces(image, c.results);
    OkayRead(u.replies, m);
    OkayRead(ReadReply(u.replies).rest, m - 1);
    RunSent(cmd, image, u.results, n);
    DownloadRunIs(cmd, image, u);
    ConcatAssoc(u.log, c.xs, w.xs);
    assert (u.log + (c.xs + w.xs))[|u.log|..] == c.xs + w.xs;
    TwoCat(cmd, image);
  }

  lemma {:induction false} TwoCat(x: seq<byte>, y: seq<byte>)
    ensures Cat([x, y]) == x + y
  {
    CatAppend([x], [y]);
    CatOne(x);
    CatOne(y);
    assert [x] + [y] == [x, y];
  }

  lemma {:induction false} ImageSent(image: seq<byte>, u: UsbState, n: int, m: int)
    requires |Cat(ImageParts(image))| <= n && Takes(u.results, n) && m >= 2 && Okays(u.replies, m)
    ensures Sent(u, AfterDownload(image, u), ImageParts(image), n - |Cat(ImageParts(image))|, m - 2)
  {
    var cmd := Ascii(DownloadCommand(|image|));
    CommandLength(|image|);
    TwoCat(cmd, image);
    DownloadSent(cmd, image, u, n, m);
  }

  lemma {:induction false} ThreeSent(u: UsbState, u1: UsbState, u2: UsbState, t: UsbState, x: seq<seq<byte>>,
                                     y: seq<seq<byte>>, z: seq<seq<byte>>, n: int, m: int, i: int, j: int, k: int)
    requires Sent(u, u1, x, n - |Cat(x)|, m - i) && Sent(u1, u2, y, n - |Cat(x)| - |Cat(y)|, m - i - j)
    requires Sent(u2, t, z, n - |Cat(x)| - |Cat(y)| - |Cat(z)|, m - i - j - k)
    ensures Sent(u, t, (x + y) + z, n - |Cat((x + y) + z)|, m - (i + j + k))
  {
    CatAppend(x, y);
    CatAppend(x + y, z);
    SentThen(u, u1, u2, x, y, n - |Cat(x)|, m - i, n - |Cat(x)| - |Cat(y)|, m - i - j);
    SentThen(u, u2, t, x + y, z, n - |Cat(x)| - |Cat(y)|, m - i - j,
             n - |Cat(x)| - |Cat(y)| - |Cat(z)|, m - i - j - k);
  }

  /** A device that takes something in each of as many transfers as there are bytes to
      send, and answers OKAY, is sent exactly the commands and the image, in order. */
  lemma {:induction false} BootSent(b: Boot, image: seq<byte>, u: UsbState, n: int, m: int)
    requires |Cat(BootParts(b, image))| <= n && Takes(u.results, n) && BootReplies(b) <= m && Okays(u.replies, m)
    ensures Sent(u, BootRun(b, image, u), BootParts(b, image), n - |Cat(BootParts(b, image))|, m - BootReplies(b))
  {
    var x, y, z := SlotParts(b), ImageParts(image), GoParts(b);
    CatAppend(x, y);
    CatAppend(x + y, z);
    var u1 := SlotRun(b, u);
    var u2 := AfterDownload(image, u1);
    SlotSent(b, u, n, m);
    ImageSent(image, u1, n - |Cat(x)|, m - |x|);
    GoSent(b, u2, n - |Cat(x)| - |Cat(y)|, m - |x| - 2);
    ThreeSent(u, u1, u2, GoRun(b, u2), x, y, z, n, m, |x|, 2, |z|);
  }

  function AllReplies(b: Boot, images: seq<seq<byte>>): nat {
    if images == [] then 0 else BootReplies(b) + AllReplies(b, images[1..])
  }

  lemma {:induction false} AllSent(b: Boot, images: seq<seq<byte>>, u: UsbState, n: int, m: int)
    requires |Cat(AllParts(b, images))| <= n && Takes(u.results, n)
    requires AllReplies(b, images) <= m && Okays(u.replies, m)
    ensures Sent(u, BootAll(b, images, u), AllParts(b, images), n - |Cat(AllParts(b, images))|,
                 m - AllReplies(b, images))
    decreases |images|
  {
    if images == [] {
      NothingSent(u, n, m);
    } else {
      var x, y, k := BootParts(b, images[0]), AllParts(b, images[1..]), AllReplies(b, images[1..]);
      var t := BootRun(b, images[0], u);
      CatAppend(x, y);
      BootSent(b, images[0], u, n, m);
      AllSent(b, images[1..], t, n - |Cat(x)|, m - BootReplies(b));
      SentThen(u, t, BootAll(b, images[1..], t), x, y, n - |Cat(x)|, m - BootReplies(b),
               n - |Cat(x)| - |Cat(y)|, m - BootReplies(b) - k);
    }
  }

  // ---- Any device ----------------------------------------------------------

  /** The transfers take a prefix of each part, one after the other. */
  ghost predicate Prefixes(parts: seq<seq<byte>>, xs: seq<Xfer>)
    decreases |parts|
  {
    if parts == [] then xs == []
    else exists n: nat :: n <= |xs| && Taken(xs[..n]) <= parts[0] && Prefixes(parts[1..], xs[n..])
  }

  lemma {:induction false} PrefixesCons(parts: seq<seq<byte>>, n: nat, xs: seq<Xfer>)
    requires parts != [] && n <= |xs| && Taken(xs[..n]) <= parts[0] && Prefixes(parts[1..], xs[n..])
    ensures Prefixes(parts, xs)
  {}

  lemma {:induction false} PrefixesFirst(parts: seq<seq<byte>>, xs: seq<Xfer>) returns (n: nat)
    requires parts != [] && Prefixes(parts, xs)
    ensures n <= |xs| && Taken(xs[..n]) <= parts[0] && Prefixes(parts[1..], xs[n..])
  {
    n :| n <= |xs| && Taken(xs[..n]) <= parts[0] && Prefixes(parts[1..], xs[n..]);
  }

  lemma {:induction false} CutAppend<T>(xs: seq<T>, ys: seq<T>, n: nat)
    requires n <= |xs|
    ensures (xs + ys)[..n] == xs[..n] && (xs + ys)[n..] == xs[n..] + ys
  {}

  lemma {:induction false} PrefixesAppend(a: seq<seq<byte>>, b: seq<seq<byte>>, xs: seq<Xfer>, ys: seq<Xfer>)
    requires Prefixes(a, xs) && Prefixes(b, ys)
    ensures Prefixes(a + b, xs + ys)
    decreases |a|
  {
    if a == [] {
      assert a + b == b && xs + ys == ys;
    } else {
      var n := PrefixesFirst(a, xs);
      PrefixesAppend(a[1..], b, xs[n..], ys);
      CutAppend(a, b, 1);
      CutAppend(xs, ys, n);
      PrefixesCons(a + b, n, xs + ys);
    }
  }

  lemma {:induction false} PrefixOne(part: seq<byte>, xs: seq<Xfer>)
    requires Taken(xs) <= part
    ensures Prefixes([part], xs)
  {
    var one: seq<seq<byte>> := [part];
    assert one[1..] == [] && xs[..|xs|] == xs && xs[|xs|..] == [];
    assert Prefixes(one[1..], xs[|xs|..]);
  }

  /** `t` has been offered no more than the parts behind `u`, and taken prefixes of them. */
  ghost predicate Offered(u: UsbState, t: UsbState, parts: seq<seq<byte>>) {
    u.log <= t.log && Prefixes(parts, t.log[|u.log|..])
  }

  lemma {:induction false} OfferedThen(u: UsbState, t: UsbState, v: UsbState, x: seq<seq<byte>>, y: seq<seq<byte>>)
    requires Offered(u, t, x) && Offered(t, v, y)
    ensures Offered(u, v, x + y)
  {
    LogBehind(u, t, v);
    PrefixesAppend(x, y, t.log[|u.log|..], v.log[|t.log|..]);
  }

  lemma {:induction false} CommandOffered(cmd: string, u: UsbState)
    ensures Offered(u, CommandRun(cmd, u), [Ascii(cmd)])
  {
    var w := WriteRun(Ascii(cmd), u.results);
    WriteRunTakes(Ascii(cmd), u.results);
    PrefixOne(Ascii(cmd), w.xs);
    assert (u.log + w.xs)[|u.log|..] == w.xs;
  }

  lemma {:induction false} NothingOffered(u: UsbState)
    ensures Offered(u, u, [])
  {
    assert u.log[|u.log|..] == [];
  }

  lemma {:induction false} TwoPrefixes(x: seq<byte>, y: seq<byte>, xs: seq<Xfer>, ys: seq<Xfer>)
    requires Taken(xs) <= x && Taken(ys) <= y
    ensures Prefixes([x, y], xs + ys)
  {
    PrefixOne(x, xs);
    PrefixOne(y, ys);
    PrefixesAppend([x], [y], xs, ys);
    assert [x] + [y] == [x, y];
  }

  lemma {:induction false} LogIs(u: UsbState, t: UsbState, xs: seq<Xfer>, ys: seq<Xfer>, parts: seq<seq<byte>>)
    requires t.log == u.log + xs + ys && Prefixes(parts, xs + ys)
    ensures Offered(u, t, parts)
  {
    ConcatAssoc(u.log, xs, ys);
    assert (u.log + (xs + ys))[|u.log|..] == xs + ys;
  }

  lemma {:induction false} DownloadOffered(cmd: seq<byte>, image: seq<byte>, u: UsbState, r: Fastboot.Run)
    requires cmd == Ascii(DownloadCommand(|image|)) && r == DownloadRun(image, u.results, u.replies)
    ensures Taken(r.cmd) <= cmd && Taken(r.image) <= image
  {
    AnnouncedIff(image, u.results, u.replies);
    DownloadIff(image, u.results, u.replies);
  }

  lemma {:induction false} ImageOffered(image: seq<byte>, u: UsbState)
    ensures Offered(u, AfterDownload(image, u), ImageParts(image))
  {
    var cmd, r := Ascii(DownloadCommand(|image|)), DownloadRun(image, u.results, u.replies);
    DownloadOffered(cmd, image, u, r);
    TwoPrefixes(cmd, image, r.cmd, r.image);
    LogIs(u, AfterDownload(image, u), r.cmd, r.image, [cmd, image]);
  }

  lemma {:induction false} SlotOffered(b: Boot, u: UsbState)
    ensures Offered(u, SlotRun(b, u), SlotParts(b))
  {
    if b.active.Some? {
      CommandOffered("set_active:" + b.active.value, u);
    } else {
      NothingOffered(u);
    }
  }

  lemma {:induction false} GoOffered(b: Boot, u: UsbState)
    ensures Offered(u, GoRun(b, u), GoParts(b))
  {
    if b.flash {
      TwoOffered("flash:boot", "reboot", u);
    } else {
      CommandOffered("boot", u);
    }
  }

  lemma {:induction false} TwoOffered(first: string, second: string, u: UsbState)
    ensures Offered(u, CommandRun(second, CommandRun(first, u)), [Ascii(first), Ascii(second)])
  {
    var t := CommandRun(first, u);
    CommandOffered(first, u);
    CommandOffered(second, t);
    OfferedThen(u, t, CommandRun(second, t), [Ascii(first)], [Ascii(second)]);
    assert [Ascii(first)] + [Ascii(second)] == [Ascii(first), Ascii(second)];
  }

  /** Whatever the device takes, refuses and says, it is offered nothing but the commands
      and the image, in order. */
  lemma {:induction false} BootOffered(b: Boot, image: seq<byte>, u: UsbState)
    ensures Offered(u, BootRun(b, image, u), BootParts(b, image))
  {
    var u1 := SlotRun(b, u);
    var u2 := AfterDownload(image, u1);
    SlotOffered(b, u);
    ImageOffered(image, u1);
    GoOffered(b, u2);
    OfferedThen(u, u1, u2, SlotParts(b), ImageParts(image));
    OfferedThen(u, u2, GoRun(b, u2), SlotParts(b) + ImageParts(image), GoParts(b));
  }

  lemma {:induction false} AllOffered(b: Boot, images: seq<seq<byte>>, u: UsbState)
    ensures Offered(u, BootAll(b, images, u), AllParts(b, images))
    decreases |images|
  {
    if images == [] {
      NothingOffered(u);
    } else {
      var t := BootRun(b, images[0], u);
      BootOffered(b, images[0], u);
      AllOffered(b, images[1..], t);
      OfferedThen(u, t, BootAll(b, images[1..], t), BootParts(b, images[0]), AllParts(b, images[1..]));
    }
  }
}
