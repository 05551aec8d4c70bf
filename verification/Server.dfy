/** The receiving half of `cdba-server.c`: draining whole frames out of the
    receive ring and rebuilding the image of an upload. */
module Server {
  import opened Bytes
  import opened Wire
  import opened CircBuf
  import opened Framing
  import Fastboot
  import Booting

  /** The messages `handle_stdin` has a case for; any other ends the server. */
  predicate Known(kind: byte) {
    MSG_SELECT_BOARD <= kind <= MSG_KEY_PRESS && kind != MSG_FASTBOOT_REBOOT
  }

  /** The upload state after some dispatched messages: the bytes accumulated so
      far, the images handed to `device_boot`, the messages dispatched, and
      whether an unknown message ended the process. */
  datatype Upload = Upload(payload: seq<byte>, boots: seq<seq<byte>>, dispatched: seq<Frame>, exited: bool)

  const Start := Upload([], [], [], false)

  function Dispatch(s: Upload, f: Frame): Upload {
    if !Known(f.kind) then s.(exited := true)
    else
      var t := s.(dispatched := s.dispatched + [f]);
      if f.kind != MSG_FASTBOOT_DOWNLOAD then t
      else if f.data == [] then t.(boots := s.boots + [s.payload], payload := [])
      else t.(payload := s.payload + f.data)
  }

  /** Dispatches frames in order until one ends the process. */
  function DispatchAll(s: Upload, fs: seq<Frame>): Upload
    decreases |fs|
  {
    if fs == [] || s.exited then s else DispatchAll(Dispatch(s, fs[0]), fs[1..])
  }

  /** The messages there is a case for, by their numbers in `cdba.h`. */
  lemma {:induction false} KnownIff(kind: byte)
    ensures Known(kind) <==> 1 <= kind <= 17 && kind != 12
  {}

  /** A message of kind 7 grows the image, or boots it if it is empty; any other leaves it
      alone. */
  lemma {:induction false} DispatchIs(s: Upload, f: Frame)
    requires 1 <= f.kind <= 17 && f.kind != 12
    ensures var t := Dispatch(s, f);
            && t.dispatched == s.dispatched + [f] && t.exited == s.exited
            && t.payload == (if f.kind != 7 then s.payload else if f.data == [] then [] else s.payload + f.data)
            && t.boots == s.boots + if f.kind == 7 && f.data == [] then [s.payload] else []
  {
    assert s.boots + [] == s.boots;
  }

  /** The server exits exactly when a message that it does not know has come. */
  lemma {:induction false} ExitedIff(s: Upload, fs: seq<Frame>)
    requires !s.exited
    ensures DispatchAll(s, fs).exited <==>
            exists i :: 0 <= i < |fs| && (fs[i].kind < 1 || fs[i].kind > 17 || fs[i].kind == 12)
    decreases |fs|
  {
    if fs != [] {
      KnownIff(fs[0].kind);
      if Known(fs[0].kind) {
        ExitedIff(Dispatch(s, fs[0]), fs[1..]);
        assert forall i :: 0 <= i < |fs| - 1 ==> fs[1..][i] == fs[i + 1];
        if i :| 0 < i < |fs| && (fs[i].kind < 1 || fs[i].kind > 17 || fs[i].kind == 12) {
          assert fs[1..][i - 1] == fs[i];
        }
      } else {
        assert fs[0].kind < 1 || fs[0].kind > 17 || fs[0].kind == 12;
      }
    }
  }

  lemma {:induction false} DispatchAppend(s: Upload, a: seq<Frame>, b: seq<Frame>)
    ensures DispatchAll(s, a + b) == DispatchAll(DispatchAll(s, a), b)
    decreases |a|
  {
    if a == [] {
      assert a + b == b;
    } else if !s.exited {
      assert (a + b)[1..] == a[1..] + b;
      DispatchAppend(Dispatch(s, a[0]), a[1..], b);
    }
  }

  /** What a message makes go over USB. */
  function UsbAfter(b: Fastboot.Boot, s: Upload, u: Fastboot.UsbState, f: Frame): Fastboot.UsbState {
    if f.kind == MSG_FASTBOOT_DOWNLOAD && f.data == [] then Fastboot.BootRun(b, s.payload, u)
    else if f.kind == MSG_FASTBOOT_CONTINUE then Fastboot.CommandRun("continue", u)
    else u
  }

  function UsbAll(b: Fastboot.Boot, s: Upload, u: Fastboot.UsbState, fs: seq<Frame>): Fastboot.UsbState
    decreases |fs|
  {
    if fs == [] || s.exited then u else UsbAll(b, Dispatch(s, fs[0]), UsbAfter(b, s, u, fs[0]), fs[1..])
  }

  /** What a message has to send over USB, in bytes: an empty piece of an upload boots the
      image, and message 16 has the bootloader continue. */
  function PartsOf(b: Fastboot.Boot, s: Upload, f: Frame): seq<seq<byte>> {
    if f.kind == 7 && f.data == [] then Booting.BootParts(b, s.payload)
    else if f.kind == 16 then [Fastboot.Ascii("continue")]
    else []
  }

  function UsbParts(b: Fastboot.Boot, s: Upload, fs: seq<Frame>): seq<seq<byte>>
    decreases |fs|
  {
    if fs == [] || s.exited then [] else PartsOf(b, s, fs[0]) + UsbParts(b, Dispatch(s, fs[0]), fs[1..])
  }

  lemma {:induction false} PartsOffered(b: Fastboot.Boot, s: Upload, u: Fastboot.UsbState, f: Frame)
    ensures Booting.Offered(u, UsbAfter(b, s, u, f), PartsOf(b, s, f))
  {
    if f.kind == 7 && f.data == [] {
      Booting.BootOffered(b, s.payload, u);
    } else if f.kind == 16 {
      Booting.CommandOffered("continue", u);
    } else {
      Booting.NothingOffered(u);
    }
  }

  /** Whatever the device does, the messages offer it these bytes, in order, and no others. */
  lemma {:induction false} UsbOffered(b: Fastboot.Boot, s: Upload, u: Fastboot.UsbState, fs: seq<Frame>)
    ensures Booting.Offered(u, UsbAll(b, s, u, fs), UsbParts(b, s, fs))
    decreases |fs|
  {
    if fs == [] || s.exited {
      Booting.NothingOffered(u);
    } else {
      var u' := UsbAfter(b, s, u, fs[0]);
      PartsOffered(b, s, u, fs[0]);
      UsbOffered(b, Dispatch(s, fs[0]), u', fs[1..]);
      Booting.OfferedThen(u, u', UsbAll(b, Dispatch(s, fs[0]), u', fs[1..]), PartsOf(b, s, fs[0]),
                          UsbParts(b, Dispatch(s, fs[0]), fs[1..]));
    }
  }

  /** Told to continue, a device that takes everything and answers OKAY has the command. */
  lemma {:induction false} ContinueSent(b: Fastboot.Boot, s: Upload, u: Fastboot.UsbState, f: Frame, n: int, m: int)
    requires f.kind == 16 && 8 <= n && Booting.Takes(u.results, n) && m > 0 && Booting.Okays(u.replies, m)
    ensures Booting.Sent(u, UsbAfter(b, s, u, f), [Fastboot.Ascii("continue")], n - 8, m - 1)
  {
    Booting.CommandSent("continue", Fastboot.Ascii("continue"), u, n, m);
  }

  /** What goes over USB depends on the messages alone, not on how they arrive. */
  lemma {:induction false} UsbAppend(b: Fastboot.Boot, s: Upload, u: Fastboot.UsbState, x: seq<Frame>, y: seq<Frame>)
    ensures UsbAll(b, s, u, x + y) == UsbAll(b, DispatchAll(s, x), UsbAll(b, s, u, x), y)
    decreases |x|
  {
    if x == [] {
      assert x + y == y;
    } else if !s.exited {
      assert (x + y)[1..] == x[1..] + y;
      UsbAppend(b, Dispatch(s, x[0]), UsbAfter(b, s, u, x[0]), x[1..], y);
    }
  }

  /** Each image booted was downloaded over USB, in order, and nothing else went over it
      unless the board was told to continue. */
  lemma {:induction false} UsbIsBoots(b: Fastboot.Boot, s: Upload, u: Fastboot.UsbState, fs: seq<Frame>)
    requires forall i :: 0 <= i < |fs| ==> fs[i].kind != MSG_FASTBOOT_CONTINUE
    ensures s.boots <= DispatchAll(s, fs).boots
    ensures UsbAll(b, s, u, fs) == Fastboot.BootAll(b, DispatchAll(s, fs).boots[|s.boots|..], u)
    decreases |fs|
  {
    if fs != [] && !s.exited {
      var t, u' := Dispatch(s, fs[0]), UsbAfter(b, s, u, fs[0]);
      UsbIsBoots(b, t, u', fs[1..]);
      var boots := DispatchAll(s, fs).boots;
      if t.boots != s.boots {
        assert boots[|s.boots|..][0] == s.payload && boots[|s.boots|..][1..] == boots[|t.boots|..];
      }
    }
  }

  class Server {
    const recv_buf: CircBuf
    const stdin: Fd
    const usb: Fastboot.Usb
    const boot: Fastboot.Boot
    var fastboot_payload: seq<byte>
    var exited: bool
    ghost var boots: seq<seq<byte>>
    ghost var dispatched: seq<Frame>

    ghost predicate Valid()
      reads this, recv_buf
    {
      recv_buf.Valid()
    }

    ghost function View(): Upload
      reads this
    {
      Upload(fastboot_payload, boots, dispatched, exited)
    }

    constructor (stdin: Fd, usb: Fastboot.Usb, boot: Fastboot.Boot)
      ensures Valid() && fresh(recv_buf) && fresh(recv_buf.buf)
      ensures this.stdin == stdin && this.usb == usb && this.boot == boot
      ensures View() == Start && recv_buf.Contents() == []
    {
      recv_buf := new CircBuf();
      this.stdin, this.usb, this.boot := stdin, usb, boot;
      fastboot_payload, exited, boots, dispatched := [], false, [], [];
    }

    /** `device_boot`: the image is sent over USB, then booted whatever came of it. */
    method DeviceBoot(image: seq<byte>)
      modifies this`boots, usb`log, usb`results, usb`replies
      ensures boots == old(boots) + [image]
      ensures usb.View() == Fastboot.BootRun(boot, image, old(usb.View()))
    {
      if boot.active.Some? {
        usb.Command("set_active:" + boot.active.value);
      }
      var _ := usb.Download(image);
      if boot.flash {
        usb.Command("flash:boot");
        usb.Command("reboot");
      } else {
        usb.Command("boot");
      }
      boots := boots + [image];
    }

    /** `msg_fastboot_download`: grows the image, and boots it on an empty piece. */
    method FastbootDownload(data: seq<byte>)
      modifies this`fastboot_payload, this`boots, usb`log, usb`results, usb`replies
      ensures data == [] ==> boots == old(boots) + [old(fastboot_payload)] && fastboot_payload == []
      ensures data == [] ==> usb.View() == Fastboot.BootRun(boot, old(fastboot_payload), old(usb.View()))
      ensures data != [] ==> boots == old(boots) && fastboot_payload == old(fastboot_payload) + data
      ensures data != [] ==> usb.View() == old(usb.View())
    {
      fastboot_payload := fastboot_payload + data;
      if |data| == 0 {
        assert fastboot_payload == old(fastboot_payload);
        DeviceBoot(fastboot_payload);
        fastboot_payload := [];
      }
    }

    /** The `switch` of `handle_stdin`; the handlers of the other messages act on
        the board and leave the upload state alone, and USB but for a continue. */
    method DispatchMessage(msg: Frame)
      requires !exited
      modifies this`fastboot_payload, this`boots, this`dispatched, this`exited, usb`log, usb`results, usb`replies
      ensures View() == Dispatch(old(View()), msg)
      ensures usb.View() == UsbAfter(boot, old(View()), old(usb.View()), msg)
    {
      if !Known(msg.kind) {
        exited := true;
        return;
      }
      dispatched := dispatched + [msg];
      if msg.kind == MSG_FASTBOOT_DOWNLOAD {
        FastbootDownload(msg.data);
      } else if msg.kind == MSG_FASTBOOT_CONTINUE {
        usb.Command("continue");
      }
    }

    /** The loop of `handle_stdin`: dispatches every whole frame in the ring. */
    method Drain()
      requires Valid() && !exited
      modifies this`fastboot_payload, this`boots, this`dispatched, this`exited
      modifies recv_buf`tail, usb`log, usb`results, usb`replies
      ensures Valid()
      ensures var c := old(recv_buf.Contents());
              && View() == DispatchAll(old(View()), Parse(c).frames)
              && usb.View() == UsbAll(boot, old(View()), old(usb.View()), Parse(c).frames)
              && (!exited ==> recv_buf.Contents() == Parse(c).rest)
    {
      ghost var c, s, u := recv_buf.Contents(), View(), usb.View();
      while true
        invariant Valid() && !exited
        invariant Parse(recv_buf.Contents()).rest == Parse(c).rest
        invariant DispatchAll(s, Parse(c).frames) == DispatchAll(View(), Parse(recv_buf.Contents()).frames)
        invariant UsbAll(boot, s, u, Parse(c).frames) ==
                  UsbAll(boot, View(), usb.View(), Parse(recv_buf.Contents()).frames)
        decreases recv_buf.Avail()
      {
        ghost var now, was, usbWas := recv_buf.Contents(), View(), usb.View();
        var msg := NextFrame(recv_buf);
        if msg.None? {
          return;
        }
        assert Parse(now).frames[0] == msg.value && Parse(now).frames[1..] == Parse(recv_buf.Contents()).frames;
        DispatchMessage(msg.value);
        assert View() == Dispatch(was, msg.value) && usb.View() == UsbAfter(boot, was, usbWas, msg.value);
        if exited {
          return;
        }
      }
    }

    /** `handle_stdin`: refills the ring, then dispatches every whole frame. Of
        the bytes received so far, exactly the frames they complete have been
        dispatched, in order, and the rest stays in the ring. It gives up, with
        nothing dispatched, exactly when a read found the end of the stream, or
        failed other than for want of data. */
    method HandleStdin() returns (ret: int, ghost got: seq<byte>)
      requires Valid() && !exited
      modifies this`fastboot_payload, this`boots, this`dispatched, this`exited
      modifies recv_buf`head, recv_buf`tail, recv_buf.buf, stdin, usb`log, usb`results, usb`replies
      ensures Valid()
      ensures old(stdin.stream) == got + stdin.stream
      ensures stdin.calls == old(stdin.calls) <==> old(recv_buf.Space()) == 0
      ensures |got| <= old(recv_buf.Space())
      ensures ret == if stdin.calls != old(stdin.calls) && Broken(stdin.last) then -1 else 0
      ensures var c := old(recv_buf.Contents()) + got;
              if ret == 0 then
                && View() == DispatchAll(old(View()), Parse(c).frames)
                && usb.View() == UsbAll(boot, old(View()), old(usb.View()), Parse(c).frames)
                && (!exited ==> recv_buf.Contents() == Parse(c).rest)
              else
                View() == old(View()) && usb.View() == old(usb.View()) && recv_buf.Contents() == c
    {
      var r, errno;
      r, errno, got := recv_buf.Fill(stdin);
      if r < 0 && errno != EAGAIN {
        return -1, got;
      }
      Drain();
      ret := 0;
    }
  }
}
