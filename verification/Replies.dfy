/** The receiving half of `cdba.c`: what the client does with the server's messages. */
module Replies {
  import opened Bytes
  import opened Wire
  import opened CircBuf
  import opened Framing

  const TILDE: byte := 126
  const NEWLINE: byte := 10
  const MARKER: nat := 20

  // ---- The power-off marker ------------------------------------------------

  /** `power_off_chars` and `received_power_off`. */
  datatype Marker = Marker(chars: nat, seen: bool)

  function Next(m: Marker, c: byte): Marker {
    if c != TILDE then m.(chars := 0)
    else if m.chars == MARKER - 1 then Marker(0, true)
    else m.(chars := m.chars + 1)
  }

  function Feed(m: Marker, text: seq<byte>): Marker {
    if text == [] then m else Next(Feed(m, text[..|text| - 1]), text[|text| - 1])
  }

  lemma {:induction false} FeedAppend(m: Marker, a: seq<byte>, b: seq<byte>)
    ensures Feed(m, a + b) == Feed(Feed(m, a), b)
    decreases |b|
  {
    if b == [] {
      assert a + b == a;
    } else {
      assert (a + b)[..|a + b| - 1] == a + b[..|b| - 1];
      FeedAppend(m, a, b[..|b| - 1]);
    }
  }

  /** A whole marker ends at `end`. */
  ghost predicate MarkerAt(text: seq<byte>, end: nat) {
    20 <= end <= |text| && forall j :: end - 20 <= j < end ==> text[j] == 126
  }

  ghost predicate HasMarker(text: seq<byte>) {
    exists end: nat :: MarkerAt(text, end)
  }

  /** The `n` last characters are all the tildes that the text ends with. */
  ghost predicate Trailing(text: seq<byte>, n: nat) {
    && n <= |text| && (forall j :: |text| - n <= j < |text| ==> text[j] == TILDE)
    && (n < |text| ==> text[|text| - n - 1] != TILDE)
  }

  /** The client has seen the marker exactly when twenty tildes in a row have gone by,
      however the console text was cut into messages. */
  lemma {:induction false} MarkerSeenIff(text: seq<byte>)
    ensures Feed(Marker(0, false), text).seen <==> HasMarker(text)
    ensures !HasMarker(text) ==> Trailing(text, Feed(Marker(0, false), text).chars)
    ensures Feed(Marker(0, false), text).chars < MARKER
    decreases |text|
  {
    if text != [] {
      var before, c := text[..|text| - 1], text[|text| - 1];
      MarkerSeenIff(before);
      var m := Feed(Marker(0, false), before);
      if HasMarker(before) {
        var end: nat :| MarkerAt(before, end);
        assert MarkerAt(text, end);
      } else if c == TILDE && m.chars == MARKER - 1 {
        assert MarkerAt(text, |text|);
      } else {
        var last := |before| - m.chars - 1;
        assert last >= 0 ==> text[last] == before[last] != TILDE;
        forall end: nat | MarkerAt(text, end)
          ensures MarkerAt(before, end)
        {}
      }
    }
  }

  // ---- One message ---------------------------------------------------------

  /** A work item that a handler queues. */
  datatype Ask = PowerOn | Continue | Upload

  /** The command line, and what the main loop sets between messages. */
  datatype Options = Options(repeat: bool, autoPowerOn: bool, powerCycles: int, statusPipe: bool)

  datatype State = State(quit: bool, done: bool, continueFirst: bool, marker: Marker,
                         asked: seq<Ask>, shown: seq<byte>, status: seq<byte>, stopped: bool)

  /** The server always sends the presence of fastboot as one byte; the client reads
      that byte without looking at the length. */
  predicate FrameOk(f: Frame) {
    f.kind == MSG_FASTBOOT_PRESENT ==> f.data != []
  }

  ghost predicate WellSent(fs: seq<Frame>) {
    forall i :: 0 <= i < |fs| ==> FrameOk(fs[i])
  }

  /** `switch` of `handle_message`. */
  function Handle(o: Options, s: State, f: Frame): State
    requires FrameOk(f)
  {
    if f.kind == MSG_SELECT_BOARD then s.(asked := s.asked + [PowerOn])
    else if f.kind == MSG_CONSOLE then
      s.(marker := if o.powerCycles >= 0 then Feed(s.marker, f.data) else s.marker, shown := s.shown + f.data)
    else if f.kind == MSG_POWER_OFF then (if o.autoPowerOn then s.(asked := s.asked + [PowerOn]) else s)
    else if f.kind == MSG_FASTBOOT_PRESENT then
      if f.data[0] == 0 then s
      else if s.continueFirst then s.(asked := s.asked + [Continue], continueFirst := false)
      else if !s.done || o.repeat then s.(asked := s.asked + [Upload])
      else s.(quit := true)
    else if f.kind == MSG_FASTBOOT_DOWNLOAD || f.kind == MSG_FASTBOOT_CONTINUE then s.(done := true)
    else if f.kind == MSG_STATUS_UPDATE then (if o.statusPipe then s.(status := s.status + f.data) else s)
    else if f.kind == MSG_LIST_DEVICES then
      (if f.data == [] then s.(quit := true) else s.(shown := s.shown + (f.data + [NEWLINE])))
    else if f.kind == MSG_BOARD_INFO then
      s.(shown := s.shown + (f.data + [NEWLINE]), quit := true, stopped := true)
    else if f.kind == MSG_HARDRESET || f.kind == MSG_POWER_ON || f.kind == MSG_FASTBOOT_BOOT then s
    else s.(stopped := true)
  }

  /** Handles messages in order until one stops the client. */
  function HandleAll(o: Options, s: State, fs: seq<Frame>): State
    requires WellSent(fs)
    decreases |fs|
  {
    if fs == [] || s.stopped then s else HandleAll(o, Handle(o, s, fs[0]), fs[1..])
  }

  lemma {:induction false} HandleAppend(o: Options, s: State, a: seq<Frame>, b: seq<Frame>)
    requires WellSent(a) && WellSent(b)
    ensures WellSent(a + b) && HandleAll(o, s, a + b) == HandleAll(o, HandleAll(o, s, a), b)
    decreases |a|
  {
    if a == [] {
      assert a + b == b;
    } else if !s.stopped {
      assert (a + b)[1..] == a[1..] + b;
      HandleAppend(o, Handle(o, s, a[0]), a[1..], b);
    }
  }

  /** It does not matter where the stream is cut between two drains. */
  lemma {:induction false} RepliesChunked(o: Options, s: State, a: seq<byte>, b: seq<byte>)
    requires WellSent(Parse(a).frames) && WellSent(Parse(Parse(a).rest + b).frames)
    ensures WellSent(Parse(a + b).frames)
    ensures HandleAll(o, s, Parse(a + b).frames) ==
            HandleAll(o, HandleAll(o, s, Parse(a).frames), Parse(Parse(a).rest + b).frames)
  {
    ParseChunked(a, b);
    HandleAppend(o, s, Parse(a).frames, Parse(Parse(a).rest + b).frames);
  }

  // ---- What a run of messages comes to -------------------------------------

  /** A message that the client goes on after. */
  predicate GoesOn(f: Frame) {
    f.kind in {MSG_SELECT_BOARD, MSG_CONSOLE, MSG_HARDRESET, MSG_POWER_ON, MSG_POWER_OFF, MSG_FASTBOOT_PRESENT,
               MSG_FASTBOOT_DOWNLOAD, MSG_FASTBOOT_BOOT, MSG_STATUS_UPDATE, MSG_LIST_DEVICES, MSG_FASTBOOT_CONTINUE}
  }

  /** The messages that are handled: up to the first that stops the client, and that one. */
  function Heard(fs: seq<Frame>): seq<Frame> {
    if fs == [] then [] else [fs[0]] + if GoesOn(fs[0]) then Heard(fs[1..]) else []
  }

  lemma {:induction false} HeardRest(fs: seq<Frame>)
    requires fs != []
    ensures Heard(fs) != [] && Heard(fs)[0] == fs[0]
    ensures Heard(fs)[1..] == if GoesOn(fs[0]) then Heard(fs[1..]) else []
  {}

  /** A message stops the client exactly unless the client goes on after it. */
  lemma {:induction false} StopsIff(o: Options, s: State, f: Frame)
    requires FrameOk(f) && !s.stopped
    ensures Handle(o, s, f).stopped <==> !GoesOn(f)
  {}

  /** Those messages are the first ones, and the others have no effect. */
  lemma {:induction false} OnlyHeard(o: Options, s: State, fs: seq<Frame>)
    requires WellSent(fs) && !s.stopped
    ensures Heard(fs) <= fs && HandleAll(o, s, fs) == HandleAll(o, s, Heard(fs))
    ensures forall i :: 0 <= i < |Heard(fs)| - 1 ==> GoesOn(fs[i])
    ensures |Heard(fs)| < |fs| ==> Heard(fs) != [] && !GoesOn(fs[|Heard(fs)| - 1])
    decreases |fs|
  {
    if fs != [] {
      HeardRest(fs);
      StopsIff(o, s, fs[0]);
      if GoesOn(fs[0]) {
        OnlyHeard(o, Handle(o, s, fs[0]), fs[1..]);
      }
    }
  }

  /** What a message brings from the console. */
  function Console(f: Frame): seq<byte> {
    if f.kind == MSG_CONSOLE then f.data else []
  }

  /** The text of the console messages. */
  function ConsoleText(fs: seq<Frame>): seq<byte> {
    if fs == [] then [] else Console(fs[0]) + ConsoleText(fs[1..])
  }

  lemma {:induction false} MarkerStep(o: Options, s: State, f: Frame)
    requires FrameOk(f) && o.powerCycles >= 0
    ensures Handle(o, s, f).marker == Feed(s.marker, Console(f))
  {}

  /** Otherwise it is not looked for. */
  lemma {:induction false} MarkerIgnored(o: Options, s: State, fs: seq<Frame>)
    requires WellSent(fs) && o.powerCycles < 0
    ensures HandleAll(o, s, fs).marker == s.marker
    decreases |fs|
  {
    if fs != [] && !s.stopped {
      MarkerIgnored(o, Handle(o, s, fs[0]), fs[1..]);
    }
  }

  /** Under power cycling, the marker is looked for in all the console text. */
  lemma {:induction false} MarkerAcrossMessages(o: Options, s: State, fs: seq<Frame>)
    requires WellSent(fs) && !s.stopped && o.powerCycles >= 0
    ensures HandleAll(o, s, fs).marker == Feed(s.marker, ConsoleText(Heard(fs)))
    decreases |fs|
  {
    if fs != [] {
      HeardRest(fs);
      StopsIff(o, s, fs[0]);
      MarkerStep(o, s, fs[0]);
      if GoesOn(fs[0]) {
        MarkerAcrossMessages(o, Handle(o, s, fs[0]), fs[1..]);
        FeedAppend(s.marker, Console(fs[0]), ConsoleText(Heard(fs[1..])));
      }
    }
  }

  function Uploads(asked: seq<Ask>): nat {
    if asked == [] then 0 else Uploads(asked[..|asked| - 1]) + if asked[|asked| - 1] == Upload then 1 else 0
  }

  predicate Present(f: Frame) {
    f.kind == MSG_FASTBOOT_PRESENT && f.data != [] && f.data[0] != 0
  }

  predicate Acknowledges(f: Frame) {
    f.kind == MSG_FASTBOOT_DOWNLOAD || f.kind == MSG_FASTBOOT_CONTINUE
  }

  /** How often fastboot appears before anything is acknowledged. */
  function PresentsBefore(fs: seq<Frame>): nat {
    if fs == [] || Acknowledges(fs[0]) then 0 else PresentsBefore(fs[1..]) + if Present(fs[0]) then 1 else 0
  }

  function Presents(fs: seq<Frame>): nat {
    if fs == [] then 0 else Presents(fs[1..]) + if Present(fs[0]) then 1 else 0
  }

  /** How often fastboot appears when an upload could follow. */
  function Chances(o: Options, done: bool, fs: seq<Frame>): nat {
    if o.repeat then Presents(fs) else if done then 0 else PresentsBefore(fs)
  }

  lemma {:induction false} UploadsSnoc(asked: seq<Ask>, x: Ask)
    ensures Uploads(asked + [x]) == Uploads(asked) + if x == Upload then 1 else 0
  {
    assert (asked + [x])[..|asked|] == asked;
  }

  /** What a message makes the client queue. */
  function Asks(o: Options, s: State, f: Frame): seq<Ask> {
    if f.kind == MSG_SELECT_BOARD || (f.kind == MSG_POWER_OFF && o.autoPowerOn) then [PowerOn]
    else if !Present(f) then []
    else if s.continueFirst then [Continue]
    else if !s.done || o.repeat then [Upload]
    else []
  }

  lemma {:induction false} FlagStep(o: Options, s: State, f: Frame)
    requires FrameOk(f)
    ensures var t := Handle(o, s, f);
            && t.continueFirst == (s.continueFirst && !Present(f)) && t.done == (s.done || Acknowledges(f))
            && t.asked == s.asked + Asks(o, s, f)
  {
    assert s.asked + [] == s.asked;
  }

  lemma {:induction false} UploadStep(o: Options, s: State, f: Frame, asked: seq<Ask>)
    requires FrameOk(f) && asked == s.asked + Asks(o, s, f)
    ensures Uploads(asked) ==
            Uploads(s.asked) + if Present(f) && !s.continueFirst && (!s.done || o.repeat) then 1 else 0
  {
    var asks := Asks(o, s, f);
    if asks == [] {
      assert s.asked + [] == s.asked;
    } else {
      UploadsSnoc(s.asked, asks[0]);
    }
  }

  lemma {:induction false} ChancesStep(o: Options, done: bool, fs: seq<Frame>)
    requires fs != []
    ensures Chances(o, done, fs) ==
            Chances(o, done || Acknowledges(fs[0]), fs[1..]) + if Present(fs[0]) && (!done || o.repeat) then 1 else 0
  {}

  /** An upload is asked for each time fastboot appears, and unless told to repeat only
      until something is acknowledged; a client told to continue spends the first
      appearance on that. So the one upload at a time that the server can take is a
      matter of fastboot appearing once before it. */
  lemma {:induction false} UploadsAsked(o: Options, s: State, fs: seq<Frame>)
    requires WellSent(fs) && !s.stopped
    ensures var n := Chances(o, s.done, Heard(fs));
            Uploads(HandleAll(o, s, fs).asked) == Uploads(s.asked) + if s.continueFirst && n > 0 then n - 1 else n
    decreases |fs|
  {
    if fs != [] {
      HeardRest(fs);
      StopsIff(o, s, fs[0]);
      FlagStep(o, s, fs[0]);
      UploadStep(o, s, fs[0], Handle(o, s, fs[0]).asked);
      ChancesStep(o, s.done, Heard(fs));
      if GoesOn(fs[0]) {
        UploadsAsked(o, Handle(o, s, fs[0]), fs[1..]);
      }
    }
  }

  /** What a message shows on the terminal. */
  function Shows(f: Frame): seq<byte> {
    if f.kind == MSG_CONSOLE then f.data
    else if (f.kind == MSG_LIST_DEVICES && f.data != []) || f.kind == MSG_BOARD_INFO then f.data + [10]
    else []
  }

  function ShownText(fs: seq<Frame>): seq<byte> {
    if fs == [] then [] else Shows(fs[0]) + ShownText(fs[1..])
  }

  /** What a message brings of the status. */
  function Status(f: Frame): seq<byte> {
    if f.kind == MSG_STATUS_UPDATE then f.data else []
  }

  function StatusText(fs: seq<Frame>): seq<byte> {
    if fs == [] then [] else Status(fs[0]) + StatusText(fs[1..])
  }

  lemma {:induction false} ShownStep(o: Options, s: State, f: Frame)
    requires FrameOk(f)
    ensures Handle(o, s, f).shown == s.shown + Shows(f)
  {}

  /** All the console text, every listed device and the board information are shown, in
      order and nothing else. */
  lemma {:induction false} ShownInOrder(o: Options, s: State, fs: seq<Frame>)
    requires WellSent(fs) && !s.stopped
    ensures HandleAll(o, s, fs).shown == s.shown + ShownText(Heard(fs))
    decreases |fs|
  {
    if fs == [] {
      assert s.shown + [] == s.shown;
    } else {
      HeardRest(fs);
      StopsIff(o, s, fs[0]);
      ShownStep(o, s, fs[0]);
      if GoesOn(fs[0]) {
        ShownInOrder(o, Handle(o, s, fs[0]), fs[1..]);
        ConcatAssoc(s.shown, Shows(fs[0]), ShownText(Heard(fs[1..])));
      }
    }
  }

  lemma {:induction false} StatusStep(o: Options, s: State, f: Frame)
    requires FrameOk(f)
    ensures Handle(o, s, f).status == s.status + if o.statusPipe then Status(f) else []
  {
    assert s.status + [] == s.status;
  }

  /** The same of the status text, if there is a pipe for it. */
  lemma {:induction false} StatusInOrder(o: Options, s: State, fs: seq<Frame>)
    requires WellSent(fs) && !s.stopped
    ensures HandleAll(o, s, fs).status == s.status + if o.statusPipe then StatusText(Heard(fs)) else []
    decreases |fs|
  {
    if fs == [] {
      assert s.status + [] == s.status;
    } else {
      HeardRest(fs);
      StopsIff(o, s, fs[0]);
      StatusStep(o, s, fs[0]);
      if GoesOn(fs[0]) {
        StatusInOrder(o, Handle(o, s, fs[0]), fs[1..]);
        if o.statusPipe {
          ConcatAssoc(s.status, Status(fs[0]), StatusText(Heard(fs[1..])));
        }
      }
    }
  }

  /** One of the first `i` messages acknowledges something. */
  ghost predicate AckBefore(fs: seq<Frame>, i: nat)
    requires i <= |fs|
  {
    exists j :: 0 <= j < i && Acknowledges(fs[j])
  }

  /** Fastboot appears in one of the first `i` messages. */
  ghost predicate PresentBefore(fs: seq<Frame>, i: nat)
    requires i <= |fs|
  {
    exists j :: 0 <= j < i && Present(fs[j])
  }

  /** The `i`-th message is one to quit at: the end of the device list, the board
      information, or fastboot appearing again after an acknowledgement; where the
      first appearance is still to be spent on continuing, that one does not count. */
  ghost predicate QuitsAt(o: Options, done: bool, continueFirst: bool, fs: seq<Frame>, i: nat)
    requires i < |fs|
  {
    || (fs[i].kind == MSG_LIST_DEVICES && fs[i].data == []) || fs[i].kind == MSG_BOARD_INFO
    || (&& Present(fs[i]) && !o.repeat && (done || AckBefore(fs, i))
        && (continueFirst ==> PresentBefore(fs, i)))
  }

  ghost predicate Quits(o: Options, done: bool, continueFirst: bool, fs: seq<Frame>) {
    exists i: nat :: i < |fs| && QuitsAt(o, done, continueFirst, fs, i)
  }

  lemma {:induction false} BeforeLater(fs: seq<Frame>, i: nat)
    requires i + 1 <= |fs|
    ensures AckBefore(fs, i + 1) <==> Acknowledges(fs[0]) || AckBefore(fs[1..], i)
    ensures PresentBefore(fs, i + 1) <==> Present(fs[0]) || PresentBefore(fs[1..], i)
  {
    var rest := fs[1..];
    if j :| 0 <= j < i && Acknowledges(rest[j]) {
      assert Acknowledges(fs[j + 1]);
    }
    if j :| 0 <= j < i && Present(rest[j]) {
      assert Present(fs[j + 1]);
    }
    if j :| 0 <= j < i + 1 && Acknowledges(fs[j]) {
      assert j > 0 ==> Acknowledges(rest[j - 1]);
    }
    if j :| 0 <= j < i + 1 && Present(fs[j]) {
      assert j > 0 ==> Present(rest[j - 1]);
    }
  }

  lemma {:induction false} QuitsLater(o: Options, done: bool, continueFirst: bool, fs: seq<Frame>, i: nat)
    requires i + 1 < |fs|
    ensures QuitsAt(o, done || Acknowledges(fs[0]), continueFirst && !Present(fs[0]), fs[1..], i) <==>
            QuitsAt(o, done, continueFirst, fs, i + 1)
  {
    BeforeLater(fs, i);
  }

  lemma {:induction false} QuitsCons(o: Options, done: bool, continueFirst: bool, fs: seq<Frame>)
    requires fs != []
    ensures Quits(o, done, continueFirst, fs) <==>
            || QuitsAt(o, done, continueFirst, fs, 0)
            || Quits(o, done || Acknowledges(fs[0]), continueFirst && !Present(fs[0]), fs[1..])
  {
    var done', first', rest := done || Acknowledges(fs[0]), continueFirst && !Present(fs[0]), fs[1..];
    if i: nat :| i < |rest| && QuitsAt(o, done', first', rest, i) {
      QuitsLater(o, done, continueFirst, fs, i);
    }
    if i: nat :| 0 < i < |fs| && QuitsAt(o, done, continueFirst, fs, i) {
      QuitsLater(o, done, continueFirst, fs, i - 1);
      assert QuitsAt(o, done', first', rest, i - 1);
    }
  }

  lemma {:induction false} QuitStep(o: Options, s: State, fs: seq<Frame>)
    requires fs != [] && FrameOk(fs[0])
    ensures Handle(o, s, fs[0]).quit <==> s.quit || QuitsAt(o, s.done, s.continueFirst, fs, 0)
  {}

  /** The client means to quit exactly when a message to quit at has come. */
  lemma {:induction false} QuitIff(o: Options, s: State, fs: seq<Frame>)
    requires WellSent(fs) && !s.stopped
    ensures HandleAll(o, s, fs).quit <==> s.quit || Quits(o, s.done, s.continueFirst, Heard(fs))
    decreases |fs|
  {
    if fs != [] {
      HeardRest(fs);
      StopsIff(o, s, fs[0]);
      FlagStep(o, s, fs[0]);
      QuitStep(o, s, Heard(fs));
      QuitsCons(o, s.done, s.continueFirst, Heard(fs));
      if GoesOn(fs[0]) {
        QuitIff(o, Handle(o, s, fs[0]), fs[1..]);
      }
    }
  }

  // ---- The client ----------------------------------------------------------

  class Receiver {
    const recv_buf: CircBuf
    const ssh: Fd
    const options: Options
    var quit: bool
    var fastbootDone: bool
    var fastbootContinue: bool
    var powerOffChars: nat
    var receivedPowerOff: bool
    var asked: seq<Ask>
    var shown: seq<byte>
    var status: seq<byte>

    ghost function View(stopped: bool): State
      reads this
    {
      State(quit, fastbootDone, fastbootContinue, Marker(powerOffChars, receivedPowerOff), asked, shown, status,
            stopped)
    }

    constructor (ssh: Fd, options: Options, fastbootContinue: bool)
      ensures recv_buf.Valid() && fresh(recv_buf) && fresh(recv_buf.buf) && recv_buf.Contents() == []
      ensures this.ssh == ssh && this.options == options
      ensures View(false) == State(false, false, fastbootContinue, Marker(0, false), [], [], [], false)
    {
      recv_buf := new CircBuf();
      this.ssh, this.options, this.fastbootContinue := ssh, options, fastbootContinue;
      quit, fastbootDone, powerOffChars, receivedPowerOff := false, false, 0, false;
      asked, shown, status := [], [], [];
    }

    /** `handle_console`. */
    method HandleConsole(data: seq<byte>)
      modifies this`powerOffChars, this`receivedPowerOff, this`shown
      ensures Marker(powerOffChars, receivedPowerOff) ==
              var m := Marker(old(powerOffChars), old(receivedPowerOff));
              if options.powerCycles >= 0 then Feed(m, data) else m
      ensures shown == old(shown) + data
    {
      var i := 0;
      while i < |data| && options.powerCycles >= 0
        invariant 0 <= i <= |data| && shown == old(shown)
        invariant Marker(powerOffChars, receivedPowerOff) ==
                  Feed(Marker(old(powerOffChars), old(receivedPowerOff)), data[..i])
        invariant options.powerCycles < 0 ==> i == 0
      {
        assert data[..i + 1][..i] == data[..i];
        if data[i] == TILDE {
          powerOffChars := powerOffChars + 1;
          if powerOffChars - 1 == MARKER - 1 {
            receivedPowerOff := true;
            powerOffChars := 0;
          }
        } else {
          powerOffChars := 0;
        }
        i := i + 1;
      }
      assert options.powerCycles >= 0 ==> data[..i] == data;
      shown := shown + data;
    }

    /** The `switch` of `handle_message`; false where it returns -1. */
    method HandleFrame(msg: Frame) returns (goOn: bool)
      requires FrameOk(msg)
      modifies this
      ensures View(!goOn) == Handle(options, old(View(false)), msg)
    {
      goOn := true;
      if msg.kind == MSG_SELECT_BOARD {
        asked := asked + [PowerOn];
      } else if msg.kind == MSG_CONSOLE {
        HandleConsole(msg.data);
      } else if msg.kind == MSG_POWER_OFF {
        if options.autoPowerOn {
          asked := asked + [PowerOn];
        }
      } else if msg.kind == MSG_FASTBOOT_PRESENT {
        if msg.data[0] != 0 {
          if fastbootContinue {
            asked, fastbootContinue := asked + [Continue], false;
          } else if !fastbootDone || options.repeat {
            asked := asked + [Upload];
          } else {
            quit := true;
          }
        }
      } else if msg.kind == MSG_FASTBOOT_DOWNLOAD || msg.kind == MSG_FASTBOOT_CONTINUE {
        fastbootDone := true;
      } else if msg.kind == MSG_STATUS_UPDATE {
        if options.statusPipe {
          status := status + msg.data;
        }
      } else if msg.kind == MSG_LIST_DEVICES {
        if msg.data == [] {
          quit := true;
        } else {
          shown := shown + (msg.data + [NEWLINE]);
        }
      } else if msg.kind == MSG_BOARD_INFO {
        shown, quit, goOn := shown + (msg.data + [NEWLINE]), true, false;
      } else if msg.kind != MSG_HARDRESET && msg.kind != MSG_POWER_ON && msg.kind != MSG_FASTBOOT_BOOT {
        goOn := false;
      }
    }

    /** `handle_message`: handles every whole frame in the ring, in order, up to one
        that stops the client. */
    method HandleMessage() returns (ret: int)
      requires recv_buf.Valid() && WellSent(Parse(recv_buf.Contents()).frames)
      modifies this, recv_buf`tail
      ensures recv_buf.Valid() && (ret == 0 || ret == -1)
      ensures View(ret < 0) == HandleAll(options, old(View(false)), Parse(old(recv_buf.Contents())).frames)
      ensures ret == 0 ==> recv_buf.Contents() == Parse(old(recv_buf.Contents())).rest
    {
      ghost var c, s := recv_buf.Contents(), View(false);
      while true
        invariant recv_buf.Valid() && WellSent(Parse(recv_buf.Contents()).frames)
        invariant Parse(recv_buf.Contents()).rest == Parse(c).rest
        invariant HandleAll(options, s, Parse(c).frames) ==
                  HandleAll(options, View(false), Parse(recv_buf.Contents()).frames)
        decreases recv_buf.Avail()
      {
        ghost var now, was := recv_buf.Contents(), View(false);
        var msg := NextFrame(recv_buf);
        if msg.None? {
          return 0;
        }
        assert Parse(now).frames[0] == msg.value && Parse(now).frames[1..] == Parse(recv_buf.Contents()).frames;
        var goOn := HandleFrame(msg.value);
        assert View(!goOn) == Handle(options, was, msg.value);
        if !goOn {
          return -1;
        }
      }
    }
  }
}
