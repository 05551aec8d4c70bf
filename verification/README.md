# CDBA, verified

CDBA lets a developer boot and watch a remote board: a client (`cdba.c`) talks over a
pipe to a server (`cdba-server.c`), which drives the board's power and keys from timers
(`device.c`, `watch.c`), downloads images to it over USB (`fastboot.c`) and reads its
controllers (`drivers/`). This project models the parts of it that move data and time,
and proves what they are for.

`dafny verify dfyconfig.toml` verifies everything. Each module follows one source file or
one component; a method is written in the order and with the branches of the C function it
names, and is proved against a function or a sequence, about which the lemmas then speak.

## What is modelled

1. **Image transport.** `Wire` is the packed framing of `cdba.h`. `WorkQueue` and `Client`
   are the upload work function and the pass of `main` over the intrusive work list
   (`IntrusiveList`), which is edited while it is walked. `CircBuf` is the 16 KiB receive
   ring, `Framing`, `Server` and `Replies` are the two loops that drain it, `Fastboot` is
   the USB side, and `Booting` what a boot comes to on the wire. `Transport` puts the layers
   together: runs of any interleaving of client turns, other messages, and reads of any
   size, with `Safety` in every state, `Delivery` at the end, and `CanFinish` from
   everywhere. Its steps are the contracts of
   the methods: a pass is `WorkQueue.Pass` (which `Client.WorkPass` is proved to perform,
   and `Transport.PassIsRun` takes apart into steps), and a read is what
   `Server.HandleStdin` is proved to do with the bytes it got (`Transport.ServerReads`).
2. **Timers and the power sequence.** `Watch` is the timer list, `EventLoop` the pass that
   calls expired timers while they append more, `Device` the six-state machine as an
   object. `PowerSequence` is the same machine over all runs of requests and ticks, stale
   ticks included. `EventLoop.PassIsRun` shows that a timer pass is such a run, and `Board`
   that the device object goes through one over any turns of the loop and any requests.
3. **USB descriptors.** `UsbDescriptors` is the walk over raw bytes, `UsbTree` the
   serializer of descriptor trees it is proved against.
4. **Drivers.** `CdbAssist` (character machine), `FtdiConfig` (legacy configuration
   string), `FtdiGpio` (shadow registers), `Conmux` (percent-encoded responses), over the
   few C library functions of `CLib`.

## What is assumed of the environment

- A frame send is all-or-nothing: the pipe takes each `write` whole or refuses it, and has
  room for the payload whenever it had room for the header. `WorkQueue.SendAtomicIff` says
  exactly when a send is torn, `Transport.TornHeaderShifts` what the server then reads.
- One upload at a time. `TwoUploads.SecondUploadMixes` shows what two do to the images,
  `TwoUploads.SecondUploadIff` and `TwoUploads.RefusedUploadIff` when a second does no harm,
  without refused sends and with them,
  `WorkQueue.BlockedPassEndsIff` what they do to the pass, and `Replies.UploadsAsked` says
  how many the client asks for.
- A work node is queued only when it is not on the list. Several nodes are `static`, so
  this is up to the callers (cdba.c:340-367).
- The clock does not go back, and no delay is negative: for the device's own ticks this asks
  that `fastboot_key_timeout`, in milliseconds, is not negative as an `int`.
- Callbacks of drivers leave the device alone and arm only callbacks of drivers: `device_tick`
  and `msg_key_release` are static in device.c and cdba-server.c.
- Both ends are little endian. `realloc(NULL, 0)` does not fail. A USB device has finitely
  many results and replies to give; it may take none, some or all of a transfer, or fail it.
- A `read` delivers any positive number of the bytes there, or nothing; which
  descriptors are ready, and when, is arbitrary.
- Strings handed to the parsers have no NUL in them, as C strings do not.

## Where the code and its documentation differ

The model follows the code.

- `circ_fill` is documented to return 0 when the ring is full or nothing is left to read
  (circ_buf.c:19-21). It returns -1 with EAGAIN then, and 0 after a short read
  (`CircBuf.CircBuf.Fill`).
- The legacy FTDI string is documented to default to interface A and to take the names
  POWER, FASTBOOT_KEY, POWER_KEY and USB_DISCONNECT (drivers/ftdi-gpio.c:67-77). An empty
  interface is an error; OUTPUT_ENABLE is a name too; any prefix of a name will do, the
  empty one included; and the last character of every polarity but the last is ignored
  (`FtdiConfig.NameIff`, `FtdiConfig.PolarityIff`, `FtdiConfig.MisspeltPolarity`).
- The sample configuration puts the FTDI `fastboot_key` on `line: 8` (README:118-121). A
  register has lines 0 to 7, and a request for any other has no effect
  (`FtdiGpio.RequestMattersIff`).
- The result of sending the download command is ignored (fastboot.c:381), so a download can
  succeed without having announced its length (`Fastboot.AnnouncedIff`,
  `Fastboot.UnannouncedSuccess`).
- bNumInterfaces counts interfaces, not their alternate settings (section 9.6.3 of the USB 2.0
  specification); the walk takes one turn per interface descriptor, alternate settings
  included, and stops after that many (`UsbTree.LookedAtIff`, `UsbTree.AlternateHides`).
- The scans for a descriptor stop at the end of the data without a look at the kind of the
  last one, so that it is taken for an endpoint, or for an interface without any
  (`UsbDescriptors.LastIsTaken`).
- The companion of a SuperSpeed endpoint is stepped over only behind a bulk endpoint. Behind
  any other it ends the walk with an error if something follows (`UsbTree.ParseFindsIff`,
  `UsbTree.StrayCompanionBlocks`).
- A power-off that arrives while the sequence is about to connect power is undone by the
  tick that is still armed (`PowerSequence.PowerOffLastsIff`), and a power-on with a tick
  still armed shortens the stages in some continuation (`PowerSequence.StageTimesIff`).

## Model

| member | source | states |
|---|---|---|
| Wire.EncodeThenSplit | cdba.h:11-15 | a frame followed by anything is split off again as itself, leaving what followed |
| Wire.SplitThenEncode | cdba-server.c:150-159 | a frame split off fits 16 bits and re-encodes, with what is left, to the bytes it came from |
| Wire.FrameRoundTripIff | cdba.c:132-149 | a sent frame is received as itself if and only if its payload is shorter than 65536 bytes |
| Wire.HeaderBytes | cdba.h:11-15 | the header byte by byte: the kind, and the length in little endian |
| Wire.ParseAccountsForAll | cdba-server.c:150-219 | the frames a drain finds and the bytes it leaves make up exactly the bytes it was given |
| Wire.ParseLeavesNoFrame | cdba-server.c:150-156 | what a drain leaves holds no whole frame |
| Wire.ParseEncoded | cdba-server.c:150-219 | draining the encodings of any frames gives those frames in order, whatever follows |
| Wire.ParseChunked | cdba-server.c:136-219 | draining two pieces one after the other is the same as draining them as one, so chunking does not matter |
| Wire.ParsePrefix | cdba-server.c:150-219 | on any prefix of an encoded stream exactly the first so many frames are found and a strict prefix of the next is left |
| CircBuf.Masked | circ_buf.h:24-25 | the masked `size_t` difference of two cursors is their distance round the ring |
| CircBuf.WindowAppend | circ_buf.c:34-41 | bytes stored at the head, inside the free space, are appended to the queued ones |
| CircBuf.WindowDrop | circ_buf.c:64-78 | moving the tail on drops the oldest bytes and no others |
| CircBuf.CircBuf.Contents | circ_buf.h:18-27 | the queue holds AVAIL bytes, and AVAIL + SPACE is 16383 |
| CircBuf.CircBuf.ReadAtHead | circ_buf.c:27-42 | one read appends exactly the bytes delivered, across the wrap of the head |
| CircBuf.CircBuf.Fill | circ_buf.c:22-45 | a fill appends exactly the bytes taken from the descriptor, in at most two reads that deliver data; it reports 0 exactly when the last read delivered less than it was asked for, EAGAIN exactly when the ring is full or the last read found nothing, and otherwise the end of the file or the error |
| CircBuf.CircBuf.Peak | circ_buf.c:47-62 | a peek returns the oldest bytes and changes nothing, or reports 0 when too few are queued |
| CircBuf.CircBuf.Read | circ_buf.c:64-78 | a read within AVAIL returns the oldest bytes and leaves the others; a longer one reports 0 and has emptied the ring |
| IntrusiveList.List.Add | list.h:35-43 | the node becomes the last of a well-formed ring and the others keep their order |
| IntrusiveList.List.Del | list.h:45-49 | the node is taken out of a well-formed ring, the others keep their order, and its own pointers stay, which the lookahead relies on |
| IntrusiveList.List.Empty | list.h:30-33 | reports true exactly when no node is linked in |
| WorkQueue.SendAtomicIff | cdba.c:141-146 | a send is all-or-nothing if and only if the pipe lacks room for the header or has room for the whole frame |
| WorkQueue.GivesUpIff | cdba.c:340-376 | the client gives up exactly when a fatal send does not fit the pipe, its 3 bytes of header included |
| WorkQueue.PieceIs | cdba.c:383-386 | an upload sends the next 2048 bytes, or what is left, as a message of kind 7 |
| WorkQueue.PassUploadLast | cdba.c:846-852 | with the upload last, or none, every item runs exactly once, in order |
| WorkQueue.PassOrder | cdba.c:846-852 | every item queued at the start runs, in FIFO order; only an upload that has something queued behind it can run a second time; what is left is that upload or nothing |
| WorkQueue.BlockedPassEndsIff | cdba.c:389-391 | a pass over uploads that are always refused ends if and only if there is at most one |
| Client.SendBuf | cdba.c:132-149 | writes the header, then the payload; 0 exactly when both were taken, and the pipe holds what got through |
| Client.Client.Request | cdba.c:340-352 | the request goes behind the others on the list |
| Client.Client.FastbootWork | cdba.c:378-403 | sends the next piece of at most 2048 bytes and re-queues itself, also when refused; after the empty piece it is gone |
| Client.Client.WorkPass | cdba.c:846-852 | the pass over the list, edited while it is walked with a one-element lookahead, ends and leaves list, pipe and order of calls as the pass on values says |
| Framing.NextFrame | cdba-server.c:150-159 | takes the first frame out of the ring if it is whole, and nothing otherwise |
| Server.DispatchAppend | cdba-server.c:161-216 | dispatching is cut by nothing but an unknown message |
| Server.KnownIff | cdba-server.c:161-216 | there is a case for the messages numbered 1 to 17 but for 12 |
| Server.DispatchIs | cdba-server.c:72-94 | message 7 with data grows the image, without any it boots the image and empties the accumulator, and every other message leaves both alone |
| Server.ExitedIff | cdba-server.c:213-215 | the server exits exactly when a message with another number has come |
| Server.UsbAppend | cdba-server.c:149-219 | what goes over USB depends on the messages alone, not on the reads they arrive in |
| Server.UsbIsBoots | cdba-server.c:72-100 | what goes over USB for any messages without a continue is the boots of exactly the images handed over, in order |
| Server.UsbOffered | cdba-server.c:72-100 | whatever the device takes, refuses and says, the messages offer it the bytes of their boots and of the command to continue, in order, and nothing else |
| Server.ContinueSent | cdba-server.c:96-100 | message 16 has a device that takes everything and answers OKAY get the command to continue |
| Server.Server.DeviceBoot | device.c:306-341 | a boot is recorded with its image; over USB go the slot to activate, if any, the download, and the commands to boot or to flash and reboot, whatever comes of each |
| Booting.BootSent | device.c:306-341 | a device that takes something in each transfer and answers OKAY gets exactly "set_active:" with the slot if there is one, "download:" with the length of the image in eight hexadecimal digits, the image, and "boot", or "flash:boot" and "reboot" |
| Booting.BootOffered | device.c:306-341 | any device is offered nothing but these, in order, and takes a prefix of each |
| Booting.AllSent | device.c:334-346 | the same of any images one after the other, on a device that takes everything |
| Booting.AllOffered | device.c:334-346 | the same of any images one after the other, on any device |
| Server.Server.FastbootDownload | cdba-server.c:72-94 | a piece extends the image, boots nothing and leaves USB alone; the empty piece boots exactly the image so far and leaves the accumulator empty |
| Server.Server.Drain | cdba-server.c:149-219 | every whole frame in the ring is dispatched, in order, with what that sends over USB, and what is left stays in the ring |
| Server.Server.HandleStdin | cdba-server.c:136-222 | after a refill the frames that the bytes so far complete have been dispatched, in order, with what that sends over USB, and nothing read is lost; it gives up, with nothing dispatched, exactly when a read found the end of the stream or failed other than for want of data |
| Replies.MarkerSeenIff | cdba.c:493-516 | the power-off marker is seen if and only if twenty tildes in a row have gone by |
| Replies.MarkerAcrossMessages | cdba.c:497-516 | under power cycling, the marker is looked for in all the console text that is handled, across messages |
| Replies.MarkerIgnored | cdba.c:497-516 | without power cycling the marker is not looked for |
| Replies.RepliesChunked | cdba.c:520-602 | where the stream is cut between two drains does not matter to the client either |
| Replies.OnlyHeard | cdba.c:539-596 | exactly the messages up to the first that stops the client, and that one, are handled; any behind it have no effect |
| Replies.FlagStep | cdba.c:539-596 | what a message makes the client queue, a power-on, a continue or an upload, and what it makes it remember |
| Replies.UploadsAsked | cdba.c:559-575 | an upload is asked for once for each appearance of fastboot, without repeating only before the first acknowledgement; a client told to continue spends the first appearance on that |
| Replies.QuitIff | cdba.c:559-596 | the client means to quit if and only if the device list has ended, the board information has come or, without repeating, fastboot has appeared after an acknowledgement, not counting an appearance spent on continuing |
| Replies.ShownInOrder | cdba.c:448-516 | all console text, every listed device and the board information are shown, in order and nothing else |
| Replies.StatusInOrder | cdba.c:428-434 | all status text goes to the status pipe, in order, if there is one |
| Replies.Receiver.HandleConsole | cdba.c:497-516 | the text is shown whole, and the marker is tracked exactly when power cycles were asked for |
| Replies.Receiver.HandleFrame | cdba.c:539-596 | each message has its effect on the client and no other, and says whether the client goes on |
| Replies.Receiver.HandleMessage | cdba.c:520-602 | every whole frame in the ring is handled in order, up to one that stops the client; the rest stays |
| CLib.HexRoundTrip | fastboot.c:380 | what `%08x` prints of a 32-bit number is what `strtol` reads back |
| CLib.ClassCodes | drivers/conmux.c:59-117 | the character classes and lower case of the "C" locale, by the codes of ASCII |
| CLib.BaseByPrefix | drivers/ftdi-gpio.c:141 | with base 0 the prefix of a numeral says whether it is octal, decimal or hexadecimal |
| CLib.MinusOne | drivers/ftdi-gpio.c:141 | behind a minus `strtoul` wraps round and `strtol` negates |
| Fastboot.CommandAnnouncesLengthIff | fastboot.c:380 | the command announces the length of the image if and only if it fits 32 bits |
| Fastboot.EchoedLengthAcceptedIff | fastboot.c:89-90 | a device that echoes the announced length is believed if and only if it is below 2^31 |
| Fastboot.Usb.Write | fastboot.c:97-122 | makes the transfers and has the result that the device's results for them come to, in transfers of at most 16384 bytes |
| Fastboot.FirstOffer | fastboot.c:97-122 | each transfer offers all that is left, up to 16384 bytes |
| Fastboot.WriteRunTakes | fastboot.c:97-122 | the parts taken, in transfers of at most 16384 bytes, make up a prefix of the data, and where there is any to write all of it exactly on success |
| Fastboot.WriteOkIff | fastboot.c:97-122 | a write is taken in full if and only if the device accepts that many bytes before it fails, however it splits them; it may accept none in a transfer that does not fail |
| Fastboot.Usb.ReadStatus | fastboot.c:53-95 | skips information and reports what the first other reply says |
| Fastboot.ReadOkIff | fastboot.c:53-95 | a read succeeds if and only if the first reply that is not passed over says OKAY, or DATA with a number that is not negative as an `int`; its result is the length of the text or that number, and the replies behind are left |
| Fastboot.WritePiecesTakes | fastboot.c:389-397 | the parts taken of an image, in bounded transfers, concatenate to a prefix of it, and to exactly the image if and only if every piece is taken |
| Fastboot.Usb.WriteImage | fastboot.c:389-397 | makes the transfers of the image's pieces one after the other, up to the first that is not taken |
| Fastboot.Usb.Download | fastboot.c:367-405 | has the result and makes the transfers, of the command and then of the image, that the device's results and replies come to |
| Fastboot.DownloadIff | fastboot.c:367-405 | a download succeeds if and only if the device says yes, exactly the image was taken and the device says yes again; in any case a prefix of it was taken, in bounded transfers, and nothing unless the device had said yes |
| Fastboot.RefusedIff | fastboot.c:383-387 | where the first reply that matters is FAIL, too short or a failed transfer, nothing of the image is sent and the download fails |
| Fastboot.AnnouncedIff | fastboot.c:380-381 | the device was sent the whole command, with the length, if and only if no transfer of the command failed; otherwise it has a prefix of it |
| Fastboot.UnannouncedSuccess | fastboot.c:381-387 | a download can succeed although the command was lost: the result of sending it is not looked at |
| Transport.StepKeepsInv | cdba-server.c:72-94 | every step of client, console and server keeps: the stream is one of whole frames, and what was sent amounts to the images requested so far |
| Transport.Safety | cdba-server.c:136-219 | in every state of every run the server has dispatched a prefix of what was sent, holds a strict prefix of the next frame, and has booted a prefix of the images requested, each unchanged |
| Transport.Delivery | cdba.c:378-403 | in every run, with no upload in progress and the pipe empty, exactly the requested images have been booted, once each and in order, and accumulator and ring are empty |
| Transport.DeliveredOverUsb | cdba-server.c:72-94 | once everything is delivered, and unless there was a continue, any device has been offered a boot of each requested image, in order, and has taken prefixes of its parts; one that takes everything and answers OKAY has them all, byte by byte |
| Transport.NoStallIff | circ_buf.c:27-32 | draining always leaves a free byte in the ring if and only if no payload exceeds 16380 bytes |
| Transport.ReadIsEnabled | cdba-server.c:144-148 | in every reachable state with such frames the server can read whenever the pipe holds something |
| Transport.CanFinish | cdba.c:846-852 | from every reachable state with such frames some continuation empties the queue and delivers everything |
| Transport.PassIsRun | cdba.c:846-852 | a pass of the work list has the effect of the steps it takes |
| Transport.ClientPasses | cdba.c:846-852 | the pass over the list of work nodes performs the steps of its turns: the same queue, and the same bytes in the pipe |
| Transport.ClientAsks | cdba.c:340-426 | queueing a work node is the request step of the system, or the start of an upload |
| Transport.ServerReads | cdba-server.c:136-222 | `handle_stdin` performs the read step of the system: the same frames dispatched, the same bytes left in ring and pipe, and over USB what these frames say |
| Transport.TornHeaderShifts | cdba.c:141-146 | after a torn and retried send the server takes the second header for the start of the payload |
| TwoUploads.TwoUploadsMix | cdba-server.c:72-94 | two uploads of any number of pieces sent by turns boot a mixture where the first of them ends, and the rest of the other as a second image |
| TwoUploads.BeforeIs | cdba-server.c:72-94 | the mixture is the pieces by turns as far as the shorter upload goes, and the second image the rest of the longer one |
| TwoUploads.SecondUploadIff | cdba-server.c:72-94 | sent strictly by turns, as they are while the pipe takes everything, a second upload started during a first does no harm, whatever is in the images, if and only if the first has only its end left to send, or only its last piece and the second image is empty |
| TwoUploads.RefusedUploadIff | cdba.c:378-403 | a second upload queued behind a first does no harm in any run of turns, whatever the pipe refuses, if and only if the first has only its end left to send and the second image is empty |
| TwoUploads.HarmfulRun | cdba.c:389-391 | otherwise some run in which sends are refused boots another image than the first |
| TwoUploads.ClientAlternates | cdba.c:846-852 | in every run of turns that the pipe takes, a client with nothing but one upload or two queued sends their pieces by turns: what it has sent and what it has left to send never changes |
| TwoUploads.ClientFinishes | cdba.c:378-403 | turns with room for a piece send everything |
| TwoUploads.SecondUploadMixes | cdba.c:378-403 | with two uploads queued at any point of theirs, every run of taken turns that empties the queue ends in the server booting the mixture and the rest |
| Timeval.MacrosAreArithmetic | watch.c:65-100 | on normalized values the macros add, subtract and compare microseconds, and the sign of a difference is that of its seconds |
| Watch.Watch.TimerAdd | watch.c:57-75 | a timer is armed for exactly its delay after the clock reading, behind the others |
| Watch.Watch.TimerNext | watch.c:77-102 | the sleep is exactly the time to the earliest deadline, or nothing if that has passed, and unbounded exactly with no timer pending |
| EventLoop.SplitIsExact | watch.c:112-118 | expired and pending timers are together all the timers, told apart by their deadlines alone |
| EventLoop.ExpiredIff | watch.c:112-118 | a timer is expired exactly when its deadline in microseconds is before the clock snapshot |
| EventLoop.PassLeavesNoneDue | watch.c:104-120 | nothing that a pass leaves on the list, or that its callbacks arm, is due before the snapshot of the clock |
| EventLoop.ReleaseHolds | cdba-server.c:102-107 | after the last release of key 0 or 1 with no tick behind it, the fastboot or the power key is up |
| EventLoop.WatchTimerInvoke | watch.c:104-120 | calls exactly the timers pending at the start whose deadline is strictly before the clock snapshot, once each and in order, whatever the callbacks of drivers arm for whatever delays meanwhile, and leaves the others followed by everything armed, none of it due before the snapshot; a key released with no tick behind is up |
| EventLoop.PassIsRun | watch.c:104-120 | a timer pass is a run of the power sequence in which each expired tick fires once and nothing else happens, whatever other timers are on the list; stage and power agree with it, and the other lines do if they did and no key release expires |
| Board.TicksArmed | watch.c:57-75 | arming timers behind others puts the ticks among them behind the armed ticks |
| Board.TurnOn | device.c:241-273 | a power request on the device object is a power-on event of the sequence, from and to states that mirror the object and its timers |
| Board.TurnOff | device.c:252-273 | a request to drop power is a power-off event of the sequence |
| Board.KeyPress | cdba-server.c:102-122 | a key message of the right length changes the one key line, arms a release after 100 ms exactly for a pulse, and leaves stage, power, USB and armed ticks alone; any other message is ignored |
| Board.Pulse | cdba-server.c:102-122 | a pulse of a key and the next pass over the timers: with its 100 ms over the key is up, and before that the release is still on the list |
| Board.TimerPass | watch.c:104-120 | a timer pass on the device object is a run of the sequence in which each tick due at the snapshot fires once, whatever timers of drivers are on the list; the device is as the callbacks leave it, and nothing that was due is left |
| Board.ServeTurn | watch.c:146-168 | a turn of the loop runs the timers, then the handlers: the ticks due at its snapshot fire once each, nothing that was due when it began is left, and the requests are served in order |
| Board.Serve | watch.c:127-170 | over any turns of the loop, with any requests for power, USB or keys and any timers of drivers, the device is as the callbacks and exactly these requests leave it and goes through a run of the power sequence; a started sequence has a tick on the list, nothing on the list was due when the last turn began, and with nothing but power requests the key lines follow the stage |
| Device.Device.Advance | device.c:181-234 | drives the lines and says when to tick again as the specification does, for every stage |
| Device.Device.Tick | device.c:181-234 | a tick goes on as the specification does and arms exactly its next tick, behind the timers there |
| Device.Device.PowerOn | device.c:241-250 | restarts the sequence and leaves every armed tick on the list |
| Device.Device.PowerOff | device.c:252-260 | drops power and changes neither stage nor timers |
| PowerSequence.TimeoutExactIff | device.c:206 | the fastboot key timeout in milliseconds is exact if and only if it is at most 2147483 seconds |
| PowerSequence.InitialInv | device.c:181-260 | the state before any request satisfies the invariant of the key lines |
| PowerSequence.LineInvariant | device.c:181-260 | in every state of every run from there, stale ticks included, the key lines are a function of the stage, both up when running, and a started sequence has a tick armed |
| PowerSequence.Connected | device.c:195-199 | from the start and until power is dropped, a board past CONNECT has power and USB |
| PowerSequence.NoControl | device.c:241-260 | without a controller for the power nothing ever happens |
| PowerSequence.Converges | device.c:181-260 | after the last power-on every tick uses up some of the stages and ticks left, and with none armed the device is running |
| PowerSequence.Settles | device.c:181-260 | from every such state letting ticks fire ends in RUNNING with none armed |
| PowerSequence.PowerOffLastsIff | device.c:252-260 | power stays low until the next power-on, in every continuation, if and only if the power-off did not come in CONNECT |
| PowerSequence.StageTimesIff | device.c:241-250 | every stage is held for its delay, in every continuation, if and only if no tick was armed at the power-on and the fastboot key timeout fits; on a board with neither key, if and only if no tick armed then is due within 10 ms |
| PowerSequence.StageHeld | device.c:181-234 | with no more than one tick armed, a stage is held for more than its delay between the events that enter and leave it |
| PowerSequence.PowerKeyHeld | device.c:210-219 | in a sequence started with no tick armed, from the event that presses the power key to the one that releases it lie more than 100 ms |
| PowerSequence.FastbootKeyHeld | device.c:184-232 | from an undisturbed power-on the fastboot key stays asserted for 10 ms, the power key's 350 ms if there is one, and the fastboot key timeout |
| PowerSequence.TimeToRunning | device.c:181-234 | started with no tick armed, the device is running only later than 10 ms, 350 ms more with a power key, and the fastboot key timeout |
| PowerSequence.TimeToRunningIff | device.c:206-225 | that holds of every continuation if and only if the fastboot key timeout is at most 2147483 seconds |
| UsbDescriptors.ParseUsbDesc | fastboot.c:124-227 | the nested loops over the buffer, with the memory behind it that fields are read from, end, stay within it, and compute the walk on bytes |
| UsbDescriptors.FoundInBytes | fastboot.c:143-226 | whatever the bytes, what is found belongs to a claimed interface with the bytes 0xff, 0x42 and 0x03, and its endpoints are bulk endpoints behind it, IN with bit 7 of the address set and OUT without |
| UsbDescriptors.SampleFound | fastboot.c:143-226 | on a SuperSpeed device given byte by byte the endpoints 0x81 and 0x02 are found, or ENOENT if the interface cannot be claimed |
| UsbDescriptors.LastIsTaken | fastboot.c:178-185 | the last descriptor of the data is taken for an endpoint whatever its kind |
| UsbTree.WalkRefines | fastboot.c:143-226 | on the serialization of any tree the walk on bytes sees what the tree says of as many descriptors as the configuration counts, alternate settings among them |
| UsbTree.SeeEpsIff | fastboot.c:175-202 | the endpoints of an interface are passed if and only if none of the descriptors between them is too short, and then the last bulk one of each direction is found |
| UsbTree.ClearForIff | fastboot.c:152-202 | the walk gets through the first so many descriptors if and only if it gets through each of them behind what the one before left over |
| UsbTree.ParseFindsIff | fastboot.c:124-227 | on any tree with an interface the first claimable fastboot interface and its last bulk endpoints are found, or ENOENT if there is none, if and only if it is among the first descriptors that the configuration counts and no descriptor on the way is too short to be stepped over; otherwise EINVAL, or ENOENT with no turn left |
| UsbTree.LookedAtIff | fastboot.c:152-160 | where the count is of interfaces, a descriptor is among those looked at if and only if fewer alternate settings precede it than interfaces are still to come |
| UsbTree.AlternateHides | fastboot.c:152-160 | with one alternate setting in front, the second of two interfaces is never looked at |
| UsbTree.StrayCompanionBlocks | fastboot.c:187-201 | a companion behind an endpoint that is not bulk ends the walk when another endpoint follows |
| CdbAssist.CdbAssist.Push | drivers/cdb_assist.c:112-230 | a character takes the parser, its numbers, key buffer and fields, from one state of the machine to the next |
| CdbAssist.CdbAssist.CtrlData | drivers/cdb_assist.c:232-247 | a read has the effect of its characters, lowered, one by one |
| CdbAssist.RunReport | drivers/cdb_assist.c:112-230 | from idle a report leaves exactly its own value behind, numbers modulo 2^32, and the parser idle |
| CdbAssist.ReadsAsOne | drivers/cdb_assist.c:232-247 | how the text is split into reads does not matter |
| CdbAssist.ReadReports | drivers/cdb_assist.c:232-247 | from any state, behind a separator that ends it, any reports in letters of either case, with anything but letters and digits between them, split into reads in any way, leave the fields as the reports say and the parser idle, without overrunning the key buffer |
| CdbAssist.LastReportHolds | drivers/cdb_assist.c:72-110 | each field is what the last report about it said |
| CdbAssist.SwitchNames | drivers/cdb_assist.c:72-97 | each switch is set under its own name |
| CdbAssist.OtherNames | drivers/cdb_assist.c:72-97 | under any other name nothing is set |
| CdbAssist.FieldsByName | drivers/cdb_assist.c:98-110 | the first number of a pair is what was set, the second what is actual, in either unit |
| Conmux.ParseResponse | drivers/conmux.c:59-117 | the pointer loops compute the parse of the whole string, keeping what was stored before an error |
| Conmux.TakeEncoded | drivers/conmux.c:84-98 | decoding undoes percent-encoding of any bytes, in either case of digits and however much is encoded |
| Conmux.InValueIff | drivers/conmux.c:84 | a value goes on through the characters 33 to 126 |
| Conmux.EscapeIs | drivers/conmux.c:85-93 | an escape stands for the byte that its digits say, the high one first |
| Conmux.ResponseRoundTrip | drivers/conmux.c:59-117 | any encoded pairs joined by any white space parse without error and store each value under its key, in order |
| Conmux.LastValueKept | drivers/conmux.c:102-112 | the value kept for a key is the last one given |
| Conmux.KeyNames | drivers/conmux.c:102-112 | each of the four keys keeps its value under its own name |
| FtdiConfig.Options.ParseConfig | drivers/ftdi-gpio.c:79-157 | the description is the text before the first semicolon, the lines and the error those of the entries behind it; nothing else changes |
| FtdiConfig.Options.ParseEntries | drivers/ftdi-gpio.c:110-156 | the loop ends and leaves the lines as the entries from its start on say |
| FtdiConfig.InterfaceIff | drivers/ftdi-gpio.c:99-107 | the letters A to D stand for the interfaces 0 to 3, and anything else is an error |
| FtdiConfig.GpiosRead | drivers/ftdi-gpio.c:110-156 | any list of entries is read as what its entries denote one by one, although each field is sought in all the rest of the string |
| FtdiConfig.TextLaid | drivers/ftdi-gpio.c:67-77 | where a string ends in the text written for any list of entries, it has those entries where the theorems on the parser want them |
| FtdiConfig.ConfigRead | drivers/ftdi-gpio.c:79-157 | a whole string yields its description and what its entries denote, last entry included |
| FtdiConfig.ConfigLaid | drivers/ftdi-gpio.c:67-77 | every string of description, interface and written entries has its parts where the theorems on the parser want them |
| FtdiConfig.AcceptedIff | drivers/ftdi-gpio.c:115-150 | a configuration is accepted if and only if every entry is sound |
| FtdiConfig.LastEntryWins | drivers/ftdi-gpio.c:152-155 | the last entry for a line decides it |
| FtdiConfig.UnnamedKept | drivers/ftdi-gpio.c:152-155 | a line that no entry names stays as it was |
| FtdiConfig.NameIff | drivers/ftdi-gpio.c:128-139 | a name stands for a line if and only if it is a prefix of its name longer than any prefix it shares with an earlier one |
| FtdiConfig.PolarityIff | drivers/ftdi-gpio.c:145-150 | before a semicolon the last character of a polarity is never looked at, and a prefix of both is high |
| FtdiConfig.MisspeltPolarity | drivers/ftdi-gpio.c:145-150 | a misspelt low polarity is refused at the end of the string and read as high before a semicolon |
| FtdiConfig.DocumentedEntries | drivers/ftdi-gpio.c:67-77 | entries that say what they mean in either position are all accepted; each line is as the last one for it says, and the others are as before |
| FtdiConfig.AllWrittenSay | drivers/ftdi-gpio.c:71-74 | an entry with a full name, a line of 0 to 7 and a full polarity says what it means in either position |
| FtdiConfig.DocumentedConfig | drivers/ftdi-gpio.c:67-77 | a string of such entries is parsed without error: its description, each line as the last entry for it says, and the others as before |
| FtdiConfig.LegacyOptions | drivers/ftdi-gpio.c:159-172 | makes fresh options and fills them as the legacy string says, cut to the token length |
| FtdiConfig.TokenIs | drivers/ftdi-gpio.c:159-172 | a scalar of up to 16383 characters is taken whole, and of a longer one as many |
| FtdiConfig.LegacyConfigured | drivers/ftdi-gpio.c:67-172 | the options made from a documented string that fits the token have its description, each named line as the last entry for it says, and every other line absent |
| FtdiGpio.DrivenBit | drivers/ftdi-gpio.c:349-352 | setting or clearing a bit changes that line alone, and from line 8 on none |
| FtdiGpio.OthersUndisturbed | drivers/ftdi-gpio.c:334-356 | any requests for other lines leave a line as it was |
| FtdiGpio.LastRequestHolds | drivers/ftdi-gpio.c:334-356 | after any requests a line is where the last request for it put it, inverted where it is active low |
| FtdiGpio.GpioHolds | drivers/ftdi-gpio.c:334-356 | with distinct lines, every GPIO's line shows its last request |
| FtdiGpio.RequestMattersIff | drivers/ftdi-gpio.c:349-352 | what is asked of a GPIO makes a difference if and only if its line is at most 7 |
| FtdiGpio.LegacyDrivable | drivers/ftdi-gpio.c:141-155 | the legacy string configures only lines that can be driven |
| FtdiGpio.Driver.ToggleIo | drivers/ftdi-gpio.c:334-356 | a request updates its register and sends it out once, over an open interface; a GPIO that is absent gets -EINVAL and nothing changes |
| FtdiGpio.Driver.constructor | drivers/ftdi-gpio.c:248-332 | exactly the interfaces that some GPIO is on are opened, and the lines start as the initial requests say |
| FtdiGpio.OpenedLines | drivers/ftdi-gpio.c:314-327 | once open, with every GPIO on a line of its own, power is off, outputs are enabled and USB is as the board asks |

## Left out

- Processes, sockets, locks, `select` and its descriptor sets, terminals, and the libraries
  for USB, FTDI and GPIO: each is a parameter, an out-parameter left open, or gone.
- End of file and failing reads of the pipes, other than that they end the run.
- The client's timeouts, its power cycling loop and its exit status (cdba.c:745-805,
  cdba.c:866-869).
- Replies.Receiver.HandleFrame: what a message makes the client queue is a list of requests,
  not of nodes linked into the work list, and a message about fastboot is taken to carry its
  one byte, which the client reads unchecked.
- Writes to a pipe that take a part of the data; the model takes a write whole or not at all.
- Server.Server.DeviceBoot: leaves out the USB switch-off behind it, which does not touch the
  image, a device with no fastboot opened, and slot names that overrun the 80-byte buffer.
- Server.Server.DispatchMessage: the handlers of messages other than an upload piece act on
  the board and are not modelled, only that they leave the upload and, but for a continue,
  what goes over USB alone.
- PowerSequence.LineInvariant: no key messages from the console, whose presses and delayed
  releases drive the same lines without regard to the sequence; `Board.KeyPress` says what
  they do.
- Device.Device.Tick: a `fastboot_key_timeout` whose milliseconds are negative as an `int`; the
  same holds of `Device.PowerOn` and of `EventLoop.WatchTimerInvoke`. Beyond 2147483 seconds
  the delay wraps, as `PowerSequence.TimeoutExactIff` says; the methods follow that.
- UsbDescriptors.ParseUsbDesc: a failing `read` of the descriptors. Fields are read up to 8
  bytes behind what was read; the array stands for the 1024-byte buffer and the memory behind
  it, whose contents the C function does not control.
- UsbTree.ParseFindsIff: a configuration that counts more interfaces than it has descriptors,
  when other bytes follow it, and a companion descriptor right behind the configuration.
- CdbAssist.CdbAssist.Push: keys that fill the 32-byte buffer, which is not checked.
- Conmux.ParseResponse: the 64-byte buffers for keys and values, which are not checked;
  registry look-up and the connection itself.
- FtdiConfig.Options.ParseConfig: the length that is computed from a null pointer for the last
  polarity is taken as one beyond any literal; the words of the string are a parameter, of which
  `FtdiConfig.WORDS` is the source's; messages printed with an error are left out.
- FtdiGpio.Driver.ToggleIo: lines of 32 and more, for which the shift has no defined value.
- The YAML configuration parser and the YAML options of the drivers.
- `drivers/qcomlt_dbg.c`, a parser of the same kind as the CDB Assist's that does not leave
  its last state after a match, and the alpaca, external, laurent and local GPIO drivers.
- The console, status, USB power switching and set-up scripts.
