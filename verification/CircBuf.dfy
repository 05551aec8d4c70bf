/** The receive ring of `circ_buf.c`: a 16 KiB array addressed by two masked
    `size_t` cursors, refilled from a non-blocking descriptor. It is proved to
    be a FIFO of capacity 16383. */
module CircBuf {
  import opened Bytes

  const CIRC_BUF_SIZE := 16384

  datatype Errno = EAGAIN | EPIPE | EOTHER

  /** `x & (CIRC_BUF_SIZE - 1)` for an `x` computed in `size_t`. */
  function Masked(x: int): (r: nat)
    ensures r < CIRC_BUF_SIZE
    ensures -CIRC_BUF_SIZE <= x < 0 ==> r == x + CIRC_BUF_SIZE
    ensures 0 <= x < CIRC_BUF_SIZE ==> r == x
    ensures CIRC_BUF_SIZE <= x < 2 * CIRC_BUF_SIZE ==> r == x - CIRC_BUF_SIZE
  {
    x % U64 % CIRC_BUF_SIZE
  }

  /** The array index of the `i`-th byte from `tail`. */
  function Slot(tail: nat, i: nat): (k: nat)
    requires tail < CIRC_BUF_SIZE && i <= CIRC_BUF_SIZE
    ensures i < CIRC_BUF_SIZE ==> k < CIRC_BUF_SIZE
  {
    if tail + i < CIRC_BUF_SIZE then tail + i else tail + i - CIRC_BUF_SIZE
  }

  /** The `n` bytes found from `tail` on, going round the array. */
  ghost function Window(buf: seq<byte>, tail: nat, n: nat): (w: seq<byte>)
    requires |buf| == CIRC_BUF_SIZE && tail < CIRC_BUF_SIZE && n <= CIRC_BUF_SIZE
    ensures |w| == n
    ensures forall i :: 0 <= i < n ==> w[i] == buf[Slot(tail, i)]
  {
    seq(n, i requires 0 <= i < n => buf[Slot(tail, i)])
  }

  lemma {:induction false} WindowDrop(buf: seq<byte>, tail: nat, n: nat, k: nat)
    requires |buf| == CIRC_BUF_SIZE && tail < CIRC_BUF_SIZE && k <= n < CIRC_BUF_SIZE
    ensures Window(buf, Slot(tail, k), n - k) == Window(buf, tail, n)[k..]
  {
    var w, v := Window(buf, Slot(tail, k), n - k), Window(buf, tail, n)[k..];
    forall i | 0 <= i < n - k
      ensures w[i] == v[i]
    {
      assert Slot(Slot(tail, k), i) == Slot(tail, k + i);
    }
  }

  lemma {:induction false} WindowSnoc(buf: seq<byte>, tail: nat, n: nat)
    requires |buf| == CIRC_BUF_SIZE && tail < CIRC_BUF_SIZE && n < CIRC_BUF_SIZE
    ensures Window(buf, tail, n + 1) == Window(buf, tail, n) + [buf[Slot(tail, n)]]
    ensures Masked(Slot(tail, n) + 1) == Slot(tail, n + 1) || n + 1 == CIRC_BUF_SIZE
  {}

  lemma {:induction false} WindowSplit(buf: seq<byte>, tail: nat, n: nat, k: nat)
    requires |buf| == CIRC_BUF_SIZE && tail < CIRC_BUF_SIZE && k <= n < CIRC_BUF_SIZE
    ensures Window(buf, tail, k) + Window(buf, Slot(tail, k), n - k) == Window(buf, tail, n)
  {
    WindowDrop(buf, tail, n, k);
    assert Window(buf, tail, k) == Window(buf, tail, n)[..k];
  }

  /** Storing `n` bytes at `head`, inside the free space and without reaching
      past the end of the array, appends them to the window. */
  lemma {:induction false} WindowAppend(buf: seq<byte>, buf': seq<byte>, tail: nat, head: nat, a: nat, more: seq<byte>)
    requires |buf| == |buf'| == CIRC_BUF_SIZE && tail < CIRC_BUF_SIZE && head < CIRC_BUF_SIZE
    requires a + |more| < CIRC_BUF_SIZE && head == Slot(tail, a) && head + |more| <= CIRC_BUF_SIZE
    requires forall k :: 0 <= k < CIRC_BUF_SIZE ==>
      buf'[k] == if head <= k < head + |more| then more[k - head] else buf[k]
    ensures Window(buf', tail, a + |more|) == Window(buf, tail, a) + more
  {
    var w, v := Window(buf', tail, a + |more|), Window(buf, tail, a) + more;
    forall i | 0 <= i < a + |more|
      ensures w[i] == v[i]
    {
      if i < a {
        assert !(head <= Slot(tail, i) < head + |more|);
      } else {
        assert Slot(tail, i) == head + (i - a);
      }
    }
  }

  /** What a `read` came to: `n` of the `asked` bytes, the end of the file, or -1 and
      `errno`, which is EAGAIN when nothing is available. */
  datatype LastRead = Data(asked: nat, n: nat) | EndOfFile | Failed(errno: Errno)

  /** The descriptor is of no more use. */
  predicate Broken(last: LastRead) {
    last.EndOfFile? || (last.Failed? && last.errno != EAGAIN)
  }

  /** A non-blocking descriptor: the bytes its peer has written and that were
      not read yet. How many of them a `read` delivers is up to the kernel. */
  class Fd {
    var stream: seq<byte>
    ghost var dataReads: nat  // reads that delivered data
    ghost var calls: nat      // all reads
    ghost var last: LastRead  // what the last read came to

    /** `read(fd, dst + at, space)`: a positive count on data, 0 at end of file,
        and -1 with `errno` when nothing is available or the read fails. */
    method Read(dst: array<byte>, at: nat, space: nat) returns (n: int, errno: Errno)
      requires 0 < space && at + space <= dst.Length
      modifies this, dst
      ensures n <= space && n <= |old(stream)| && calls == old(calls) + 1
      ensures last == if n > 0 then Data(space, n) else if n == 0 then EndOfFile else Failed(errno)
      ensures n <= 0 ==> stream == old(stream) && dataReads == old(dataReads)
      ensures n > 0 ==> stream == old(stream)[n..] && dataReads == old(dataReads) + 1
      ensures forall k :: 0 <= k < dst.Length ==>
        dst[k] == if at <= k < at + n then old(stream)[k - at] else old(dst[k])
    {
      var available: nat := *;
      errno := *;
      calls := calls + 1;
      n := Min(Min(available, space), |stream|);
      if n == 0 {
        n := if errno == EPIPE then 0 else -1;
        last := if n == 0 then EndOfFile else Failed(errno);
        return;
      }
      var i := 0;
      while i < n
        invariant 0 <= i <= n
        invariant stream == old(stream) && dataReads == old(dataReads) && calls == old(calls) + 1
        invariant forall j :: 0 <= j < dst.Length && !(at <= j < at + i) ==> dst[j] == old(dst[j])
        invariant forall j :: 0 <= j < i ==> dst[at + j] == stream[j]
      {
        dst[at + i] := stream[i];
        i := i + 1;
      }
      stream := stream[n..];
      dataReads, last := dataReads + 1, Data(space, n);
    }
  }

  class CircBuf {
    const buf: array<byte>
    var head: nat
    var tail: nat

    ghost predicate Valid()
      reads this
    {
      buf.Length == CIRC_BUF_SIZE && head < CIRC_BUF_SIZE && tail < CIRC_BUF_SIZE
    }

    function Avail(): nat
      reads this
    {
      Masked(head - tail)
    }

    function Space(): nat
      reads this
    {
      Masked(tail - head - 1)
    }

    function SpaceToEnd(): nat
      requires Valid()
      reads this
    {
      Min(Space(), CIRC_BUF_SIZE - head)
    }

    /** The queued bytes, oldest first. */
    ghost function Contents(): (c: seq<byte>)
      requires Valid()
      reads this, buf
      ensures |c| == Avail() == 16383 - Space()
    {
      Window(buf[..], tail, Avail())
    }

    constructor ()
      ensures Valid() && fresh(buf) && Contents() == []
    {
      buf := new byte[CIRC_BUF_SIZE];
      head, tail := 0, 0;
    }

    /** One pass of the refill loop: a read into the contiguous free space. */
    method ReadAtHead(fd: Fd, space: nat) returns (n: int, errno: Errno, ghost got: seq<byte>)
      requires Valid() && 0 < space <= SpaceToEnd()
      modifies this`head, buf, fd
      ensures Valid() && n <= space && fd.calls == old(fd.calls) + 1
      ensures fd.last == if n > 0 then Data(space, n) else if n == 0 then EndOfFile else Failed(errno)
      ensures old(fd.stream) == got + fd.stream && Contents() == old(Contents()) + got
      ensures n <= 0 ==> got == [] && head == old(head) && fd.dataReads == old(fd.dataReads)
      ensures n > 0 ==> |got| == n && head == Masked(old(head) + n) && fd.dataReads == old(fd.dataReads) + 1
    {
      ghost var was, queued, left := buf[..], Avail(), fd.stream;
      got := [];
      n, errno := fd.Read(buf, head, space);
      if n <= 0 {
        assert buf[..] == was;
        return;
      }
      got := left[..n];
      WindowAppend(was, buf[..], tail, head, queued, got);
      head := Masked(head + n);
    }

    /** `circ_fill`. The bytes `got` from the descriptor are exactly the bytes appended.
        It reports 0 exactly when the last read delivered data, and less than it was
        asked for; EAGAIN exactly when the ring is full or the last read found nothing;
        and otherwise the end of the file, or the error. */
    method Fill(fd: Fd) returns (ret: int, errno: Errno, ghost got: seq<byte>)
      requires Valid()
      modifies this`head, buf, fd
      ensures Valid()
      ensures old(fd.stream) == got + fd.stream && Contents() == old(Contents()) + got
      ensures fd.dataReads <= old(fd.dataReads) + 2
      ensures ret == 0 || ret == -1
      ensures ret == 0 ==> got != []
      ensures ret == 0 <==> fd.calls != old(fd.calls) && fd.last.Data? && fd.last.n < fd.last.asked
      ensures ret == -1 && errno == EAGAIN <==>
              Space() == 0 || (fd.calls != old(fd.calls) && fd.last == Failed(EAGAIN))
      ensures ret == -1 && errno != EAGAIN <==> fd.calls != old(fd.calls) && Broken(fd.last)
      ensures ret == -1 && errno != EAGAIN ==> errno == if fd.last.EndOfFile? then EPIPE else fd.last.errno
      ensures old(Space()) == 0 ==> ret == -1 && errno == EAGAIN && got == []
      ensures fd.calls == old(fd.calls) <==> old(Space()) == 0
    {
      ghost var room := Space();
      got := [];
      errno := EAGAIN;
      while true
        invariant Valid()
        invariant old(fd.stream) == got + fd.stream && Contents() == old(Contents()) + got
        invariant 0 <= fd.dataReads - old(fd.dataReads) == fd.calls - old(fd.calls) <= 2
        invariant fd.calls == old(fd.calls) ==> Space() == room && got == []
        invariant fd.calls != old(fd.calls) ==> fd.last.Data? && fd.last.n == fd.last.asked
        invariant fd.calls == old(fd.calls) + 1 ==> room > 0 && (head == 0 || Space() == 0)
        invariant fd.calls == old(fd.calls) + 2 ==> room > 0 && Space() == 0
        decreases Space()
      {
        var space := SpaceToEnd();
        if space == 0 {
          return -1, EAGAIN, got;
        }
        ghost var more;
        var n;
        n, errno, more := ReadAtHead(fd, space);
        ConcatAssoc(got, more, fd.stream);
        ConcatAssoc(old(Contents()), got, more);
        got := got + more;
        if n == 0 {
          return -1, EPIPE, got;
        } else if n < 0 {
          return -1, errno, got;
        }
        if n != space {
          return 0, errno, got;
        }
      }
    }

    /** `circ_peak`: copies `len` bytes without consuming them, or reports 0. */
    method Peak(len: nat) returns (n: nat, p: seq<byte>)
      requires Valid()
      ensures len <= Avail() ==> n == len && p == Contents()[..len]
      ensures len > Avail() ==> n == 0
    {
      ghost var c := Contents();
      var at, left := tail, len;
      p := [];
      while left > 0
        invariant 0 <= left <= len && |p| == len - left <= |c|
        invariant at == Slot(tail, |p|)
        invariant p == c[..|p|]
      {
        left := left - 1;
        if at == head {
          return 0, p;
        }
        assert buf[at] == c[|p|];
        p := p + [buf[at]];
        at := Masked(at + 1);
      }
      n := |p|;
    }

    /** `circ_read`: removes and returns the first `len` bytes. Asked for more
        than is queued it reports 0, having emptied the ring. */
    method Read(len: nat) returns (n: nat, p: seq<byte>)
      requires Valid()
      modifies this`tail
      ensures Valid()
      ensures len <= old(Avail()) ==> n == |p| == len && p + Contents() == old(Contents())
      ensures len > old(Avail()) ==> n == 0 && Contents() == []
    {
      ghost var start, n0 := tail, Avail();
      var left := len;
      p := [];
      while left > 0
        invariant Valid() && 0 <= left <= len && |p| == len - left <= n0
        invariant tail == Slot(start, |p|) && p == Window(buf[..], start, |p|)
      {
        left := left - 1;
        if tail == head {
          return 0, p;
        }
        WindowSnoc(buf[..], start, |p|);
        p := p + [buf[tail]];
        tail := Masked(tail + 1);
      }
      n := |p|;
      WindowSplit(buf[..], start, n0, n);
    }
  }
}
