/** The step that both receive loops share: `handle_stdin` of `cdba-server.c` and
    `handle_message` of `cdba.c` start an iteration with the same lines. */
module Framing {
  import opened Bytes
  import opened Wire
  import opened CircBuf

  /** Takes the first frame out of the ring if all of it is there. */
  method NextFrame(buf: CircBuf) returns (msg: Option<Frame>)
    requires buf.Valid()
    modifies buf`tail
    ensures buf.Valid()
    ensures var c := old(buf.Contents());
            if Complete(c) then msg == Some(FirstFrame(c)) && buf.Contents() == AfterFirst(c)
            else msg == None && buf.Contents() == c
  {
    ghost var c := buf.Contents();
    var n, hdr := buf.Peak(HDR_SIZE);
    if n != HDR_SIZE {
      return None;
    }
    var len := LenField(hdr);
    assert hdr[1] == c[1] && hdr[2] == c[2];
    if buf.Avail() < HDR_SIZE + len {
      return None;
    }
    var p;
    n, p := buf.Read(HDR_SIZE + len);
    assert p == c[..HDR_SIZE + len];
    assert buf.Contents() == c[HDR_SIZE + len..];
    msg := Some(Frame(p[0], p[HDR_SIZE..]));
  }
}
