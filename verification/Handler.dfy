/** handle_request of the select and epoll servers (the two bodies are the same), over a socket. */
module Handler {
  import opened Bytes
  import F = Framing
  import S = Segmentation
  import opened Protocol

  /** How an iteration of the do-while loop ends. */
  datatype Going = On | Dry | Done | Broken

  /** How a call ends; `total` is the transferred count written to the log. */
  datatype Result = StillOpen | Closed(total: nat) | Aborted

  class Request {
    var transferred: nat
    const partial: array<byte>   // partial_msg_size
    var msgSize: nat
    var msg: array?<byte>

    constructor ()
      ensures Shape() && View() == F.FRESH && msg == null && fresh(partial)
    {
      transferred, msgSize, msg := 0, 0, null;
      partial := new byte[4](_ => 0);
    }

    ghost predicate Shape()
      reads this
    {
      partial.Length == 4 && msg != partial
    }

    ghost function View(): F.Request
      reads this, partial, msg
    {
      F.Request(transferred, partial[..], msgSize, if msg == null then None else Some(msg[..]))
    }

    /** The connection as Framing sees it. */
    ghost function Session(sock: Socket, open: bool): F.Session
      reads this, partial, msg, sock
    {
      F.Session(sock.taken, View(), sock.sent, open)
    }

    ghost predicate Ready(sock: Socket, n: nat)
      reads this, partial, msg, sock
    {
      && Shape() && !sock.blocking
      && F.Valid(Session(sock, true), n) && F.FrameStream(sock.History(), n)
    }

    /** The retry loop around send_data: the message goes out once, in order. */
    method EchoBack(sock: Socket, buffer: array<byte>, size: nat) returns (ok: bool)
      requires size <= buffer.Length
      modifies sock`sent, sock`stalls
      ensures sock.stalls <= old(sock.stalls)
      ensures ok ==> sock.sent == old(sock.sent) + buffer[..size]
      ensures sock.reliable ==> ok
      ensures old(sock.sent) <= sock.sent
    {
      var sendBytesLeft := size;
      var first := true;
      while first || sendBytesLeft > 0
        invariant 0 <= sendBytesLeft <= size
        invariant sock.sent == old(sock.sent) + buffer[..size - sendBytesLeft]
        invariant sock.stalls <= old(sock.stalls)
        decreases first, sendBytesLeft, sock.stalls
      {
        var gone := size - sendBytesLeft;
        var r := SendData(sock, buffer, gone, sendBytesLeft);
        if r.Failed? {
          return false;
        }
        assert buffer[..gone + r.n] == buffer[..gone] + buffer[gone..gone + r.n];
        sendBytesLeft := sendBytesLeft - r.n;
        first := false;
      }
      return true;
    }

    /** What an iteration reports, in Framing's terms. */
    ghost function Outcome(g: Going, frame: seq<byte>): F.Iteration
      requires g != Broken
      reads this, partial, msg
    {
      match g
      case Dry => F.Blocked(View())
      case On => if frame == [] then F.Header(View()) else F.Echo(View(), frame)
      case Done => F.Finished(View())
    }

    /** The branch that reads a message size. `junk` is what the allocator's memory happens to hold. */
    method ReadSize(sock: Socket, junk: seq<byte>) returns (g: Going)
      requires Shape() && !sock.blocking && F.Sound(View()) && F.Offset(View()) < 4
      modifies this, partial, sock
      ensures Shape() && sock.History() == old(sock.History()) && old(sock.taken) <= sock.taken
      ensures sock.sent == old(sock.sent) && sock.stalls == old(sock.stalls)
      ensures msg == old(msg) || fresh(msg)
      ensures sock.reliable ==> g != Broken
      ensures g == Dry ==> sock.Dry()
      ensures g != Broken ==>
                var piece := Since(old(sock.taken), sock.taken);
                && |piece| <= old(F.Wanted(View()))
                && |sock.Pending()| + |piece| == |old(sock.Pending())|
                && Outcome(g, []) == F.Absorb(old(View()), piece, junk)
    {
      var offset := transferred % (msgSize + 4);
      var bytesLeft := 4 - offset;
      var r := ReadData(sock, partial, offset, bytesLeft);
      if r.Failed? {
        return Broken;
      }
      transferred := transferred + r.n;
      if r.n < bytesLeft {
        return Dry;
      }
      msgSize := U32(partial[..]);
      if msgSize == 0 {
        return Done;
      }
      if msg == null {
        msg := new byte[msgSize](i requires i >= 0 => if i < |junk| then junk[i] else 0);
        assert msg[..] == Malloc(msgSize, junk);
      }
      return On;
    }

    /** The branch that reads message content; a full body is echoed. */
    method ReadBody(sock: Socket, junk: seq<byte>) returns (g: Going, ghost frame: seq<byte>)
      requires Shape() && !sock.blocking && F.Sound(View()) && 4 <= F.Offset(View()) && 0 < msgSize
      modifies this, msg, sock
      ensures Shape() && sock.History() == old(sock.History()) && old(sock.taken) <= sock.taken
      ensures msg == old(msg) && sock.stalls <= old(sock.stalls) && old(sock.sent) <= sock.sent
      ensures sock.reliable ==> g != Broken
      ensures g == Dry ==> sock.Dry()
      ensures g != Broken ==>
                var piece := Since(old(sock.taken), sock.taken);
                && |piece| <= old(F.Wanted(View()))
                && |sock.Pending()| + |piece| == |old(sock.Pending())|
                && (g == On <==> frame != []) && g != Done
                && Outcome(g, frame) == F.Absorb(old(View()), piece, junk)
                && sock.sent == old(sock.sent) + frame
    {
      frame := [];
      var offset := transferred % (msgSize + 4) - 4;
      var bytesLeft := msgSize - offset;
      var r := ReadData(sock, msg, 0, bytesLeft);
      if r.Failed? {
        return Broken, [];
      }
      transferred := transferred + r.n;
      if r.n < bytesLeft {
        assert sock.sent + [] == sock.sent;
        return Dry, [];
      }
      var ok := EchoBack(sock, msg, msgSize);
      if !ok {
        return Broken, [];
      }
      return On, msg[..msgSize];
    }

    /** One pass through the loop body: exactly Framing's Apply on the bytes it read. */
    method LoopBody(sock: Socket, junk: seq<byte>) returns (g: Going)
      requires Shape() && !sock.blocking && F.Sound(View()) && (4 <= F.Offset(View()) ==> 0 < msgSize)
      modifies this, partial, msg, sock
      ensures Shape() && sock.History() == old(sock.History()) && old(sock.taken) <= sock.taken
      ensures sock.stalls <= old(sock.stalls) && (msg == old(msg) || fresh(msg))
      ensures sock.reliable ==> g != Broken
      ensures g == Dry ==> sock.Dry()
      ensures g != Broken ==>
                var piece := Since(old(sock.taken), sock.taken);
                && |piece| <= old(F.Wanted(View()))
                && |sock.Pending()| + |piece| == |old(sock.Pending())|
                && (g == Dry <==> |piece| < old(F.Wanted(View())))
                && Session(sock, g != Done) == F.Apply(old(Session(sock, true)), piece, junk)
    {
      if transferred % (msgSize + 4) < 4 {
        g := ReadSize(sock, junk);
      } else {
        ghost var frame;
        g, frame := ReadBody(sock, junk);
      }
    }

    method Iterate(sock: Socket, junk: seq<byte>, ghost n: nat) returns (g: Going)
      requires Ready(sock, n)
      modifies this, partial, msg, sock
      ensures Shape() && sock.History() == old(sock.History()) && old(sock.taken) <= sock.taken
      ensures sock.stalls <= old(sock.stalls) && (msg == old(msg) || fresh(msg))
      ensures g == On || g == Done ==> |sock.Pending()| < |old(sock.Pending())|
      ensures g == Done ==> F.Complete(sock.taken, n)
      ensures sock.reliable ==> g != Broken
      ensures g == Dry ==> sock.Dry()
      ensures g != Broken ==>
                Iterated(sock, old(Session(sock, true)), Since(old(sock.taken), sock.taken), g, junk, n)
    {
      ghost var was := Session(sock, true);
      SessionFacts(was, n);
      hide F.Valid, F.FrameStream, F.Complete, F.Wanted, F.Sound, F.Apply, F.Offset;
      g := LoopBody(sock, junk);
      if g != Broken {
        ghost var piece := Since(was.past, sock.taken);
        assert sock.History() == (was.past + piece) + sock.Pending();
        F.FrameStreamPrefix(was.past + piece, sock.Pending(), n);
        F.Advance(was, piece, n, junk);
        if g == Done { ClosedIsComplete(Session(sock, false), n); }
      }
    }

    static lemma SessionFacts(s: F.Session, n: nat)
      requires F.Valid(s, n) && s.open
      ensures 1 <= n && F.Sound(s.req) && 1 <= F.Wanted(s.req) && (4 <= F.Offset(s.req) ==> 0 < s.req.msgSize)
    {
      F.AtIsSound(s.req, s.past, n);
    }

    static lemma ClosedIsComplete(s: F.Session, n: nat)
      requires F.Valid(s, n) && !s.open
      ensures F.Complete(s.past, n)
    {
    }

    /** cleanup: the slot is zeroed for the next client. */
    method Reset()
      requires Shape()
      modifies this, partial
      ensures Shape() && View() == F.FRESH && msg == null
    {
      msg := null;
      msgSize := 0;
      forall i | 0 <= i < 4 {
        partial[i] := 0;
      }
      transferred := 0;
    }

    /**
     handle_request. The call reads until the socket runs dry or the session ends; what it read
     alone decides what it does, as Drain says. It terminates because every iteration but the last
     takes at least one byte, and every retry of a send uses up one of the socket's stalls.
     */
    method Handle(sock: Socket, junk: seq<byte>, ghost n: nat) returns (result: Result)
      requires Ready(sock, n)
      modifies this, partial, msg, sock
      ensures Shape() && sock.History() == old(sock.History()) && old(sock.taken) <= sock.taken
      ensures msg == null || msg == old(msg) || fresh(msg)
      ensures !result.Aborted? ==>
                var fed := Since(old(sock.taken), sock.taken);
                F.FrameStream(old(sock.taken) + fed, n) &&
                var t := S.Drain(old(Session(sock, true)), fed, n, junk);
                && sock.sent == t.sent
                && t.open == result.StillOpen?
                && (if t.open then View() == t.req else result == Closed(t.req.transferred) && View() == F.FRESH)
      ensures result.StillOpen? ==> Ready(sock, n) && sock.Dry()
      ensures result.Closed? ==> sock.Pending() == [] && F.Complete(sock.taken, n)
      ensures result.Aborted? ==> View() == F.FRESH && !sock.reliable
    {
      hide F.Apply, F.Complete, F.Valid, F.FrameStream, F.Sound, F.Wanted, S.Drain;
      ghost var start, was := Session(sock, true), Session(sock, true);
      ghost var pieces: seq<seq<byte>> := [];
      var g := Iterate(sock, junk, n);
      while g == On
        invariant Shape() && !sock.blocking
        invariant sock.History() == old(sock.History()) && old(sock.taken) <= sock.taken
        invariant msg == old(msg) || fresh(msg)
        invariant g == Done ==> F.Complete(sock.taken, n)
        invariant sock.reliable ==> g != Broken
        invariant g == Dry ==> sock.Dry()
        invariant S.Feedable(start, pieces, junk) && S.AllFull(start, pieces, junk)
        invariant S.Feed(start, pieces, junk) == was
        invariant was.open && F.Valid(was, n)
        invariant g != Broken ==> was.past <= sock.taken && Iterated(sock, was, Since(was.past, sock.taken), g, junk, n)
        decreases g == On, |sock.Pending()|
      {
        ghost var piece := Since(was.past, sock.taken);
        S.FeedSnoc(start, pieces, piece, junk);
        S.AllFullSnoc(start, pieces, piece, junk);
        pieces, was := pieces + [piece], Session(sock, true);
        g := Iterate(sock, junk, n);
      }
      if g == Broken {
        Reset();
        return Aborted;
      }
      ghost var piece := Since(was.past, sock.taken);
      if g == Dry {
        S.CallRunsDry(start, pieces, was, piece, sock.Pending(), junk, n);
        return StillOpen;
      }
      S.CallFinishes(start, pieces, was, piece, sock.Pending(), junk, n);
      var total := transferred;
      Reset();
      return Closed(total);
    }

    /** What Iterate says about the piece it read. */
    ghost predicate Iterated(sock: Socket, was: F.Session, piece: seq<byte>, g: Going, junk: seq<byte>, n: nat)
      reads this, partial, msg, sock
    {
      && was.open && F.Sound(was.req) && |piece| <= F.Wanted(was.req)
      && (g == Dry <==> |piece| < F.Wanted(was.req))
      && Session(sock, g != Done) == F.Apply(was, piece, junk)
      && F.Valid(Session(sock, g != Done), n)
    }
  }
}
