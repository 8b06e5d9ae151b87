/**
 The kernel's end of a connected socket, and the two transfer loops of protocol.c over it.
 The peer and the network are the environment: what has arrived, how much one recv or send moves
 and when a call would block are chosen by the socket, anew at every call.
 */
module Protocol {
  import opened Bytes

  /** What one recv or send reports: a positive count, errno == EWOULDBLOCK, end of stream, or another errno. */
  datatype Io = Count(count: nat) | WouldBlock | EndOfStream | Fault

  /** The return value of read_data and send_data: a count, or -1. */
  datatype Transfer = Moved(n: nat) | Failed

  class Socket {
    var queue: seq<byte>   // arrived and not yet read
    var wire: seq<byte>    // sent by the peer and still under way
    var taken: seq<byte>   // everything recv has returned
    var sent: seq<byte>    // everything send has accepted
    var stalls: nat        // how many more times send may find its buffer full
    const blocking: bool
    const closing: bool    // the peer shuts its end down after the bytes in `wire`
    const reliable: bool   // no call fails with an errno other than EWOULDBLOCK

    constructor (coming: seq<byte>, stalls: nat, blocking: bool, closing: bool, reliable: bool)
      ensures taken == [] && sent == [] && queue == [] && wire == coming
      ensures this.stalls == stalls && this.blocking == blocking && this.closing == closing && this.reliable == reliable
    {
      queue, wire, taken, sent := [], coming, [], [];
      this.stalls, this.blocking, this.closing, this.reliable := stalls, blocking, closing, reliable;
    }

    ghost function Pending(): seq<byte>
      reads this
    {
      queue + wire
    }

    /** Everything the peer has put into the connection so far. */
    ghost function History(): seq<byte>
      reads this
    {
      taken + Pending()
    }

    /** Nothing is left to read, now or, after a hang-up, ever. */
    ghost predicate Dry()
      reads this
    {
      queue == [] || (closing && Pending() == [])
    }

    /** Bytes keep arriving while the server runs. */
    method Arrive(atLeast: nat)
      requires atLeast <= |wire|
      modifies this`queue, this`wire
      ensures Pending() == old(Pending()) && old(queue) <= queue
      ensures atLeast <= |queue|
    {
      var k: nat :| atLeast <= k <= |wire|;
      queue, wire := queue + wire[..k], wire[k..];
    }

    method Recv(want: nat) returns (r: Io, data: seq<byte>)
      requires 0 < want && (blocking ==> Pending() != [] || closing)
      modifies this`queue, this`wire, this`taken
      ensures taken == old(taken) + data && data + Pending() == old(Pending())
      ensures r.Count? <==> data != []
      ensures r.Count? ==> |data| == r.count <= want
      ensures r.WouldBlock? ==> !blocking && queue == []
      ensures r.EndOfStream? ==> closing && Pending() == []
      ensures reliable ==> !r.Fault?
    {
      data := [];
      var fault: bool :| fault ==> !reliable;
      Arrive(if blocking && queue == [] && wire != [] then 1 else 0);
      if fault {
        r := Fault;
      } else if queue == [] {
        if wire == [] && closing {
          r := EndOfStream;
        } else {
          r := WouldBlock;
        }
      } else {
        var n: nat :| 1 <= n <= |queue| && n <= want;
        r, data, taken, queue := Count(n), queue[..n], taken + queue[..n], queue[n..];
      }
    }

    method Send(data: seq<byte>) returns (r: Io)
      requires data != []
      modifies this`sent, this`stalls
      ensures r.Count? ==> 1 <= r.count <= |data| && sent == old(sent) + data[..r.count] && stalls == old(stalls)
      ensures r.WouldBlock? ==> !blocking && stalls < old(stalls)
      ensures !r.Count? ==> sent == old(sent) && stalls <= old(stalls)
      ensures !r.EndOfStream? && (reliable ==> !r.Fault?)
    {
      var full: bool :| full ==> !blocking && 0 < stalls;
      var fault: bool :| fault ==> !reliable;
      if fault {
        r := Fault;
      } else if full {
        stalls := stalls - 1;
        r := WouldBlock;
      } else {
        var n: nat :| 1 <= n <= |data|;
        sent := sent + data[..n];
        r := Count(n);
      }
    }
  }

  /** recv(sock, buffer + at, want): the socket's choice of bytes lands in the buffer. */
  method RecvInto(sock: Socket, buffer: array<byte>, at: nat, want: nat) returns (io: Io, ghost data: seq<byte>)
    requires 0 < want && at + want <= buffer.Length
    requires sock.blocking ==> sock.Pending() != [] || sock.closing
    modifies sock`queue, sock`wire, sock`taken, buffer
    ensures sock.taken == old(sock.taken) + data && data + sock.Pending() == old(sock.Pending())
    ensures |data| == (if io.Count? then io.count else 0) <= want && (io.Count? ==> 0 < io.count)
    ensures io.WouldBlock? ==> !sock.blocking && sock.queue == []
    ensures io.EndOfStream? ==> sock.closing && sock.Pending() == []
    ensures sock.reliable ==> !io.Fault?
    ensures buffer[..] == Store(old(buffer[..]), at, data)
  {
    var bytes;
    io, bytes := sock.Recv(want);
    data := bytes;
    MemCopy(buffer, at, bytes);
  }

  /**
   read_data. Whatever the recv calls return one by one, the bytes taken from the socket lie in the
   buffer in order; the count is short only when the socket has run dry or the peer has hung up.
   */
  method ReadData(sock: Socket, buffer: array<byte>, at: nat, bytesToRead: nat) returns (r: Transfer)
    requires at + bytesToRead <= buffer.Length
    requires sock.blocking ==> sock.closing || bytesToRead <= |sock.Pending()|
    modifies sock`queue, sock`wire, sock`taken, buffer
    ensures sock.History() == old(sock.History()) && old(sock.taken) <= sock.taken
    ensures |Since(old(sock.taken), sock.taken)| <= bytesToRead
    ensures sock.reliable ==> r.Moved?
    ensures buffer[..] == Store(old(buffer[..]), at, Since(old(sock.taken), sock.taken))
    ensures r.Moved? ==>
              && r.n == |Since(old(sock.taken), sock.taken)|
              && |sock.Pending()| + r.n == |old(sock.Pending())|
              && (r.n < bytesToRead ==> (!sock.blocking && sock.queue == []) || (sock.closing && sock.Pending() == []))
  {
    ghost var was, past, coming := buffer[..], sock.taken, sock.Pending();
    assert Store(was, at, []) == was;
    hide Store;
    var readTotal := 0;
    var bytesLeft := bytesToRead;
    ghost var piece: seq<byte> := [];
    while readTotal < bytesToRead
      invariant readTotal + bytesLeft == bytesToRead && |piece| == readTotal
      invariant sock.taken == past + piece && piece + sock.Pending() == coming
      invariant buffer[..] == Store(was, at, piece)
    {
      var io, data := RecvInto(sock, buffer, at + readTotal, bytesLeft);
      StoreTwice(was, at, piece, data);
      assert piece + data + sock.Pending() == coming;
      assert past + piece + data == past + (piece + data);
      piece := piece + data;
      match io {
        case WouldBlock =>
          return Moved(readTotal);
        case Fault =>
          return Failed;
        case EndOfStream =>
          break;
        case Count(n) =>
          readTotal := readTotal + n;
          bytesLeft := bytesToRead - readTotal;
      }
    }
    return Moved(readTotal);
  }

  /** send_data. The bytes it reports are exactly the ones the socket accepted, in buffer order. */
  method SendData(sock: Socket, buffer: array<byte>, from: nat, bytesToSend: nat) returns (r: Transfer)
    requires from + bytesToSend <= buffer.Length
    modifies sock`sent, sock`stalls
    ensures sock.stalls <= old(sock.stalls) && (sock.reliable ==> r.Moved?)
    ensures r.Moved? ==>
              && r.n <= bytesToSend
              && sock.sent == old(sock.sent) + buffer[from..from + r.n]
              && (r.n < bytesToSend ==> !sock.blocking && sock.stalls < old(sock.stalls))
    ensures old(sock.sent) <= sock.sent
  {
    var sentTotal := 0;
    var bytesLeft := bytesToSend;
    while sentTotal < bytesToSend
      invariant sentTotal + bytesLeft == bytesToSend
      invariant sock.sent == old(sock.sent) + buffer[from..from + sentTotal]
      invariant sock.stalls <= old(sock.stalls)
    {
      var data := buffer[from + sentTotal..from + sentTotal + bytesLeft];
      var io := sock.Send(data);
      match io {
        case WouldBlock => return Moved(sentTotal);
        case Fault => return Failed;
        case EndOfStream => assert false;
        case Count(n) =>
          assert buffer[from..from + (sentTotal + n)] == buffer[from..from + sentTotal] + data[..n];
          sentTotal := sentTotal + n;
          bytesLeft := bytesToSend - sentTotal;
      }
    }
    return Moved(sentTotal);
  }
}
