/**
 The resumable request parser of the readiness-driven servers, as a value: one iteration of the
 do-while loop in handle_request is `Take`, a call of handle_request is `Drain`.
 The parser finds its place in the byte stream from transferred % (msg_size + 4) alone.
 */
module Framing {
  import opened Bytes

  /** epoll_server_request / select_server_request; `msg` is the malloc'ed buffer, if any. */
  datatype Request = Request(transferred: nat, partial: seq<byte>, msgSize: nat, msg: Option<seq<byte>>)

  /** A slot that is zeroed, either by memset at start or by the cleanup path. */
  const FRESH := Request(0, [0, 0, 0, 0], 0, None)

  /** How one read_data result leaves the loop iteration. */
  datatype Iteration =
    | Blocked(req: Request)                  // a short read: would_block = 1
    | Header(req: Request)                   // a complete non-zero size
    | Echo(req: Request, frame: seq<byte>)   // a complete body, to be sent back
    | Finished(req: Request)                 // the zero size: goto cleanup

  function Offset(r: Request): nat {
    r.transferred % (r.msgSize + 4)
  }

  /** bytes_left of the iteration. It is never zero, so no iteration is idle. */
  function Wanted(r: Request): (w: nat)
    ensures 1 <= w
  {
    if Offset(r) < 4 then 4 - Offset(r) else r.msgSize + 4 - Offset(r)
  }

  /** The memory model of the request: while a body is read the buffer exists and has room for it. */
  predicate Sound(r: Request) {
    && |r.partial| == 4
    && (4 <= Offset(r) ==> r.msg.Some? && r.msgSize <= |r.msg.value|)
  }

  /** One iteration, after read_data returned `piece`. A resumed body is stored at the start of `msg` again. */
  function Absorb(r: Request, piece: seq<byte>, junk: seq<byte>): Iteration
    requires Sound(r) && |piece| <= Wanted(r)
  {
    if Offset(r) < 4 then
      var r1 := r.(transferred := r.transferred + |piece|, partial := Store(r.partial, Offset(r), piece));
      if |piece| < Wanted(r) then Blocked(r1)
      else
        var size := U32(r1.partial);
        var r2 := r1.(msgSize := size);
        if size == 0 then Finished(r2)
        else if r2.msg.None? then Header(r2.(msg := Some(Malloc(size, junk))))
        else Header(r2)
    else
      var buffer := Store(r.msg.value, 0, piece);
      var r1 := r.(transferred := r.transferred + |piece|, msg := Some(buffer));
      if |piece| < Wanted(r) then Blocked(r1) else Echo(r1, buffer[..r.msgSize])
  }

  // ---------------------------------------------------------------------------------------------
  // Streams in which every message has the same size n, as the client program produces them
  // ---------------------------------------------------------------------------------------------

  /** The j-th size field, once it is complete, is n, or it is 0 and nothing follows. */
  ghost predicate HeaderOk(s: seq<byte>, n: nat, j: nat) {
    j * (n + 4) + 4 <= |s| ==>
      var h := U32(s[j * (n + 4)..j * (n + 4) + 4]);
      h == n || (h == 0 && |s| == j * (n + 4) + 4)
  }

  ghost predicate FrameStream(s: seq<byte>, n: nat) {
    forall j: nat :: HeaderOk(s, n, j)
  }

  /** The stream ends with its zero size. */
  predicate Complete(s: seq<byte>, n: nat) {
    4 <= |s| && |s| % (n + 4) == 4 && U32(s[|s| - 4..]) == 0
  }

  function Phase(len: nat, n: nat): (o: nat)
    ensures o < n + 4
  {
    len % (n + 4)
  }

  function Frames(len: nat, n: nat): nat {
    len / (n + 4)
  }

  lemma PhaseAndFrames(len: nat, n: nat)
    ensures len == Frames(len, n) * (n + 4) + Phase(len, n)
  {
  }

  lemma PhaseStep(len: nat, p: nat, n: nat)
    requires Phase(len, n) + p <= n + 4
    ensures Phase(len, n) + p < n + 4 ==> Phase(len + p, n) == Phase(len, n) + p && Frames(len + p, n) == Frames(len, n)
    ensures Phase(len, n) + p == n + 4 ==> Phase(len + p, n) == 0 && Frames(len + p, n) == Frames(len, n) + 1
  {
    var m := n + 4;
    var j, o := len / m, len % m;
    assert len == j * m + o;
    if o + p < m {
      DivModOf(j, m, o + p);
    } else {
      assert (j + 1) * m == j * m + m;
      DivModOf(j + 1, m, 0);
    }
  }

  lemma FrameStreamPrefix(s: seq<byte>, t: seq<byte>, n: nat)
    requires FrameStream(s + t, n)
    ensures FrameStream(s, n)
    ensures t != [] && 1 <= n ==> !Complete(s, n)
  {
    forall j: nat
      ensures HeaderOk(s, n, j)
      ensures t != [] && 1 <= n && j * (n + 4) + 4 == |s| ==> U32(s[j * (n + 4)..]) == n
    {
      assert HeaderOk(s + t, n, j);
      if j * (n + 4) + 4 <= |s| {
        assert s[j * (n + 4)..j * (n + 4) + 4] == (s + t)[j * (n + 4)..j * (n + 4) + 4];
        if j * (n + 4) + 4 == |s| {
          assert s[j * (n + 4)..j * (n + 4) + 4] == s[j * (n + 4)..];
        }
      }
    }
    if t != [] && 1 <= n && 4 <= |s| && Phase(|s|, n) == 4 {
      var j := Frames(|s|, n);
      assert |s| == j * (n + 4) + 4;
      assert HeaderOk(s, n, j);
      assert s[j * (n + 4)..] == s[|s| - 4..];
    }
  }

  // ---------------------------------------------------------------------------------------------
  // Sessions
  // ---------------------------------------------------------------------------------------------

  /** One connection as its server sees it: everything read so far, the request, everything echoed so far. */
  datatype Session = Session(past: seq<byte>, req: Request, sent: seq<byte>, open: bool)

  const NEW := Session([], FRESH, [], true)

  /** The request of a session that has read `past` and is still open. */
  ghost predicate At(r: Request, past: seq<byte>, n: nat) {
    && r.transferred == |past|
    && |r.partial| == 4
    && r.msgSize == (if |past| < 4 then 0 else n)
    && (if |past| < 4 then r.msg.None? else r.msg.Some? && |r.msg.value| == n)
    && (Phase(|past|, n) < 4 ==> r.partial[..Phase(|past|, n)] == past[|past| - Phase(|past|, n)..])
  }

  ghost predicate Valid(s: Session, n: nat) {
    && 1 <= n < U32_LIMIT
    && FrameStream(s.past, n)
    && |s.sent| == Frames(|s.past|, n) * n
    && s.open == !Complete(s.past, n)
    && (s.open ==> At(s.req, s.past, n))
    && (!s.open ==> s.req.transferred == |s.past|)
  }

  lemma NewIsValid(n: nat)
    requires 1 <= n < U32_LIMIT
    ensures Valid(NEW, n)
  {
    DivModOf(0, n + 4, 0);
    forall j: nat ensures HeaderOk([], n, j) {
      assert 0 <= j * (n + 4);
    }
  }

  lemma AtIsSound(r: Request, past: seq<byte>, n: nat)
    requires 1 <= n && At(r, past, n)
    ensures Sound(r) && Offset(r) == Phase(|past|, n)
    ensures Wanted(r) == if Phase(|past|, n) < 4 then 4 - Phase(|past|, n) else n + 4 - Phase(|past|, n)
  {
    if |past| < 4 {
      DivModOf(0, 4, |past|);
      DivModOf(0, n + 4, |past|);
    }
  }

  /** One loop iteration on a session; a finished body is echoed in full. */
  function Apply(s: Session, piece: seq<byte>, junk: seq<byte>): Session
    requires s.open && Sound(s.req) && |piece| <= Wanted(s.req)
  {
    match Absorb(s.req, piece, junk)
    case Blocked(r) => Session(s.past + piece, r, s.sent, true)
    case Header(r) => Session(s.past + piece, r, s.sent, true)
    case Echo(r, frame) => Session(s.past + piece, r, s.sent + frame, true)
    case Finished(r) => Session(s.past + piece, r, s.sent, false)
  }

  /** Header bytes: the resumed size field is stored after its first part, so it decodes correctly. */
  lemma HeaderBytes(s: Session, piece: seq<byte>, n: nat)
    requires Valid(s, n) && s.open && Phase(|s.past|, n) < 4 && Phase(|s.past|, n) + |piece| <= 4
    ensures Sound(s.req) && Offset(s.req) == Phase(|s.past|, n)
    ensures var o := Phase(|s.past|, n);
            var now := s.past + piece;
            o + |piece| <= |now| &&
            Store(s.req.partial, o, piece)[..o + |piece|] == now[|now| - (o + |piece|)..]
  {
    hide Phase, Frames, FrameStream, Complete, Store;
    AtIsSound(s.req, s.past, n);
    ShortPast(|s.past|, n);
    Resumed(s.req.partial, s.past, piece, Phase(|s.past|, n));
  }

  /** A field resumed after its first o bytes. */
  lemma Resumed(partial: seq<byte>, past: seq<byte>, piece: seq<byte>, o: nat)
    requires o + |piece| <= |partial| && o <= |past| && partial[..o] == past[|past| - o..]
    ensures var now := past + piece;
            Store(partial, o, piece)[..o + |piece|] == now[|now| - (o + |piece|)..]
  {
    var now := past + piece;
    assert Store(partial, o, piece)[..o + |piece|] == partial[..o] + piece;
    assert now[|now| - (o + |piece|)..] == past[|past| - o..] + piece;
  }

  /** The decoded size is the one the stream carries: n, or 0 exactly when the stream is complete. */
  lemma HeaderValue(s: Session, piece: seq<byte>, n: nat)
    requires Valid(s, n) && s.open && Phase(|s.past|, n) < 4 && Phase(|s.past|, n) + |piece| == 4
    requires FrameStream(s.past + piece, n)
    ensures Sound(s.req) && Offset(s.req) == Phase(|s.past|, n)
    ensures var h := U32(Store(s.req.partial, Phase(|s.past|, n), piece));
            h == (if Complete(s.past + piece, n) then 0 else n)
  {
    assert 1 <= n;
    hide Valid, FrameStream, Frames, Phase, Sound, Complete, U32;
    HeaderBytes(s, piece, n);
    PhaseStep(|s.past|, |piece|, n);
    var now := s.past + piece;
    LastHeader(now, n);
    var p := Store(s.req.partial, Phase(|s.past|, n), piece);
    assert p[..4] == p;
  }

  lemma LastHeader(s: seq<byte>, n: nat)
    requires 1 <= n && FrameStream(s, n) && Phase(|s|, n) == 4
    ensures 4 <= |s| && U32(s[|s| - 4..]) == if Complete(s, n) then 0 else n
  {
    ShortPast(|s|, n);
    PhaseAndFrames(|s|, n);
    var j := Frames(|s|, n);
    assert s[j * (n + 4)..j * (n + 4) + 4] == s[|s| - 4..];
    assert HeaderOk(s, n, j);
  }

  lemma AdvanceWithinHeader(s: Session, piece: seq<byte>, n: nat, junk: seq<byte>)
    requires Valid(s, n) && s.open && FrameStream(s.past + piece, n)
    requires Phase(|s.past|, n) + |piece| < 4
    ensures Sound(s.req) && |piece| <= Wanted(s.req)
    ensures Valid(Apply(s, piece, junk), n)
  {
    AtIsSound(s.req, s.past, n);
    PhaseStep(|s.past|, |piece|, n);
    HeaderBytes(s, piece, n);
    ShortPast(|s.past|, n);
    ShortPast(|s.past + piece|, n);
  }

  lemma AdvanceToBody(s: Session, piece: seq<byte>, n: nat, junk: seq<byte>)
    requires Valid(s, n) && s.open && FrameStream(s.past + piece, n)
    requires Phase(|s.past|, n) < 4 && Phase(|s.past|, n) + |piece| == 4
    ensures Sound(s.req) && |piece| <= Wanted(s.req)
    ensures Valid(Apply(s, piece, junk), n)
  {
    hide Complete, FrameStream, U32, Phase, Frames;
    AtIsSound(s.req, s.past, n);
    PhaseStep(|s.past|, |piece|, n);
    ShortPast(|s.past|, n);
    HeaderValue(s, piece, n);
    var r := Apply(s, piece, junk).req;
    assert !Complete(s.past + piece, n) ==> At(r, s.past + piece, n);
  }

  lemma AdvanceWithinBody(s: Session, piece: seq<byte>, n: nat, junk: seq<byte>)
    requires Valid(s, n) && s.open && FrameStream(s.past + piece, n)
    requires 4 <= Phase(|s.past|, n) && Phase(|s.past|, n) + |piece| < n + 4
    ensures Sound(s.req) && |piece| <= Wanted(s.req)
    ensures Valid(Apply(s, piece, junk), n)
  {
    AtIsSound(s.req, s.past, n);
    PhaseStep(|s.past|, |piece|, n);
    ShortPast(|s.past|, n);
    if piece == [] { assert s.past + piece == s.past; }
  }

  lemma AdvanceToEcho(s: Session, piece: seq<byte>, n: nat, junk: seq<byte>)
    requires Valid(s, n) && s.open && FrameStream(s.past + piece, n)
    requires 4 <= Phase(|s.past|, n) && Phase(|s.past|, n) + |piece| == n + 4
    ensures Sound(s.req) && |piece| <= Wanted(s.req)
    ensures Valid(Apply(s, piece, junk), n)
  {
    AtIsSound(s.req, s.past, n);
    PhaseStep(|s.past|, |piece|, n);
    ShortPast(|s.past|, n);
    MulStep(Frames(|s.past|, n), n);
  }

  lemma MulStep(j: nat, n: nat)
    ensures (j + 1) * n == j * n + n
  {
  }

  /** Every iteration keeps the session at the position its bytes determine, whatever the segmentation. */
  lemma Advance(s: Session, piece: seq<byte>, n: nat, junk: seq<byte>)
    requires Valid(s, n) && s.open && FrameStream(s.past + piece, n)
    requires |piece| <= Wanted(s.req)
    ensures Sound(s.req)
    ensures Valid(Apply(s, piece, junk), n)
  {
    AtIsSound(s.req, s.past, n);
    if Phase(|s.past|, n) + |piece| < 4 {
      AdvanceWithinHeader(s, piece, n, junk);
    } else if Phase(|s.past|, n) < 4 {
      AdvanceToBody(s, piece, n, junk);
    } else if Phase(|s.past|, n) + |piece| < n + 4 {
      AdvanceWithinBody(s, piece, n, junk);
    } else {
      AdvanceToEcho(s, piece, n, junk);
    }
  }

  /** A stream shorter than its first size field has completed no frame. */
  lemma ShortPast(len: nat, n: nat)
    ensures len < 4 ==> Phase(len, n) == len && Frames(len, n) == 0
    ensures Phase(len, n) <= len
  {
    if len < 4 { DivModOf(0, n + 4, len); }
    PhaseAndFrames(len, n);
  }
}
