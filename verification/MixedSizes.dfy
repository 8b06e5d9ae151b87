/**
 Connections whose messages differ in size. handle_request reduces the bytes read so far modulo the
 current size plus 4, and allocates its buffer once, for the first size. This module runs the parser of
 Framing over streams of any sizes and says for which of them it keeps its place and its buffer suffices.
 */
module MixedSizes {
  import opened Bytes
  import opened Framing
  import opened Segmentation

  /** Sizes a client can send. */
  predicate Sendable(bodies: seq<seq<byte>>) {
    forall i | 0 <= i < |bodies| :: 1 <= |bodies[i]| < U32_LIMIT
  }

  /** The bytes of the first j frames. */
  function Before(bodies: seq<seq<byte>>, j: nat): nat
    requires j <= |bodies|
  {
    if j == 0 then 0 else Before(bodies, j - 1) + (|bodies[j - 1]| + 4)
  }

  /** The bytes of the first j bodies. */
  function Echoed(bodies: seq<seq<byte>>, j: nat): nat
    requires j <= |bodies|
  {
    if j == 0 then 0 else Echoed(bodies, j - 1) + |bodies[j - 1]|
  }

  /** The length of frame j; the last one is the zero size. */
  function FrameLength(bodies: seq<seq<byte>>, j: nat): nat
    requires j <= |bodies|
  {
    if j < |bodies| then |bodies[j]| + 4 else 4
  }

  /** After `len` bytes of the stream, o bytes of frame j have been read. */
  predicate Located(bodies: seq<seq<byte>>, len: nat, j: nat, o: nat) {
    j <= |bodies| && o < FrameLength(bodies, j) && len == Before(bodies, j) + o
  }

  /**
   A session the parser has not lost: it is in the right place of the right frame, the buffer has room
   for the body to come, as many bytes have been echoed as completed bodies have, and it ends with the stream.
   */
  ghost predicate OnTrack(s: Session, bodies: seq<seq<byte>>) {
    && (forall j: nat, o: nat | Located(bodies, |s.past|, j, o) ::
          s.open && Sound(s.req) && Offset(s.req) == o && |s.sent| == Echoed(bodies, j))
    && (s.past == Stream(bodies) ==> !s.open && |s.sent| == Echoed(bodies, |bodies|))
  }

  /** However the stream, or a beginning of it, is cut into reads. */
  ghost predicate Follows(bodies: seq<seq<byte>>, junk: seq<byte>) {
    forall pieces | Feedable(NEW, pieces, junk) && Flatten(pieces) <= Stream(bodies) ::
      OnTrack(Feed(NEW, pieces, junk), bodies)
  }

  /** Frame j starts at a multiple of its own length, and its body fits the buffer of the first one. */
  predicate Fits(bodies: seq<seq<byte>>, j: nat)
    requires j < |bodies|
  {
    Before(bodies, j) % (|bodies[j]| + 4) == 0 && |bodies[j]| <= |bodies[0]|
  }

  predicate FitBelow(bodies: seq<seq<byte>>, m: nat) {
    forall j: nat | j < m && j < |bodies| :: Fits(bodies, j)
  }

  // ---------------------------------------------------------------------------------------------
  // The stream
  // ---------------------------------------------------------------------------------------------

  lemma {:induction false} BeforeTail(bodies: seq<seq<byte>>, j: nat)
    requires 1 <= j <= |bodies|
    ensures Before(bodies, j) == |bodies[0]| + 4 + Before(bodies[1..], j - 1)
  {
    if j == 1 {
      assert Before(bodies, 0) == Before(bodies[1..], 0) == 0;
    } else {
      BeforeTail(bodies, j - 1);
    }
  }

  /** The first four bytes of frame j. */
  function Header(bodies: seq<seq<byte>>, j: nat): (h: seq<byte>)
    requires j <= |bodies|
    ensures |h| == 4
  {
    if j < |bodies| then Frame(bodies[j])[..4] else U32Bytes(0)
  }

  lemma HeaderSize(bodies: seq<seq<byte>>, j: nat)
    requires Sendable(bodies) && j <= |bodies|
    ensures U32(Header(bodies, j)) == if j < |bodies| then |bodies[j]| else 0
  {
    if j < |bodies| {
      FrameSize(bodies[j]);
    } else {
      U32RoundTrip(0);
    }
  }

  lemma Behind(a: seq<byte>, b: seq<byte>, from: nat)
    requires from + 4 <= |b|
    ensures (a + b)[|a| + from..|a| + from + 4] == b[from..from + 4]
  {
  }

  lemma {:induction false} StreamHeader(bodies: seq<seq<byte>>, j: nat)
    requires j <= |bodies|
    ensures Before(bodies, j) + FrameLength(bodies, j) <= |Stream(bodies)|
    ensures j == |bodies| ==> Before(bodies, j) + 4 == |Stream(bodies)|
    ensures Stream(bodies)[Before(bodies, j)..Before(bodies, j) + 4] == Header(bodies, j)
  {
    if bodies == [] {
      assert U32Bytes(0)[0..4] == U32Bytes(0);
    } else if j == 0 {
      assert (Frame(bodies[0]) + Stream(bodies[1..]))[0..4] == Frame(bodies[0])[..4];
    } else {
      BeforeTail(bodies, j);
      StreamHeader(bodies[1..], j - 1);
      Behind(Frame(bodies[0]), Stream(bodies[1..]), Before(bodies[1..], j - 1));
    }
  }

  // ---------------------------------------------------------------------------------------------
  // The parser on it
  // ---------------------------------------------------------------------------------------------

  /** msg_size when o bytes of frame j have been read: that of the frame before until the size field is complete. */
  function SizeThen(bodies: seq<seq<byte>>, j: nat, o: nat): nat
    requires j <= |bodies| && (j == |bodies| ==> o < 4)
  {
    if 4 <= o then |bodies[j]| else if j == 0 then 0 else |bodies[j - 1]|
  }

  /** The session after o bytes of frame j, wherever its own arithmetic takes it to be. */
  ghost predicate HasRead(s: Session, bodies: seq<seq<byte>>, j: nat, o: nat) {
    && Located(bodies, |s.past|, j, o) && s.past <= Stream(bodies) && s.open
    && s.req.transferred == |s.past| && |s.req.partial| == 4
    && (o < 4 ==> s.req.partial[..o] == Header(bodies, j)[..o])
    && s.req.msgSize == SizeThen(bodies, j, o)
    && (if j == 0 && o < 4 then s.req.msg.None? else s.req.msg.Some? && |s.req.msg.value| == |bodies[0]|)
    && |s.sent| == Echoed(bodies, j)
  }

  /** The conditions that keep it in place there. */
  predicate Placed(bodies: seq<seq<byte>>, j: nat, o: nat) {
    FitBelow(bodies, if o < 4 then j else j + 1)
  }

  lemma OffsetInFrame(t: nat, m: nat, o: nat)
    requires 4 <= m && t % m == 0 && o < m
    ensures (t + o) % m == o && (t + m) % m == 0
  {
    var q := t / m;
    assert t == q * m;
    DivModOf(q, m, o);
    assert t + m == (q + 1) * m + 0;
    DivModOf(q + 1, m, 0);
  }

  lemma InPlace(s: Session, bodies: seq<seq<byte>>, j: nat, o: nat)
    requires HasRead(s, bodies, j, o) && Placed(bodies, j, o)
    ensures Sound(s.req) && Offset(s.req) == o && Wanted(s.req) == if o < 4 then 4 - o else FrameLength(bodies, j) - o
  {
    if 4 <= o {
      assert Fits(bodies, j);
      OffsetInFrame(Before(bodies, j), |bodies[j]| + 4, o);
    } else if j == 0 {
      DivModOf(0, 4, o);
    } else {
      assert Fits(bodies, j - 1);
      var m := |bodies[j - 1]| + 4;
      OffsetInFrame(Before(bodies, j - 1), m, 0);
      OffsetInFrame(Before(bodies, j), m, o);
    }
  }

  lemma NewHasRead(bodies: seq<seq<byte>>)
    ensures HasRead(NEW, bodies, 0, 0) && Placed(bodies, 0, 0)
  {
  }

  lemma ReadsOn(s: Session, piece: seq<byte>, bodies: seq<seq<byte>>, j: nat, o: nat, junk: seq<byte>)
    requires HasRead(s, bodies, j, o) && Placed(bodies, j, o) && s.past + piece <= Stream(bodies)
    requires o + |piece| < (if o < 4 then 4 else FrameLength(bodies, j))
    ensures Sound(s.req) && |piece| <= Wanted(s.req)
    ensures HasRead(Apply(s, piece, junk), bodies, j, o + |piece|)
  {
    InPlace(s, bodies, j, o);
    if o < 4 {
      PartOfHeader(s.past, piece, bodies, j, o);
    }
    hide Stream, Before, Header;
  }

  lemma SliceOfSlice(all: seq<byte>, at: nat, n: nat, o: nat, k: nat)
    requires at + n <= |all| && o + k <= n
    ensures all[at..at + n][o..o + k] == all[at + o..at + o + k]
  {
    var slice := all[at..at + n][o..o + k];
    assert forall i | 0 <= i < k :: slice[i] == all[at + o + i];
  }

  /** The bytes of a size field come in order. */
  lemma PartOfHeader(past: seq<byte>, piece: seq<byte>, bodies: seq<seq<byte>>, j: nat, o: nat)
    requires j <= |bodies| && |past| == Before(bodies, j) + o && past + piece <= Stream(bodies) && o + |piece| <= 4
    ensures piece == Header(bodies, j)[o..o + |piece|]
    ensures Header(bodies, j)[..o] + piece == Header(bodies, j)[..o + |piece|]
  {
    StreamHeader(bodies, j);
    hide Stream, Header;
    var all, at := Stream(bodies), Before(bodies, j);
    assert piece == (past + piece)[at + o..at + o + |piece|] == all[at + o..at + o + |piece|];
    SliceOfSlice(all, at, 4, o, |piece|);
  }

  /** A completed size field, before anything is known about the size. */
  lemma ReadsHeader(s: Session, piece: seq<byte>, bodies: seq<seq<byte>>, j: nat, o: nat, junk: seq<byte>)
    requires Sendable(bodies) && HasRead(s, bodies, j, o) && Placed(bodies, j, o) && s.past + piece <= Stream(bodies)
    requires o < 4 && o + |piece| == 4
    ensures Sound(s.req) && |piece| <= Wanted(s.req)
    ensures var t := Apply(s, piece, junk);
            if j < |bodies| then HasRead(t, bodies, j, 4)
            else !t.open && t.past == Stream(bodies) && |t.sent| == Echoed(bodies, j)
  {
    InPlace(s, bodies, j, o);
    PartOfHeader(s.past, piece, bodies, j, o);
    HeaderSize(bodies, j);
    StreamHeader(bodies, j);
    var h := Header(bodies, j);
    assert Store(s.req.partial, o, piece) == h;
    hide Stream, Before, Header;
  }

  lemma ReadsBody(s: Session, piece: seq<byte>, bodies: seq<seq<byte>>, j: nat, o: nat, junk: seq<byte>)
    requires Sendable(bodies) && HasRead(s, bodies, j, o) && Placed(bodies, j, o) && s.past + piece <= Stream(bodies)
    requires 4 <= o && o + |piece| == FrameLength(bodies, j)
    ensures Sound(s.req) && |piece| <= Wanted(s.req)
    ensures HasRead(Apply(s, piece, junk), bodies, j + 1, 0)
  {
    InPlace(s, bodies, j, o);
    hide Stream;
  }

  /** Any read keeps the session on track, if all frames fit. */
  lemma Reads(s: Session, piece: seq<byte>, bodies: seq<seq<byte>>, j: nat, o: nat, junk: seq<byte>)
      returns (j': nat, o': nat)
    requires Sendable(bodies) && HasRead(s, bodies, j, o) && s.past + piece <= Stream(bodies)
    requires FitBelow(bodies, |bodies|) && Sound(s.req) && |piece| <= Wanted(s.req)
    ensures var t := Apply(s, piece, junk);
            if t.open then HasRead(t, bodies, j', o')
            else t.past == Stream(bodies) && |t.sent| == Echoed(bodies, |bodies|)
  {
    InPlace(s, bodies, j, o);
    j', o' := j, o + |piece|;
    hide Stream, Header, Sound, Absorb, FitBelow;
    if o' < (if o < 4 then 4 else FrameLength(bodies, j)) {
      ReadsOn(s, piece, bodies, j, o, junk);
    } else if o < 4 {
      ReadsHeader(s, piece, bodies, j, o, junk);
    } else {
      ReadsBody(s, piece, bodies, j, o, junk);
      j', o' := j + 1, 0;
    }
  }

  // ---------------------------------------------------------------------------------------------
  // Exactly when
  // ---------------------------------------------------------------------------------------------

  lemma {:induction false} BeforeGrows(bodies: seq<seq<byte>>, i: nat, j: nat)
    requires i < j <= |bodies|
    ensures Before(bodies, i) + FrameLength(bodies, i) <= Before(bodies, j)
    decreases j
  {
    if i + 1 == j {
      assert Before(bodies, j) == Before(bodies, i) + FrameLength(bodies, i);
    } else {
      BeforeGrows(bodies, i, j - 1);
    }
  }

  /** There is one place for every length. */
  lemma OnePlace(bodies: seq<seq<byte>>, len: nat, j: nat, o: nat, j': nat, o': nat)
    requires Located(bodies, len, j, o) && Located(bodies, len, j', o')
    ensures j == j' && o == o'
  {
    if j < j' { BeforeGrows(bodies, j, j'); }
    if j' < j { BeforeGrows(bodies, j', j); }
  }

  lemma PlacedIsOnTrack(bodies: seq<seq<byte>>, s: Session, j: nat, o: nat)
    requires HasRead(s, bodies, j, o) && Placed(bodies, j, o)
    ensures OnTrack(s, bodies)
  {
    InPlace(s, bodies, j, o);
    forall j': nat, o': nat | Located(bodies, |s.past|, j', o')
      ensures s.open && Sound(s.req) && Offset(s.req) == o' && |s.sent| == Echoed(bodies, j')
    {
      OnePlace(bodies, |s.past|, j, o, j', o');
    }
    StreamHeader(bodies, |bodies|);
    if j < |bodies| { BeforeGrows(bodies, j, |bodies|); }
  }

  lemma EndIsOnTrack(bodies: seq<seq<byte>>, s: Session)
    requires !s.open && s.past == Stream(bodies) && |s.sent| == Echoed(bodies, |bodies|)
    ensures OnTrack(s, bodies)
  {
    StreamHeader(bodies, |bodies|);
    forall j: nat, o: nat | Located(bodies, |s.past|, j, o) ensures false {
      if j < |bodies| { BeforeGrows(bodies, j, |bodies|); }
    }
  }

  lemma {:induction false} StaysOnTrack(
      s: Session, pieces: seq<seq<byte>>, bodies: seq<seq<byte>>, j: nat, o: nat, junk: seq<byte>)
    requires Sendable(bodies) && FitBelow(bodies, |bodies|) && HasRead(s, bodies, j, o)
    requires Feedable(s, pieces, junk) && s.past + Flatten(pieces) <= Stream(bodies)
    ensures OnTrack(Feed(s, pieces, junk), bodies)
    decreases |pieces|
  {
    hide Stream, HasRead, OnTrack, FitBelow, Sendable, Apply, Sound;
    if pieces == [] {
      assert Placed(bodies, j, o) by { FitsHere(bodies, j, o); }
      PlacedIsOnTrack(bodies, s, j, o);
    } else {
      var piece, rest := pieces[0], Flatten(pieces[1..]);
      assert s.past + Flatten(pieces) == (s.past + piece) + rest;
      var t := Apply(s, piece, junk);
      ApplyPast(s, piece, junk);
      var j', o' := Reads(s, piece, bodies, j, o, junk);
      if t.open {
        StaysOnTrack(t, pieces[1..], bodies, j', o', junk);
      } else {
        assert pieces[1..] == [];
        EndIsOnTrack(bodies, t);
      }
    }
  }

  lemma FitsHere(bodies: seq<seq<byte>>, j: nat, o: nat)
    requires FitBelow(bodies, |bodies|)
    ensures Placed(bodies, j, o)
  {
  }

  /** As long as the frames fit, whole fields can be read up to frame j. */
  lemma {:induction false} ReachesFrame(
      bodies: seq<seq<byte>>, j: nat, junk: seq<byte>) returns (pieces: seq<seq<byte>>)
    requires Sendable(bodies) && FitBelow(bodies, j) && j <= |bodies|
    ensures Feedable(NEW, pieces, junk) && HasRead(Feed(NEW, pieces, junk), bodies, j, 0)
  {
    if j == 0 {
      pieces := [];
      NewHasRead(bodies);
    } else {
      pieces := ReachesFrame(bodies, j - 1, junk);
      pieces := ReadsField(bodies, j - 1, pieces, junk);
      var s := Feed(NEW, pieces, junk);
      StreamHeader(bodies, j - 1);
      hide Stream, Sendable, Apply, Sound, Wanted, Header;
      var piece := Stream(bodies)[|s.past|..|s.past| + |bodies[j - 1]|];
      NextBytes(s.past, Stream(bodies), |bodies[j - 1]|);
      assert Placed(bodies, j - 1, 4);
      ReadsBody(s, piece, bodies, j - 1, 4, junk);
      FeedSnoc(NEW, pieces, piece, junk);
      pieces := pieces + [piece];
    }
  }

  lemma NextBytes(past: seq<byte>, all: seq<byte>, k: nat)
    requires past <= all && |past| + k <= |all|
    ensures past + all[|past|..|past| + k] <= all
  {
  }

  /** The size field of frame j. */
  lemma ReadsField(
      bodies: seq<seq<byte>>, j: nat, pieces: seq<seq<byte>>, junk: seq<byte>) returns (more: seq<seq<byte>>)
    requires Sendable(bodies) && FitBelow(bodies, j) && j < |bodies|
    requires Feedable(NEW, pieces, junk) && HasRead(Feed(NEW, pieces, junk), bodies, j, 0)
    ensures Feedable(NEW, more, junk) && HasRead(Feed(NEW, more, junk), bodies, j, 4)
  {
    var s := Feed(NEW, pieces, junk);
    StreamHeader(bodies, j);
    hide Stream, Sendable, Apply, Sound, Wanted, Header;
    var piece := Stream(bodies)[|s.past|..|s.past| + 4];
    NextBytes(s.past, Stream(bodies), 4);
    assert Placed(bodies, j, 0);
    ReadsHeader(s, piece, bodies, j, 0, junk);
    FeedSnoc(NEW, pieces, piece, junk);
    more := pieces + [piece];
  }

  lemma BodyPlace(t: nat, n: nat)
    requires 1 <= n && (t + 4) % (n + 4) == 4
    ensures t % (n + 4) == 0
  {
    var m := n + 4;
    var q := (t + 4) / m;
    assert t == q * m + 0;
    DivModOf(q, m, 0);
  }

  /** At the first body byte a session on track shows that the frame fits. */
  lemma BodyShowsFit(s: Session, bodies: seq<seq<byte>>, j: nat)
    requires Sendable(bodies) && j < |bodies| && HasRead(s, bodies, j, 4) && OnTrack(s, bodies)
    ensures Fits(bodies, j)
  {
    assert Located(bodies, |s.past|, j, 4);
    assert Sound(s.req) && Offset(s.req) == 4;
    BodyPlace(Before(bodies, j), |bodies[j]|);
  }

  lemma OnTrackAfter(bodies: seq<seq<byte>>, pieces: seq<seq<byte>>, junk: seq<byte>, j: nat, o: nat)
    requires Follows(bodies, junk) && Feedable(NEW, pieces, junk) && HasRead(Feed(NEW, pieces, junk), bodies, j, o)
    ensures OnTrack(Feed(NEW, pieces, junk), bodies)
  {
    hide OnTrack, Stream, Apply, Sound;
    FeedPast(NEW, pieces, junk);
    assert NEW.past + Flatten(pieces) == Flatten(pieces);
  }

  lemma {:induction false} FollowedFramesFit(bodies: seq<seq<byte>>, junk: seq<byte>, j: nat)
    requires Sendable(bodies) && Follows(bodies, junk) && j <= |bodies|
    ensures FitBelow(bodies, j)
  {
    hide OnTrack, HasRead, Stream, Fits, Feed, Feedable, Sendable, Follows;
    if j == 0 {
      assert FitBelow(bodies, 0);
    } else {
      FollowedFramesFit(bodies, junk, j - 1);
      var pieces := ReachesFrame(bodies, j - 1, junk);
      pieces := ReadsField(bodies, j - 1, pieces, junk);
      OnTrackAfter(bodies, pieces, junk, j - 1, 4);
      BodyShowsFit(Feed(NEW, pieces, junk), bodies, j - 1);
    }
  }

  /**
   Exactly which messages the select and epoll servers can follow: every frame starts at a multiple of its
   own length, and no body is longer than the first.
   */
  lemma PlaceIsKeptExactlyWhen(bodies: seq<seq<byte>>, junk: seq<byte>)
    requires Sendable(bodies)
    ensures Follows(bodies, junk) <==> forall j: nat | j < |bodies| :: Fits(bodies, j)
  {
    if FitBelow(bodies, |bodies|) {
      forall pieces | Feedable(NEW, pieces, junk) && Flatten(pieces) <= Stream(bodies)
        ensures OnTrack(Feed(NEW, pieces, junk), bodies)
      {
        NewHasRead(bodies);
        assert NEW.past + Flatten(pieces) == Flatten(pieces);
        StaysOnTrack(NEW, pieces, bodies, 0, 0, junk);
      }
    }
    if Follows(bodies, junk) {
      FollowedFramesFit(bodies, junk, |bodies|);
    }
  }

  lemma {:induction false} EqualFrames(bodies: seq<seq<byte>>, n: nat, j: nat)
    requires Uniform(bodies, n) && j <= |bodies|
    ensures Before(bodies, j) == j * (n + 4)
  {
    if j == 0 {
      assert Before(bodies, 0) == 0;
    } else {
      EqualFrames(bodies, n, j - 1);
      assert bodies[j - 1] in bodies;
      MulStep(j - 1, n + 4);
    }
  }

  /** One size for the whole connection, as the client uses it, is such a sequence. */
  lemma EqualSizesKeepPlace(bodies: seq<seq<byte>>, n: nat, junk: seq<byte>)
    requires 1 <= n < U32_LIMIT && Uniform(bodies, n)
    ensures Follows(bodies, junk)
  {
    forall j: nat | j < |bodies| ensures Fits(bodies, j) && 1 <= |bodies[j]| < U32_LIMIT {
      EqualFrames(bodies, n, j);
      assert bodies[j] in bodies && bodies[0] in bodies;
      DivModOf(j, n + 4, 0);
    }
    PlaceIsKeptExactlyWhen(bodies, junk);
  }

  /** A message longer than the first never is. */
  lemma LargerLaterSize(bodies: seq<seq<byte>>, j: nat, junk: seq<byte>)
    requires Sendable(bodies) && j < |bodies| && |bodies[0]| < |bodies[j]|
    ensures !Follows(bodies, junk)
  {
    PlaceIsKeptExactlyWhen(bodies, junk);
    assert !Fits(bodies, j);
  }

  function Zeros(n: nat): (body: seq<byte>)
    ensures |body| == n
  {
    seq(n, _ => 0 as byte)
  }

  /** Multiples are not enough: with sizes 6, 1, 11 the offset stays right and the third body overruns the buffer. */
  lemma SmallBuffer(bodies: seq<seq<byte>>, junk: seq<byte>)
    requires bodies == [Zeros(6), Zeros(1), Zeros(11)]
    ensures forall j: nat | j < |bodies| :: Before(bodies, j) % (|bodies[j]| + 4) == 0
    ensures !Follows(bodies, junk)
  {
    hide Follows;
    assert Before(bodies, 0) == 0;
    assert Before(bodies, 1) == 10;
    assert Before(bodies, 2) == 15;
    LargerLaterSize(bodies, 2, junk);
  }

  /** Nor is room: with sizes 2, 1 the second body is taken for something else. */
  lemma LostPlace(bodies: seq<seq<byte>>, junk: seq<byte>)
    requires bodies == [Zeros(2), Zeros(1)]
    ensures forall j: nat | j < |bodies| :: |bodies[j]| <= |bodies[0]|
    ensures !Follows(bodies, junk)
  {
    hide Follows;
    assert Before(bodies, 0) == 0;
    assert Before(bodies, 1) == 6;
    assert !Fits(bodies, 1);
    PlaceIsKeptExactlyWhen(bodies, junk);
  }
}
