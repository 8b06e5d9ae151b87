/**
 What a whole session does, for every way its bytes can be cut into read_data results:
 positions and lengths never depend on the cuts, echoed contents do.
 */
module Segmentation {
  import opened Bytes
  import opened Framing

  /** `pieces` are successive read_data results that the loop of handle_request can have produced from `s`. */
  ghost predicate Feedable(s: Session, pieces: seq<seq<byte>>, junk: seq<byte>)
    decreases |pieces|
  {
    pieces == [] ||
    (s.open && Sound(s.req) && |pieces[0]| <= Wanted(s.req) && Feedable(Apply(s, pieces[0], junk), pieces[1..], junk))
  }

  ghost function Feed(s: Session, pieces: seq<seq<byte>>, junk: seq<byte>): Session
    requires Feedable(s, pieces, junk)
    decreases |pieces|
  {
    if pieces == [] then s else Feed(Apply(s, pieces[0], junk), pieces[1..], junk)
  }

  lemma {:induction false} FeedValid(s: Session, pieces: seq<seq<byte>>, n: nat, junk: seq<byte>)
    requires Valid(s, n) && Feedable(s, pieces, junk) && FrameStream(s.past + Flatten(pieces), n)
    ensures Valid(Feed(s, pieces, junk), n)
    ensures Feed(s, pieces, junk).past == s.past + Flatten(pieces)
    decreases |pieces|
  {
    if pieces == [] {
      assert s.past + [] == s.past;
    } else {
      var rest := Flatten(pieces[1..]);
      assert s.past + Flatten(pieces) == (s.past + pieces[0]) + rest;
      FrameStreamPrefix(s.past + pieces[0], rest, n);
      Advance(s, pieces[0], n, junk);
      FeedValid(Apply(s, pieces[0], junk), pieces[1..], n, junk);
    }
  }

  lemma ApplyPast(s: Session, piece: seq<byte>, junk: seq<byte>)
    requires s.open && Sound(s.req) && |piece| <= Wanted(s.req)
    ensures Apply(s, piece, junk).past == s.past + piece
  {
  }

  lemma {:induction false} FeedPast(s: Session, pieces: seq<seq<byte>>, junk: seq<byte>)
    requires Feedable(s, pieces, junk)
    ensures Feed(s, pieces, junk).past == s.past + Flatten(pieces)
    decreases |pieces|
  {
    hide Apply, Sound, Wanted;
    if pieces == [] {
      assert s.past + [] == s.past;
    } else {
      ApplyPast(s, pieces[0], junk);
      FeedPast(Apply(s, pieces[0], junk), pieces[1..], junk);
      assert s.past + Flatten(pieces) == (s.past + pieces[0]) + Flatten(pieces[1..]);
    }
  }

  lemma {:induction false} FeedSnoc(s: Session, pieces: seq<seq<byte>>, last: seq<byte>, junk: seq<byte>)
    requires Feedable(s, pieces, junk)
    requires var t := Feed(s, pieces, junk); t.open && Sound(t.req) && |last| <= Wanted(t.req)
    ensures Feedable(s, pieces + [last], junk)
    ensures Feed(s, pieces + [last], junk) == Apply(Feed(s, pieces, junk), last, junk)
    decreases |pieces|
  {
    var all := pieces + [last];
    if pieces == [] {
      assert all[1..] == [];
    } else {
      FeedSnoc(Apply(s, pieces[0], junk), pieces[1..], last, junk);
      assert all[1..] == pieces[1..] + [last];
    }
  }

  // ---------------------------------------------------------------------------------------------
  // Positions
  // ---------------------------------------------------------------------------------------------

  /** What the server knows about where it is, without the contents of its message buffer. */
  datatype Position = Position(transferred: nat, within: nat, sizePart: seq<byte>, echoed: nat, open: bool)

  function PositionOf(s: Session): Position
    requires |s.req.partial| == 4
  {
    var o := Offset(s.req);
    if s.open then Position(s.req.transferred, o, if o < 4 then s.req.partial[..o] else [], |s.sent|, true)
    else Position(s.req.transferred, 4, [], |s.sent|, false)
  }

  /** The position as a closed form of the bytes read. */
  function PositionAfter(past: seq<byte>, n: nat): Position {
    var o := |past| % (n + 4);
    var echoed := |past| / (n + 4) * n;
    if Complete(past, n) then Position(|past|, 4, [], echoed, false)
    else Position(|past|, o, if o < 4 && o <= |past| then past[|past| - o..] else [], echoed, true)
  }

  lemma PositionClosedForm(s: Session, n: nat)
    requires Valid(s, n) && |s.req.partial| == 4
    ensures PositionOf(s) == PositionAfter(s.past, n)
  {
    if s.open {
      AtIsSound(s.req, s.past, n);
      ShortPast(|s.past|, n);
    }
  }

  lemma {:induction false} FeedKeepsPartial(s: Session, pieces: seq<seq<byte>>, junk: seq<byte>)
    requires Feedable(s, pieces, junk) && |s.req.partial| == 4
    ensures |Feed(s, pieces, junk).req.partial| == 4
    decreases |pieces|
  {
    if pieces == [] {
      assert Feed(s, pieces, junk) == s;
    } else {
      FeedKeepsPartial(Apply(s, pieces[0], junk), pieces[1..], junk);
    }
  }

  lemma FeedPosition(pieces: seq<seq<byte>>, n: nat, junk: seq<byte>)
    requires 1 <= n < U32_LIMIT && FrameStream(Flatten(pieces), n) && Feedable(NEW, pieces, junk)
    ensures |Feed(NEW, pieces, junk).req.partial| == 4
    ensures PositionOf(Feed(NEW, pieces, junk)) == PositionAfter(Flatten(pieces), n)
  {
    hide Apply, Valid, FrameStream, PositionAfter, PositionOf, Feed, Feedable;
    NewIsValid(n);
    assert NEW.past + Flatten(pieces) == Flatten(pieces);
    FeedValid(NEW, pieces, n, junk);
    FeedKeepsPartial(NEW, pieces, junk);
    PositionClosedForm(Feed(NEW, pieces, junk), n);
  }

  /** Chunk invariance: two segmentations of the same bytes leave the server at the same position. */
  lemma ChunkInvariance(ps: seq<seq<byte>>, qs: seq<seq<byte>>, n: nat, junk: seq<byte>, junk': seq<byte>)
    requires 1 <= n < U32_LIMIT && Flatten(ps) == Flatten(qs) && FrameStream(Flatten(ps), n)
    requires Feedable(NEW, ps, junk) && Feedable(NEW, qs, junk')
    ensures |Feed(NEW, ps, junk).req.partial| == 4 && |Feed(NEW, qs, junk').req.partial| == 4
    ensures PositionOf(Feed(NEW, ps, junk)) == PositionOf(Feed(NEW, qs, junk'))
  {
    hide PositionAfter, PositionOf, Feed, Feedable, FrameStream;
    FeedPosition(ps, n, junk);
    FeedPosition(qs, n, junk');
  }

  /** The facts about one iteration that starts a longer read. */
  lemma FirstPiece(s: Session, piece: seq<byte>, more: seq<byte>, n: nat, junk: seq<byte>) returns (t: Session)
    requires Valid(s, n) && FrameStream(s.past + (piece + more), n) && piece + more != []
    requires s.open ==> |piece| <= Wanted(s.req)
    ensures s.open && Sound(s.req)
    ensures t == Apply(s, piece, junk) && Valid(t, n) && t.past == s.past + piece
    ensures FrameStream(t.past, n) && FrameStream(t.past + more, n) && t.past + more == s.past + (piece + more)
    ensures !t.open ==> more == []
  {
    hide HeaderOk, At, Absorb, Wanted, Complete;
    FrameStreamPrefix(s.past, piece + more, n);
    AtIsSound(s.req, s.past, n);
    assert s.past + (piece + more) == (s.past + piece) + more;
    FrameStreamPrefix(s.past + piece, more, n);
    Advance(s, piece, n, junk);
    t := Apply(s, piece, junk);
  }

  // ---------------------------------------------------------------------------------------------
  // One call of handle_request
  // ---------------------------------------------------------------------------------------------

  /**
   The session after a call that found exactly `fed` to read: read_data only comes back short when
   the socket has run dry, so all pieces but the last are as long as the loop asked for.
   */
  ghost function Drain(s: Session, fed: seq<byte>, n: nat, junk: seq<byte>): (t: Session)
    requires Valid(s, n) && s.open && FrameStream(s.past + fed, n)
    ensures Valid(t, n) && t.past == s.past + fed
    decreases |fed|
  {
    AtIsSound(s.req, s.past, n);
    var w := Wanted(s.req);
    if |fed| < w then
      Advance(s, fed, n, junk);
      Apply(s, fed, junk)
    else
      var piece, rest := fed[..w], fed[w..];
      assert piece + rest == fed;
      var t := Apply(s, piece, junk);
      assert Valid(t, n) && FrameStream(t.past + rest, n) && t.past + rest == s.past + fed &&
             (!t.open ==> rest == []) by {
        var _ := FirstPiece(s, piece, rest, n, junk);
      }
      if t.open then Drain(t, rest, n, junk)
      else t
  }

  ghost predicate AllFull(s: Session, pieces: seq<seq<byte>>, junk: seq<byte>)
    requires Feedable(s, pieces, junk)
    decreases |pieces|
  {
    pieces == [] || (|pieces[0]| == Wanted(s.req) && AllFull(Apply(s, pieces[0], junk), pieces[1..], junk))
  }

  lemma {:induction false} AllFullSnoc(s: Session, pieces: seq<seq<byte>>, last: seq<byte>, junk: seq<byte>)
    requires Feedable(s, pieces, junk) && AllFull(s, pieces, junk)
    requires var t := Feed(s, pieces, junk); t.open && Sound(t.req) && |last| == Wanted(t.req)
    ensures Feedable(s, pieces + [last], junk) && AllFull(s, pieces + [last], junk)
    decreases |pieces|
  {
    hide Apply;
    FeedSnoc(s, pieces, last, junk);
    var all := pieces + [last];
    if pieces == [] {
      assert all[1..] == [];
    } else {
      AllFullSnoc(Apply(s, pieces[0], junk), pieces[1..], last, junk);
      assert all[1..] == pieces[1..] + [last];
    }
  }

  lemma DrainFullPiece(s: Session, piece: seq<byte>, rest: seq<byte>, n: nat, junk: seq<byte>)
    requires Valid(s, n) && s.open && FrameStream(s.past + piece + rest, n) && |piece| == Wanted(s.req)
    ensures Sound(s.req) && FrameStream(s.past + (piece + rest), n)
    ensures var t := Apply(s, piece, junk);
            Valid(t, n) && t.past == s.past + piece &&
            Drain(s, piece + rest, n, junk) == if t.open then Drain(t, rest, n, junk) else t
  {
    AtIsSound(s.req, s.past, n);
    FrameStreamPrefix(s.past + piece, rest, n);
    Advance(s, piece, n, junk);
    assert s.past + piece + rest == s.past + (piece + rest);
    assert (piece + rest)[..|piece|] == piece && (piece + rest)[|piece|..] == rest;
  }

  /** The loop view and the closed view of a call agree. */
  lemma {:induction false} DrainIsFeed(s: Session, full: seq<seq<byte>>, last: seq<byte>, n: nat, junk: seq<byte>)
    requires Valid(s, n) && s.open && FrameStream(s.past + (Flatten(full) + last), n)
    requires Feedable(s, full, junk) && AllFull(s, full, junk)
    requires var t := Feed(s, full, junk); if t.open then Sound(t.req) && |last| < Wanted(t.req) else last == []
    ensures var t := Feed(s, full, junk);
            Drain(s, Flatten(full) + last, n, junk) == if t.open then Apply(t, last, junk) else t
    decreases |full|
  {
    if full == [] {
      assert [] + last == last;
    } else {
      var piece, rest := full[0], Flatten(full[1..]) + last;
      assert Flatten(full) + last == piece + rest;
      assert s.past + (piece + rest) == (s.past + piece) + rest;
      DrainFullPiece(s, piece, rest, n, junk);
      var t := Apply(s, piece, junk);
      if t.open {
        DrainIsFeed(t, full[1..], last, n, junk);
      } else {
        assert full[1..] == [];
      }
    }
  }

  /** A call whose last read came back short. */
  lemma CallRunsDry(
      start: Session, full: seq<seq<byte>>, was: Session, piece: seq<byte>, coming: seq<byte>, junk: seq<byte>, n: nat)
    requires Valid(start, n) && start.open && was.open && Sound(was.req) && |piece| < Wanted(was.req)
    requires Feedable(start, full, junk) && AllFull(start, full, junk) && Feed(start, full, junk) == was
    requires FrameStream(was.past + piece + coming, n)
    ensures start.past <= was.past + piece
    ensures var fed := Since(start.past, was.past + piece);
            FrameStream(start.past + fed, n) && Drain(start, fed, n, junk) == Apply(was, piece, junk)
  {
    hide Apply, FrameStream, Sound, Wanted, Valid, Drain;
    FrameStreamPrefix(was.past + piece, coming, n);
    FeedPast(start, full, junk);
    var fed := Flatten(full) + piece;
    assert start.past + fed == was.past + piece;
    assert Since(start.past, was.past + piece) == fed;
    DrainIsFeed(start, full, piece, n, junk);
  }

  /** A call whose last read completed the zero size. */
  lemma CallFinishes(
      start: Session, full: seq<seq<byte>>, was: Session, piece: seq<byte>, coming: seq<byte>, junk: seq<byte>, n: nat)
    requires Valid(start, n) && start.open && was.open && Sound(was.req) && |piece| == Wanted(was.req)
    requires Feedable(start, full, junk) && AllFull(start, full, junk) && Feed(start, full, junk) == was
    requires FrameStream(was.past + piece + coming, n)
    requires Valid(Apply(was, piece, junk), n) && !Apply(was, piece, junk).open
    ensures start.past <= was.past + piece && coming == []
    ensures var fed := Since(start.past, was.past + piece);
            FrameStream(start.past + fed, n) && Drain(start, fed, n, junk) == Apply(was, piece, junk)
  {
    ApplyPast(was, piece, junk);
    assert 1 <= n && Complete(was.past + piece, n);
    hide Apply, FrameStream, Sound, Wanted, Valid, Drain, Complete;
    FrameStreamPrefix(was.past + piece, coming, n);
    FeedSnoc(start, full, piece, junk);
    AllFullSnoc(start, full, piece, junk);
    DrainWithoutRest(start, full + [piece], n, junk);
  }

  lemma DrainWithoutRest(start: Session, full: seq<seq<byte>>, n: nat, junk: seq<byte>)
    requires Valid(start, n) && start.open
    requires Feedable(start, full, junk) && AllFull(start, full, junk)
    requires var t := Feed(start, full, junk); !t.open && FrameStream(t.past, n)
    ensures var t := Feed(start, full, junk);
            && start.past <= t.past
            && FrameStream(start.past + Since(start.past, t.past), n)
            && Drain(start, Since(start.past, t.past), n, junk) == t
  {
    hide Apply, FrameStream, Sound, Wanted, Valid, Drain;
    FeedPast(start, full, junk);
    var fed, t := Flatten(full), Feed(start, full, junk);
    assert start.past + (fed + []) == t.past;
    assert fed + [] == fed;
    assert Since(start.past, t.past) == fed;
    DrainIsFeed(start, full, [], n, junk);
  }

  // ---------------------------------------------------------------------------------------------
  // Complete sessions
  // ---------------------------------------------------------------------------------------------

  /** A body behind its size, which the client casts to uint32_t. */
  function Frame(body: seq<byte>): (f: seq<byte>)
    ensures |f| == |body| + 4 && f[4..] == body
  {
    U32Bytes(|body| % U32_LIMIT) + body
  }

  lemma FrameSize(body: seq<byte>)
    requires |body| < U32_LIMIT
    ensures U32(Frame(body)[..4]) == |body|
  {
    assert Frame(body)[..4] == U32Bytes(|body|);
    hide U32, U32Bytes;
    U32RoundTrip(|body|);
  }

  /** What a client sends: its messages, then a zero size. */
  function Stream(bodies: seq<seq<byte>>): seq<byte>
  {
    if bodies == [] then U32Bytes(0) else Frame(bodies[0]) + Stream(bodies[1..])
  }

  ghost predicate Uniform(bodies: seq<seq<byte>>, n: nat) {
    forall b <- bodies :: |b| == n
  }

  lemma FrameStreamCons(frame: seq<byte>, rest: seq<byte>, n: nat)
    requires |frame| == n + 4 && U32(frame[..4]) == n && FrameStream(rest, n)
    ensures FrameStream(frame + rest, n)
  {
    forall j: nat
      ensures HeaderOk(frame + rest, n, j)
    {
      if j == 0 {
        assert (frame + rest)[0..4] == frame[..4];
      } else {
        MulStep(j - 1, n + 4);
        MulLe(0, j - 1, n + 4);
        var at: nat := (j - 1) * (n + 4);
        assert HeaderOk(rest, n, j - 1);
        if at + 4 <= |rest| {
          assert (frame + rest)[at + (n + 4)..at + (n + 4) + 4] == rest[at..at + 4];
        }
      }
    }
  }

  lemma {:induction false} StreamLength(bodies: seq<seq<byte>>, n: nat)
    requires n < U32_LIMIT && Uniform(bodies, n)
    ensures |Stream(bodies)| == |bodies| * (n + 4) + 4
    ensures var s := Stream(bodies); s[|s| - 4..] == U32Bytes(0)
  {
    if bodies == [] {
      assert Stream(bodies) == U32Bytes(0);
    } else {
      StreamLength(bodies[1..], n);
      MulStep(|bodies| - 1, n + 4);
    }
  }

  lemma {:induction false} StreamIsFramed(bodies: seq<seq<byte>>, n: nat)
    requires 1 <= n < U32_LIMIT && Uniform(bodies, n)
    ensures FrameStream(Stream(bodies), n)
  {
    if bodies == [] {
      var s := U32Bytes(0);
      U32RoundTrip(0);
      forall j: nat ensures HeaderOk(s, n, j) {
        if 0 < j { MulLe(1, j, n + 4); } else { assert s[0..4] == s; }
      }
    } else {
      assert bodies[0] in bodies;
      FrameSize(bodies[0]);
      StreamIsFramed(bodies[1..], n);
      hide Frame, FrameStream, U32;
      FrameStreamCons(Frame(bodies[0]), Stream(bodies[1..]), n);
    }
  }

  lemma StreamShape(bodies: seq<seq<byte>>, n: nat)
    requires 1 <= n < U32_LIMIT && Uniform(bodies, n)
    ensures |Stream(bodies)| == |bodies| * (n + 4) + 4
    ensures FrameStream(Stream(bodies), n) && Complete(Stream(bodies), n)
  {
    StreamLength(bodies, n);
    StreamIsFramed(bodies, n);
    U32RoundTrip(0);
    DivModOf(|bodies|, n + 4, 4);
    hide U32, U32Bytes, Stream, FrameStream;
  }

  /** The bytes of a complete session of k messages of size n, and the bytes it is sent back. */
  function SessionLength(k: nat, n: nat): nat {
    k * (n + 4) + 4
  }

  function EchoLength(k: nat, n: nat): nat {
    k * n
  }

  lemma FramesOfSession(k: nat, n: nat)
    requires 1 <= n
    ensures Frames(SessionLength(k, n), n) * n == EchoLength(k, n)
  {
    DivModOf(k, n + 4, 4);
  }

  lemma StreamEnds(bodies: seq<seq<byte>>, n: nat)
    requires 1 <= n < U32_LIMIT && Uniform(bodies, n)
    ensures var s := Stream(bodies);
            && FrameStream(s, n) && Complete(s, n) && |s| == SessionLength(|bodies|, n)
            && Frames(|s|, n) * n == EchoLength(|bodies|, n)
  {
    hide Stream, FrameStream, Complete, Frames, Uniform;
    StreamShape(bodies, n);
    FramesOfSession(|bodies|, n);
  }

  /**
   However a complete session is segmented, the server closes it exactly at its end, reports
   k * (n + 4) + 4 bytes, and has echoed k * n bytes.
   */
  lemma CompleteSession(bodies: seq<seq<byte>>, n: nat, pieces: seq<seq<byte>>, junk: seq<byte>)
    requires 1 <= n < U32_LIMIT && Uniform(bodies, n)
    requires Flatten(pieces) == Stream(bodies) && Feedable(NEW, pieces, junk)
    ensures var s := Feed(NEW, pieces, junk);
            !s.open && s.req.transferred == SessionLength(|bodies|, n) && |s.sent| == EchoLength(|bodies|, n)
  {
    StreamEnds(bodies, n);
    NewIsValid(n);
    hide Stream, SessionLength, EchoLength, FrameStream, Complete, Frames, Feedable;
    assert NEW.past + Flatten(pieces) == Flatten(pieces);
    FeedValid(NEW, pieces, n, junk);
  }
}
