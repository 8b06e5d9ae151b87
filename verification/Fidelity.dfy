/**
 Which segmentations echo the right bytes. A body that is resumed is stored at the start of the
 message buffer again (epoll_server.c:153, select_server.c:125), so the echo is the client's data,
 for every data, exactly when no read_data result ends strictly inside a body.
 */
module Fidelity {
  import opened Bytes
  import opened Framing
  import opened Segmentation

  /** The bodies of the frames completed in `past`. */
  function EchoOf(past: seq<byte>, n: nat): seq<byte>
    decreases |past|
  {
    if |past| < n + 4 then [] else past[4..n + 4] + EchoOf(past[n + 4..], n)
  }

  /** Where the j-th frame starts. */
  function FrameStart(j: nat, n: nat): nat {
    j * (n + 4)
  }

  lemma FrameStartNext(j: nat, n: nat)
    requires 1 <= j
    ensures FrameStart(j, n) == FrameStart(j - 1, n) + (n + 4)
  {
    MulStep(j - 1, n + 4);
  }

  lemma {:induction false} EchoOfAppend(p: seq<byte>, q: seq<byte>, n: nat, j: nat)
    requires |p| == FrameStart(j, n)
    ensures EchoOf(p + q, n) == EchoOf(p, n) + EchoOf(q, n)
    decreases j
  {
    if j == 0 {
      assert p + q == q;
    } else {
      FrameStartNext(j, n);
      hide FrameStart;
      EchoOfAppend(p[n + 4..], q, n, j - 1);
      assert (p + q)[n + 4..] == p[n + 4..] + q;
      assert (p + q)[4..n + 4] == p[4..n + 4];
    }
  }

  /** Bytes short of a frame's end add nothing to the echo, the ones that end it add its body. */
  lemma EchoOfStep(past: seq<byte>, piece: seq<byte>, n: nat)
    requires Phase(|past|, n) + |piece| <= n + 4
    ensures Phase(|past|, n) + |piece| < n + 4 ==> EchoOf(past + piece, n) == EchoOf(past, n)
    ensures Phase(|past|, n) + |piece| == n + 4 && Phase(|past|, n) == 4 ==>
              EchoOf(past + piece, n) == EchoOf(past, n) + piece
  {
    var j, at := Frames(|past|, n), FrameStart(Frames(|past|, n), n);
    assert |past| == at + Phase(|past|, n) by { PhaseAndFrames(|past|, n); }
    hide EchoOf, Phase, Frames, FrameStart;
    assert past == past[..at] + past[at..];
    EchoOfTail(past[..at], past[at..], piece, n, j);
  }

  lemma EchoOfShort(q: seq<byte>, n: nat)
    ensures |q| < n + 4 ==> EchoOf(q, n) == []
  {
  }

  lemma EchoOfTail(p: seq<byte>, q: seq<byte>, piece: seq<byte>, n: nat, j: nat)
    requires |p| == FrameStart(j, n) && |q| < n + 4 && |q| + |piece| <= n + 4
    ensures |q| + |piece| < n + 4 ==> EchoOf(p + q + piece, n) == EchoOf(p + q, n)
    ensures |q| + |piece| == n + 4 && |q| == 4 ==> EchoOf(p + q + piece, n) == EchoOf(p + q, n) + piece
  {
    hide FrameStart, EchoOf;
    assert p + q + piece == p + (q + piece);
    EchoOfShort(q, n);
    EchoOfShort(q + piece, n);
    EchoOfAppend(p, q, n, j);
    EchoOfAppend(p, q + piece, n, j);
    if |q| + |piece| == n + 4 && |q| == 4 {
      EchoOfFrame(q, piece, n);
    }
  }

  lemma EchoOfFrame(size: seq<byte>, body: seq<byte>, n: nat)
    requires |size| == 4 && |body| == n
    ensures EchoOf(size + body, n) == body
  {
    assert (size + body)[4..n + 4] == body;
    assert (size + body)[n + 4..] == [];
  }

  lemma {:induction false} EchoOfStream(bodies: seq<seq<byte>>, n: nat)
    requires 1 <= n < U32_LIMIT && Uniform(bodies, n)
    ensures EchoOf(Stream(bodies), n) == Flatten(bodies)
  {
    if bodies == [] {
      assert EchoOf(U32Bytes(0), n) == [];
    } else {
      EchoOfStream(bodies[1..], n);
      var s := Stream(bodies);
      assert s[4..n + 4] == bodies[0];
      assert s[n + 4..] == Stream(bodies[1..]);
    }
  }

  /** One iteration that does not stop inside a body echoes what the stream says. */
  lemma ApplyIsFaithful(s: Session, piece: seq<byte>, n: nat, junk: seq<byte>)
    requires Valid(s, n) && s.open && Sound(s.req) && |piece| <= Wanted(s.req)
    requires s.sent == EchoOf(s.past, n)
    requires Phase(|s.past|, n) <= 4 && Phase(|s.past + piece|, n) <= 4
    ensures Apply(s, piece, junk).sent == EchoOf(s.past + piece, n)
  {
    hide Phase, Frames, FrameStream, Complete, EchoOf;
    AtIsSound(s.req, s.past, n);
    PhaseStep(|s.past|, |piece|, n);
    EchoOfStep(s.past, piece, n);
    ShortPast(|s.past|, n);
  }

  // ---------------------------------------------------------------------------------------------
  // Segmentations by length
  // ---------------------------------------------------------------------------------------------

  function Sum(lens: seq<nat>): nat {
    if lens == [] then 0 else lens[0] + Sum(lens[1..])
  }

  /** `s` cut into pieces of the given lengths. */
  function Cut(s: seq<byte>, lens: seq<nat>): (pieces: seq<seq<byte>>)
    requires Sum(lens) == |s|
    ensures |pieces| == |lens|
  {
    if lens == [] then [] else [s[..lens[0]]] + Cut(s[lens[0]..], lens[1..])
  }

  lemma CutStep(s: seq<byte>, len: nat, lens: seq<nat>, rest: seq<nat>)
    requires Sum(lens) == |s| && lens != [] && len == lens[0] && rest == lens[1..]
    ensures Cut(s, lens) == [s[..len]] + Cut(s[len..], rest)
    ensures Cut(s, lens)[0] == s[..len] && Cut(s, lens)[1..] == Cut(s[len..], rest)
    ensures s == s[..len] + s[len..]
  {
  }

  lemma {:induction false} CutFlattens(s: seq<byte>, lens: seq<nat>)
    requires Sum(lens) == |s|
    ensures Flatten(Cut(s, lens)) == s
  {
    if lens == [] {
      assert s == [];
    } else {
      CutStep(s, lens[0], lens, lens[1..]);
      CutFlattens(s[lens[0]..], lens[1..]);
    }
  }

  /** The most a read_data call asks for when `at` bytes of a uniform stream have been read. */
  function WantedAt(at: nat, n: nat): nat {
    if Phase(at, n) < 4 then 4 - Phase(at, n) else n + 4 - Phase(at, n)
  }

  /** Lengths that successive read_data calls can return from position `at` to `end`. */
  predicate Schedule(lens: seq<nat>, at: nat, end: nat, n: nat)
    decreases |lens|
  {
    if lens == [] then at == end
    else at < end && lens[0] <= WantedAt(at, n) && Schedule(lens[1..], at + lens[0], end, n)
  }

  /** No read_data call returns strictly inside a body. */
  predicate WholeBodies(lens: seq<nat>, at: nat, n: nat)
    decreases |lens|
  {
    Phase(at, n) <= 4 && (lens == [] || WholeBodies(lens[1..], at + lens[0], n))
  }

  lemma {:induction false} ScheduleSum(lens: seq<nat>, at: nat, end: nat, n: nat)
    requires Schedule(lens, at, end, n)
    ensures at + Sum(lens) == end
    decreases |lens|
  {
    if lens == [] {
      assert at == end;
    } else {
      ScheduleSum(lens[1..], at + lens[0], end, n);
    }
  }

  lemma ScheduleStep(lens: seq<nat>, at: nat, end: nat, n: nat)
    requires Schedule(lens, at, end, n) && lens != []
    ensures at < end && lens[0] <= WantedAt(at, n) && Schedule(lens[1..], at + lens[0], end, n)
  {
  }

  /** The first read of a schedule, and what is left of it. */
  lemma FirstOfSchedule(s: Session, rest: seq<byte>, lens: seq<nat>, n: nat, junk: seq<byte>)
      returns (piece: seq<byte>, more: seq<byte>, t: Session)
    requires Valid(s, n) && FrameStream(s.past + rest, n) && Sum(lens) == |rest| && lens != []
    requires Schedule(lens, |s.past|, |s.past| + |rest|, n)
    ensures rest == piece + more && |piece| == lens[0]
    ensures Sum(lens[1..]) == |more| && Cut(rest, lens)[0] == piece && Cut(rest, lens)[1..] == Cut(more, lens[1..])
    ensures s.open && Sound(s.req) && |piece| <= Wanted(s.req)
    ensures t == Apply(s, piece, junk) && Valid(t, n) && t.past == s.past + piece && t.past + more == s.past + rest
    ensures Schedule(lens[1..], |t.past|, |t.past| + |more|, n)
  {
    hide Schedule, Apply, Sound, At;
    piece, more := rest[..lens[0]], rest[lens[0]..];
    CutStep(rest, lens[0], lens, lens[1..]);
    ScheduleStep(lens, |s.past|, |s.past| + |rest|, n);
    assert rest == piece + more;
    if s.open { AtOf(s, n); AtIsSound(s.req, s.past, n); }
    t := FirstPiece(s, piece, more, n, junk);
  }

  lemma AtOf(s: Session, n: nat)
    requires Valid(s, n) && s.open
    ensures 1 <= n && At(s.req, s.past, n)
  {
  }

  lemma {:induction false} WholeBodiesAreFaithful(s: Session, rest: seq<byte>, lens: seq<nat>, n: nat, junk: seq<byte>)
    requires Valid(s, n) && FrameStream(s.past + rest, n) && Sum(lens) == |rest|
    requires Schedule(lens, |s.past|, |s.past| + |rest|, n) && WholeBodies(lens, |s.past|, n)
    requires s.sent == EchoOf(s.past, n)
    ensures Feedable(s, Cut(rest, lens), junk)
    ensures Feed(s, Cut(rest, lens), junk).sent == EchoOf(s.past + rest, n)
    decreases |lens|
  {
    hide Apply, Valid, Schedule, FrameStream, Sound, Wanted, EchoOf, Phase;
    if lens == [] {
      assert s.past + rest == s.past;
    } else {
      var piece, more, t := FirstOfSchedule(s, rest, lens, n, junk);
      ApplyIsFaithful(s, piece, n, junk);
      WholeBodiesAreFaithful(t, more, lens[1..], n, junk);
    }
  }

  // ---------------------------------------------------------------------------------------------
  // A split body is echoed with a stale tail
  // ---------------------------------------------------------------------------------------------

  /** Bodies that differ from their neighbours in every byte: 0.., 1.., 0.., .. */
  function Alternating(k: nat, n: nat): (bodies: seq<seq<byte>>)
    ensures |bodies| == k && Uniform(bodies, n)
  {
    seq(k, j requires 0 <= j < k => seq(n, i requires 0 <= i < n => (j % 2) as byte))
  }

  function Ones(n: nat): seq<byte> {
    seq(n, i requires 0 <= i < n => 1 as byte)
  }

  lemma FirstFrame(bodies: seq<seq<byte>>, n: nat)
    requires bodies != [] && Uniform(bodies, n)
    ensures Stream(bodies) == Frame(bodies[0]) + Stream(bodies[1..]) && FrameStart(0, n) == 0
    ensures |bodies[0]| == n && |Frame(bodies[0])| == n + 4 && Frame(bodies[0])[4..] == bodies[0]
    ensures Uniform(bodies[1..], n)
  {
    assert bodies[0] in bodies;
  }

  /** `body` lies in s at index `at`. */
  predicate LiesAt(s: seq<byte>, at: nat, body: seq<byte>) {
    at + |body| <= |s| && s[at..at + |body|] == body
  }

  lemma {:induction false} StreamBody(bodies: seq<seq<byte>>, n: nat, j: nat)
    requires 1 <= n < U32_LIMIT && Uniform(bodies, n) && j < |bodies|
    ensures LiesAt(Stream(bodies), FrameStart(j, n) + 4, bodies[j])
  {
    hide Stream, Frame, FrameStart, LiesAt;
    var frame, rest := Frame(bodies[0]), Stream(bodies[1..]);
    FirstFrame(bodies, n);
    if j == 0 {
      EndsFrame(frame, rest, bodies[0]);
    } else {
      StreamBody(bodies[1..], n, j - 1);
      FrameStartNext(j, n);
      LiesBehind(frame, rest, FrameStart(j - 1, n) + 4, bodies[j]);
    }
  }

  lemma EndsFrame(frame: seq<byte>, rest: seq<byte>, body: seq<byte>)
    requires |frame| == |body| + 4 && frame[4..] == body
    ensures LiesAt(frame + rest, 4, body)
  {
  }

  lemma LiesBehind(a: seq<byte>, b: seq<byte>, at: nat, body: seq<byte>)
    requires LiesAt(b, at, body)
    ensures LiesAt(a + b, |a| + at, body)
  {
  }

  lemma {:induction false} FlattenAt(bodies: seq<seq<byte>>, n: nat, j: nat)
    requires 1 <= n && Uniform(bodies, n) && j < |bodies|
    ensures j * n + n <= |Flatten(bodies)|
    ensures Flatten(bodies)[j * n + n - 1] == bodies[j][n - 1]
  {
    if j == 0 {
      assert Flatten(bodies) == bodies[0] + Flatten(bodies[1..]);
    } else {
      FlattenAt(bodies[1..], n, j - 1);
      MulStep(j - 1, n);
    }
  }

  /** The last byte of the message buffer is still the one of the body before the current one. */
  ghost predicate Lagging(s: Session, n: nat) {
    1 <= n && (s.open && 4 <= |s.past| ==>
      s.req.msg.Some? && |s.req.msg.value| == n && s.req.msg.value[n - 1] as int == (Frames(|s.past|, n) + 1) % 2)
  }

  ghost predicate WrongAt(s: Session, n: nat, j: nat) {
    j * n + n <= |s.sent| && 1 <= n && s.sent[j * n + n - 1] as int != j % 2
  }

  ghost predicate Wrong(s: Session, n: nat) {
    exists j: nat :: j < Frames(|s.past|, n) && WrongAt(s, n, j)
  }

  lemma WrongAtStays(s: Session, t: Session, n: nat, j: nat)
    requires WrongAt(s, n, j) && |s.sent| <= |t.sent| && t.sent[..|s.sent|] == s.sent
    ensures WrongAt(t, n, j)
  {
    var at := j * n + n - 1;
    assert t.sent[at] == t.sent[..|s.sent|][at];
  }

  lemma WrongStays(s: Session, t: Session, n: nat)
    requires Wrong(s, n) && |s.sent| <= |t.sent| && t.sent[..|s.sent|] == s.sent
    requires Frames(|s.past|, n) <= Frames(|t.past|, n)
    ensures Wrong(t, n)
  {
    hide WrongAt, Frames;
    var j: nat :| j < Frames(|s.past|, n) && WrongAt(s, n, j);
    WrongAtStays(s, t, n, j);
  }

  lemma ApplyOnlyAppends(s: Session, piece: seq<byte>, n: nat, junk: seq<byte>)
    requires Valid(s, n) && s.open && Sound(s.req) && |piece| <= Wanted(s.req)
    ensures var t := Apply(s, piece, junk);
            |s.sent| <= |t.sent| && t.sent[..|s.sent|] == s.sent && Frames(|s.past|, n) <= Frames(|t.past|, n)
  {
    AtIsSound(s.req, s.past, n);
    PhaseStep(|s.past|, |piece|, n);
  }

  /** Outside the end of a body the buffer keeps its last byte. */
  lemma LagsOn(s: Session, piece: seq<byte>, n: nat)
    requires Valid(s, n) && s.open && Sound(s.req) && |piece| <= Wanted(s.req) && Valid(Apply(s, piece, Ones(n)), n)
    requires Lagging(s, n) && Phase(|s.past|, n) + |piece| < n + 4
    ensures Lagging(Apply(s, piece, Ones(n)), n)
    ensures 4 < Phase(|s.past|, n) ==> 4 < Phase(|s.past + piece|, n)
  {
    hide Phase, Frames, FrameStream, Complete;
    AtIsSound(s.req, s.past, n);
    PhaseStep(|s.past|, |piece|, n);
    ShortPast(|s.past|, n);
    ShortPast(|s.past + piece|, n);
    assert |s.past| < 4 <= |s.past + piece| ==> Malloc(n, Ones(n))[n - 1] == 1;
  }

  /** A body read in one piece brings the buffer up to date, a resumed one is echoed wrong. */
  lemma LagsOrWrong(s: Session, piece: seq<byte>, n: nat)
    requires Valid(s, n) && s.open && Sound(s.req) && |piece| <= Wanted(s.req)
    requires Lagging(s, n) && 4 <= Phase(|s.past|, n) && Phase(|s.past|, n) + |piece| == n + 4
    requires |piece| == n ==> piece[n - 1] as int == Frames(|s.past|, n) % 2
    ensures var t := Apply(s, piece, Ones(n));
            if Phase(|s.past|, n) == 4 then Lagging(t, n) else Wrong(t, n)
  {
    hide FrameStream, Complete, Phase, Frames;
    var t, j := Apply(s, piece, Ones(n)), Frames(|s.past|, n);
    EchoedBuffer(s, piece, n);
    PhaseStep(|s.past|, |piece|, n);
    if 4 < Phase(|s.past|, n) {
      assert WrongAt(t, n, j);
    }
  }

  lemma EchoedBuffer(s: Session, piece: seq<byte>, n: nat)
    requires Valid(s, n) && s.open && Sound(s.req) && |piece| <= Wanted(s.req)
    requires 4 <= Phase(|s.past|, n) && Phase(|s.past|, n) + |piece| == n + 4
    ensures var t, j := Apply(s, piece, Ones(n)), Frames(|s.past|, n);
            && s.req.msg.Some? && |s.req.msg.value| == n && 4 <= |s.past|
            && t.req.msg.Some? && |t.req.msg.value| == n
            && t.req.msg.value[n - 1] == (if |piece| == n then piece[n - 1] else s.req.msg.value[n - 1])
            && |t.sent| == j * n + n && t.sent[j * n + n - 1] == t.req.msg.value[n - 1]
  {
    hide Phase, Frames, FrameStream, Complete;
    AtIsSound(s.req, s.past, n);
    ShortPast(|s.past|, n);
  }

  lemma PieceOfStream(past: seq<byte>, piece: seq<byte>, more: seq<byte>, k: nat, n: nat)
    requires 1 <= n < U32_LIMIT && past + (piece + more) == Stream(Alternating(k, n))
    requires Phase(|past|, n) == 4 && |piece| == n
    ensures piece[n - 1] as int == Frames(|past|, n) % 2
  {
    hide Phase, Frames, Stream, FrameStart;
    var bodies, j := Alternating(k, n), Frames(|past|, n);
    StreamLength(bodies, n);
    assert |past| + n <= |Stream(bodies)| == k * (n + 4) + 4;
    FrameOfPiece(|past|, k, n);
    StreamBody(bodies, n, j);
    LiesThere(past, piece, more, bodies[j]);
    assert bodies[j][n - 1] as int == j % 2;
  }

  lemma LiesThere(past: seq<byte>, piece: seq<byte>, more: seq<byte>, body: seq<byte>)
    requires LiesAt(past + (piece + more), |past|, body) && |piece| == |body|
    ensures piece == body
  {
  }

  /** A body that starts before the final size field is that of one of the k frames. */
  lemma FrameOfPiece(len: nat, k: nat, n: nat)
    requires 1 <= n && Phase(len, n) == 4 && len + n <= k * (n + 4) + 4
    ensures 4 <= len && Frames(len, n) < k && len - 4 == FrameStart(Frames(len, n), n)
  {
    PhaseAndFrames(len, n);
    if k <= Frames(len, n) { MulLe(k, Frames(len, n), n + 4); }
  }

  lemma {:induction false} SplitSpoils(s: Session, rest: seq<byte>, lens: seq<nat>, k: nat, n: nat)
    requires Valid(s, n) && s.past + rest == Stream(Alternating(k, n)) && Sum(lens) == |rest|
    requires Schedule(lens, |s.past|, |s.past| + |rest|, n) && FrameStream(s.past + rest, n)
    requires Wrong(s, n) || (Lagging(s, n) && !WholeBodies(lens, |s.past|, n))
    ensures Feedable(s, Cut(rest, lens), Ones(n))
    ensures Wrong(Feed(s, Cut(rest, lens), Ones(n)), n)
    decreases |lens|
  {
    hide Apply, Valid, Lagging, Wrong, Schedule, Stream, WholeBodies, FrameStream, Sound, Wanted;
    if lens == [] {
      NothingLeft(s, rest, k, n);
    } else {
      var piece, more, t := FirstOfSchedule(s, rest, lens, n, Ones(n));
      SpoilStep(s, piece, more, lens, k, n);
      SplitSpoils(t, more, lens[1..], k, n);
    }
  }

  lemma NothingLeft(s: Session, rest: seq<byte>, k: nat, n: nat)
    requires Valid(s, n) && s.past + rest == Stream(Alternating(k, n)) && rest == []
    ensures WholeBodies([], |s.past|, n)
  {
    hide Stream, Alternating, At, FrameStream, Complete, Frames;
    assert 1 <= n < U32_LIMIT;
    StreamLength(Alternating(k, n), n);
    PhaseAtEnd(k, n);
  }

  lemma PhaseAtEnd(k: nat, n: nat)
    requires 1 <= n
    ensures Phase(k * (n + 4) + 4, n) == 4
  {
    DivModOf(k, n + 4, 4);
  }

  lemma SpoilStep(s: Session, piece: seq<byte>, more: seq<byte>, lens: seq<nat>, k: nat, n: nat)
    requires Valid(s, n) && s.open && Sound(s.req) && |piece| <= Wanted(s.req) && Valid(Apply(s, piece, Ones(n)), n)
    requires s.past + (piece + more) == Stream(Alternating(k, n))
    requires lens != [] && lens[0] == |piece|
    requires Wrong(s, n) || (Lagging(s, n) && !WholeBodies(lens, |s.past|, n))
    ensures var t := Apply(s, piece, Ones(n));
            Wrong(t, n) || (Lagging(t, n) && !WholeBodies(lens[1..], |t.past|, n))
  {
    AtIsSound(s.req, s.past, n);
    var t := Apply(s, piece, Ones(n));
    if Wrong(s, n) {
      ApplyOnlyAppends(s, piece, n, Ones(n));
      WrongStays(s, t, n);
    } else if Phase(|s.past|, n) + |piece| < n + 4 {
      LagsOn(s, piece, n);
    } else {
      if |piece| == n { PieceOfStream(s.past, piece, more, k, n); }
      LagsOrWrong(s, piece, n);
    }
  }

  ghost predicate Faithful(bodies: seq<seq<byte>>, lens: seq<nat>, n: nat, junk: seq<byte>)
    requires 1 <= n < U32_LIMIT && Uniform(bodies, n) && Sum(lens) == |bodies| * (n + 4) + 4
  {
    StreamLength(bodies, n);
    var pieces := Cut(Stream(bodies), lens);
    Feedable(NEW, pieces, junk) && Feed(NEW, pieces, junk).sent == Flatten(bodies)
  }

  lemma WholeBodiesFromStart(all: seq<byte>, lens: seq<nat>, n: nat, junk: seq<byte>)
    requires 1 <= n < U32_LIMIT && FrameStream(all, n) && Sum(lens) == |all|
    requires Schedule(lens, 0, |all|, n) && WholeBodies(lens, 0, n)
    ensures Feedable(NEW, Cut(all, lens), junk) && Feed(NEW, Cut(all, lens), junk).sent == EchoOf(all, n)
  {
    hide Apply, Valid, FrameStream, Schedule, WholeBodies, Phase;
    NewIsValid(n);
    assert NEW.past + all == all;
    WholeBodiesAreFaithful(NEW, all, lens, n, junk);
  }

  lemma WholeBodiesSuffice(bodies: seq<seq<byte>>, lens: seq<nat>, n: nat, junk: seq<byte>)
    requires 1 <= n < U32_LIMIT && Uniform(bodies, n) && Sum(lens) == |bodies| * (n + 4) + 4
    requires Schedule(lens, 0, |bodies| * (n + 4) + 4, n) && WholeBodies(lens, 0, n)
    ensures Faithful(bodies, lens, n, junk)
  {
    hide Apply, FrameStream, Schedule, WholeBodies, Stream, Complete;
    StreamShape(bodies, n);
    EchoOfStream(bodies, n);
    WholeBodiesFromStart(Stream(bodies), lens, n, junk);
  }

  lemma WrongIsUnfaithful(k: nat, s: Session, n: nat)
    requires 1 <= n < U32_LIMIT && Wrong(s, n) && Frames(|s.past|, n) <= k
    ensures s.sent != Flatten(Alternating(k, n))
  {
    var j: nat :| j < Frames(|s.past|, n) && WrongAt(s, n, j);
    FlattenAt(Alternating(k, n), n, j);
  }

  lemma SplitFromStart(all: seq<byte>, lens: seq<nat>, k: nat, n: nat)
    requires 1 <= n < U32_LIMIT && all == Stream(Alternating(k, n)) && Sum(lens) == |all|
    requires FrameStream(all, n) && Schedule(lens, 0, |all|, n) && !WholeBodies(lens, 0, n)
    ensures Feedable(NEW, Cut(all, lens), Ones(n))
    ensures var s := Feed(NEW, Cut(all, lens), Ones(n)); Wrong(s, n) && s.past == all
  {
    hide Apply, FrameStream, Schedule, WholeBodies, Stream, Valid, Wrong, Alternating, Phase;
    NewIsValid(n);
    assert NEW.past + all == all;
    assert Lagging(NEW, n);
    SplitSpoils(NEW, all, lens, k, n);
    CutFlattens(all, lens);
    FeedValid(NEW, Cut(all, lens), n, Ones(n));
  }

  lemma SplitIsUnfaithful(k: nat, lens: seq<nat>, n: nat)
    requires 1 <= n < U32_LIMIT && Sum(lens) == k * (n + 4) + 4
    requires Schedule(lens, 0, k * (n + 4) + 4, n) && !WholeBodies(lens, 0, n)
    ensures !Faithful(Alternating(k, n), lens, n, Ones(n))
  {
    hide Apply, FrameStream, Schedule, WholeBodies, Stream, Valid, Wrong, Phase;
    var all := Stream(Alternating(k, n));
    StreamShape(Alternating(k, n), n);
    SplitFromStart(all, lens, k, n);
    DivModOf(k, n + 4, 4);
    WrongIsUnfaithful(k, Feed(NEW, Cut(all, lens), Ones(n)), n);
  }

  /** Reads of these lengths echo any k bodies of size n right, whatever fresh memory contains. */
  ghost predicate AlwaysFaithful(k: nat, lens: seq<nat>, n: nat)
    requires 1 <= n < U32_LIMIT && Sum(lens) == SessionLength(k, n)
  {
    forall bodies: seq<seq<byte>>, junk: seq<byte> | |bodies| == k && Uniform(bodies, n) ::
      Faithful(bodies, lens, n, junk)
  }

  /**
   Exactly when the echo is right: for k messages of size n read in pieces of lengths `lens`, the
   server sends back the bodies, whatever they and the fresh memory contain, if and only if no
   read_data call returned strictly inside a body.
   */
  lemma FaithfulExactlyWhenBodiesAreWhole(k: nat, lens: seq<nat>, n: nat)
    requires 1 <= n < U32_LIMIT && Schedule(lens, 0, SessionLength(k, n), n)
    ensures Sum(lens) == SessionLength(k, n)
    ensures WholeBodies(lens, 0, n) <==> AlwaysFaithful(k, lens, n)
  {
    ScheduleSum(lens, 0, SessionLength(k, n), n);
    if WholeBodies(lens, 0, n) {
      forall bodies: seq<seq<byte>>, junk: seq<byte> | |bodies| == k && Uniform(bodies, n)
        ensures Faithful(bodies, lens, n, junk)
      {
        WholeBodiesSuffice(bodies, lens, n, junk);
      }
    } else {
      SplitIsUnfaithful(k, lens, n);
    }
  }

  /** The smallest failing run: a two-byte body that arrives a byte at a time comes back as its second byte and junk. */
  lemma SplitBodyExample()
    ensures var lens: seq<nat> := [4, 1, 1, 4];
            Schedule(lens, 0, 1 * (2 + 4) + 4, 2) && !WholeBodies(lens, 0, 2) &&
            Sum(lens) == 10 && !Faithful(Alternating(1, 2), lens, 2, Ones(2))
  {
    var lens: seq<nat> := [4, 1, 1, 4];
    assert lens[1..] == [1, 1, 4] && lens[1..][1..] == [1, 4] && lens[1..][1..][1..] == [4];
    assert Schedule(lens[1..][1..], 5, 10, 2);
    assert Schedule(lens, 0, 10, 2);
    ScheduleSum(lens, 0, 10, 2);
    assert !WholeBodies(lens[1..][1..], 5, 2);
    SplitIsUnfaithful(1, lens, 2);
  }
}
