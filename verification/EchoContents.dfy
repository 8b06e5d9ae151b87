/**
 What the epoll server echoes, byte for byte: in every run each client's session is the parser of Segmentation
 fed with the results of the read_data calls for that client, so Fidelity says when its echo is right.
 */
module EchoContents {
  import opened Bytes
  import opened Framing
  import S = Segmentation
  import P = Fidelity
  import opened EventLoop
  import opened Wakeups
  import opened Completeness
  import Q = Quiescence

  /** A read_data call that returns in a step: for which client, and what it has read. */
  datatype Result = Result(client: nat, piece: seq<byte>)

  function ReadBy(s: State, step: EventLoop.Step): Option<Result>
  {
    match step
    case Recv(k, _) =>
      if s.task.Reading? && Live(s, s.task.fd) then
        var slot, got := s.slots[s.task.fd], s.task.got;
        var c := slot.conn.value;
        if got <= c.read && c.read + k <= |c.arrived| && Wanted(slot.req) <= got + k then
          Some(Result(c.client, c.arrived[c.read - got..c.read + k]))
        else None
      else None
    case RecvDry(_) =>
      if s.task.Reading? && Live(s, s.task.fd) then
        var slot, got := s.slots[s.task.fd], s.task.got;
        var c := slot.conn.value;
        if got <= c.read <= |c.arrived| then Some(Result(c.client, c.arrived[c.read - got..c.read])) else None
      else None
    case _ => None
  }

  /** What the step adds to the results for client c. */
  function AddedFor(s: State, step: EventLoop.Step, c: nat): seq<seq<byte>> {
    var r := ReadBy(s, step);
    if r.Some? && r.value.client == c then [r.value.piece] else []
  }

  /** The results of all read_data calls for client c in the first i steps. */
  ghost function Results(states: seq<State>, steps: seq<EventLoop.Step>, i: nat, c: nat): seq<seq<byte>>
    requires i <= |steps| < |states|
  {
    if i == 0 then [] else Results(states, steps, i - 1, c) + AddedFor(states[i - 1], steps[i - 1], c)
  }

  // ---------------------------------------------------------------------------------------------
  // Feeding
  // ---------------------------------------------------------------------------------------------

  ghost predicate FedTo(pieces: seq<seq<byte>>, junk: seq<byte>, s: Session) {
    S.Feedable(NEW, pieces, junk) && S.Feed(NEW, pieces, junk) == s
  }

  /** Once there is a buffer there will always be one. */
  lemma {:induction false} BufferStays(s: Session, pieces: seq<seq<byte>>, junk: seq<byte>)
    requires S.Feedable(s, pieces, junk) && S.Feed(s, pieces, junk).req.msg.None?
    ensures s.req.msg.None?
    decreases |pieces|
  {
    if pieces == [] {
      assert S.Feed(s, pieces, junk) == s;
    } else {
      BufferStays(Apply(s, pieces[0], junk), pieces[1..], junk);
    }
  }

  /** What malloc returns plays no part before it is called. */
  lemma {:induction false} JunkUnused(s: Session, pieces: seq<seq<byte>>, junk: seq<byte>, other: seq<byte>)
    requires S.Feedable(s, pieces, junk) && S.Feed(s, pieces, junk).req.msg.None?
    ensures S.Feedable(s, pieces, other) && S.Feed(s, pieces, other) == S.Feed(s, pieces, junk)
    decreases |pieces|
  {
    if pieces == [] {
      assert S.Feed(s, pieces, other) == s;
    } else {
      var t := Apply(s, pieces[0], junk);
      BufferStays(t, pieces[1..], junk);
      assert Apply(s, pieces[0], other) == t;
      JunkUnused(t, pieces[1..], junk, other);
    }
  }

  /** One more piece: the buffer's first contents are those of the run, whichever call allocates it. */
  lemma FedOn(
      pieces: seq<seq<byte>>, junk: seq<byte>, s: Session, piece: seq<byte>, now: seq<byte>) returns (used: seq<byte>)
    requires FedTo(pieces, junk, s) && s.open && Sound(s.req) && |piece| <= Wanted(s.req)
    ensures FedTo(pieces + [piece], used, Apply(s, piece, now))
  {
    if s.req.msg.None? {
      used := now;
      JunkUnused(NEW, pieces, junk, now);
    } else {
      used := junk;
      assert Apply(s, piece, now) == Apply(s, piece, junk);
    }
    S.FeedSnoc(NEW, pieces, piece, used);
  }

  // ---------------------------------------------------------------------------------------------
  // Every client's results, in every state of a run
  // ---------------------------------------------------------------------------------------------

  /** The session of the client in slot fd, without the read_data call under way, with the echo it is owed. */
  ghost function SessionAt(s: State, fd: nat): Session
    requires Live(s, fd) && SlotOk(s, fd)
  {
    SessionOf(s.slots[fd].req, s.slots[fd].conn.value, Got(s, fd), Left(s, fd))
  }

  ghost predicate InSlotFrom(s: State, fd: nat, pieces: seq<seq<byte>>) {
    Live(s, fd) && SlotOk(s, fd) && exists junk :: FedTo(pieces, junk, SessionAt(s, fd))
  }

  ghost predicate InLogFrom(s: State, i: nat, c: nat, pieces: seq<seq<byte>>) {
    && i < |s.log| && c < |s.clients|
    && exists junk, t :: FedTo(pieces, junk, t) && EndedAs(s.log[i], t, s.clients[c].written)
  }

  predicate EndedAs(r: Record, t: Session, written: seq<byte>) {
    !t.open && r.echoed == t.sent && r.total == |t.past| && t.past <= written
  }

  ghost predicate Traced(s: State, c: nat, pieces: seq<seq<byte>>) {
    if |s.places| <= c then pieces == []
    else
      match s.places[c]
      case InSlot(fd) => InSlotFrom(s, fd, pieces)
      case InLog(i) => InLogFrom(s, i, c, pieces)
  }

  /** Nothing happens to the session in slot fd. */
  ghost predicate Unmoved(s: State, t: State, fd: nat) {
    Live(s, fd) && Live(t, fd) && SlotOk(s, fd) && SlotOk(t, fd) && SessionAt(t, fd) == SessionAt(s, fd)
  }

  lemma UnmovedSlot(s: State, t: State, fd: nat)
    requires Live(s, fd) && SlotOk(s, fd) && fd < |t.slots| && t.slots[fd] == s.slots[fd] && SlotOk(t, fd)
    requires Got(s, fd) == Got(t, fd) && Left(s, fd) == Left(t, fd)
    ensures Unmoved(s, t, fd)
  {
  }

  lemma UnmovedByArrive(s: State, fd: nat, k: nat)
    requires Inv(s) && Enabled(s, Arrive(fd, k)) && SlotOk(s, fd) && SlotOk(Next(s, Arrive(fd, k)), fd)
    ensures Unmoved(s, Next(s, Arrive(fd, k)), fd)
  {
    var t, c := Next(s, Arrive(fd, k)), s.slots[fd].conn.value;
    ConnOf(s, fd);
    var w, n := s.clients[c.client].written, c.read - Got(s, fd);
    assert c.arrived == w[..|c.arrived|];
    assert c.arrived[..n] == w[..n] == w[..|c.arrived| + k][..n];
  }

  lemma UnmovedBySend(s: State, k: nat)
    requires Inv(s) && Enabled(s, Send(k)) && SlotOk(s, s.task.fd) && SlotOk(Next(s, Send(k)), s.task.fd)
    ensures Unmoved(s, Next(s, Send(k)), s.task.fd)
  {
    hide Inv, SlotOk;
    var left := s.task.left;
    assert left == left[..k] + left[k..];
    var c := s.slots[s.task.fd].conn.value;
    assert c.sent + left == (c.sent + left[..k]) + left[k..];
    assert (c.sent + left[..k]) + [] == c.sent + left[..k];
  }

  /** A read_data call that goes on. */
  lemma UnmovedByPart(s: State, k: nat, junk: seq<byte>)
    requires Inv(s) && Enabled(s, Recv(k, junk)) && s.task.got + k < Wanted(s.slots[s.task.fd].req)
    requires SlotOk(s, s.task.fd) && SlotOk(Next(s, Recv(k, junk)), s.task.fd)
    ensures Unmoved(s, Next(s, Recv(k, junk)), s.task.fd)
  {
  }

  lemma UnmovedBySendFull(s: State)
    requires Inv(s) && Enabled(s, SendFull) && SlotOk(s, s.task.fd) && SlotOk(Next(s, SendFull), s.task.fd)
    ensures Unmoved(s, Next(s, SendFull), s.task.fd)
  {
  }

  lemma UnmovedByAdd(s: State)
    requires Inv(s) && Enabled(s, Add) && SlotOk(s, s.task.fd) && SlotOk(Next(s, Add), s.task.fd)
    ensures Unmoved(s, Next(s, Add), s.task.fd)
  {
  }

  /** The state in which read_data returns. */
  ghost function Returning(s: State, step: EventLoop.Step): State
    requires Enabled(s, step)
  {
    match step
    case Recv(k, _) => ReadMore(s, k).(task := Reading(s.task.fd, s.task.got + k))
    case _ => s
  }

  ghost predicate Returns(s: State, step: EventLoop.Step)
    requires Enabled(s, step)
  {
    step.RecvDry? || (step.Recv? && Wanted(s.slots[s.task.fd].req) <= s.task.got + step.count)
  }

  lemma ReturningSession(s: State, step: EventLoop.Step)
    requires Inv(s) && Enabled(s, step) && Returns(s, step)
    ensures var u, fd := Returning(s, step), s.task.fd;
            && Live(s, fd) && SlotOk(s, fd) && Live(u, fd) && u.task.Reading? && u.task.fd == fd
            && u.slots[fd].req == s.slots[fd].req && u.clients == s.clients && u.places == s.places && u.log == s.log
            && var c := u.slots[fd].conn.value;
               && u.task.got <= c.read <= |c.arrived| && Sound(u.slots[fd].req) && u.task.got <= Wanted(u.slots[fd].req)
               && c.client == s.slots[fd].conn.value.client
               && SessionOf(u.slots[fd].req, c, u.task.got, []) == SessionAt(s, fd)
               && ReadBy(s, step) == Some(Result(c.client, c.arrived[c.read - u.task.got..c.read]))
               && Next(s, step) == AfterRead(u, fd, u.task.got, step.junk)
  {
    hide Valid, Absorb;
    ConnOf(s, s.task.fd);
    if step.Recv? {
      Q.AfterReadForgetsTask(ReadMore(s, step.count), s.task.fd, s.task.got + step.count, step.junk,
                             Reading(s.task.fd, s.task.got + step.count));
    }
  }

  /** A call that leaves the client in its slot. */
  lemma StaysInSlot(t: State, fd: nat, pieces: seq<seq<byte>>, junk: seq<byte>, session: Session)
    requires Live(t, fd) && SlotOk(t, fd) && SessionAt(t, fd) == session && FedTo(pieces, junk, session)
    ensures InSlotFrom(t, fd, pieces)
  {
  }

  lemma EntersLog(t: State, i: nat, c: nat, pieces: seq<seq<byte>>, junk: seq<byte>, session: Session)
    requires i < |t.log| && c < |t.clients| && FedTo(pieces, junk, session)
    requires EndedAs(t.log[i], session, t.clients[c].written)
    ensures InLogFrom(t, i, c, pieces)
  {
  }

  /** The bytes of a session that has just ended. */
  lemma EndsAt(s: State, step: EventLoop.Step)
    requires Inv(s) && Enabled(s, step) && Returns(s, step)
    ensures var u, fd := Returning(s, step), s.task.fd;
            && Live(u, fd) && Sound(u.slots[fd].req) && u.task.Reading?
            && var c, got := u.slots[fd].conn.value, u.task.got;
               && got <= c.read <= |c.arrived| && got <= Wanted(u.slots[fd].req) && c.client < |s.clients|
               && c.arrived <= s.clients[c.client].written
               && match Absorb(u.slots[fd].req, c.arrived[c.read - got..c.read], step.junk)
                  case Finished(r) => r.transferred == c.read
                  case _ => true
  {
    hide Valid, Absorb;
    ReturningSession(s, step);
    var u, fd := Returning(s, step), s.task.fd;
    ConnOf(s, fd);
    var c := u.slots[fd].conn.value;
    FramedAt(s, c.client);
    AbsorbSession(u.slots[fd].req, c, u.task.got, s.clients[c.client].written, s.clients[c.client].size, step.junk);
  }

  /** The two ways a read_data call can leave the client: in its slot, or in the log. */
  lemma AfterReadTraced(
      u: State, fd: nat, got: nat, now: seq<byte>, pieces: seq<seq<byte>>, used: seq<byte>, session: Session)
    requires Live(u, fd) && Sound(u.slots[fd].req) && got <= Wanted(u.slots[fd].req)
    requires var c := u.slots[fd].conn.value;
             && got <= c.read <= |c.arrived| && c.client < |u.places| && u.places[c.client] == InSlot(fd)
             && c.client < |u.clients| && c.arrived <= u.clients[c.client].written
             && session == Apply(SessionOf(u.slots[fd].req, c, got, []), c.arrived[c.read - got..c.read], now)
             && match Absorb(u.slots[fd].req, c.arrived[c.read - got..c.read], now)
                case Finished(r) => r.transferred == c.read
                case _ => true
    requires forall f: nat | f < |AfterRead(u, fd, got, now).slots| :: SlotOk(AfterRead(u, fd, got, now), f)
    requires FedTo(pieces, used, session)
    ensures Traced(AfterRead(u, fd, got, now), u.slots[fd].conn.value.client, pieces)
  {
    hide Absorb, Apply, Wanted, Sound, FedTo, SlotOk, InSlotFrom, InLogFrom;
    var t, req, c := AfterRead(u, fd, got, now), u.slots[fd].req, u.slots[fd].conn.value;
    AbsorbIsApply(req, c, got, now);
    match Absorb(req, c.arrived[c.read - got..c.read], now)
    case Finished(r) => EntersLog(t, |u.log|, c.client, pieces, used, session);
    case _ => StaysInSlot(t, fd, pieces, used, session);
  }

  lemma TracedByReturn(s: State, step: EventLoop.Step, pieces: seq<seq<byte>>)
    requires Inv(s) && Enabled(s, step) && Returns(s, step) && Inv(Next(s, step))
    requires InSlotFrom(s, s.task.fd, pieces)
    ensures var r := ReadBy(s, step);
            r.Some? && r.value.client == s.slots[s.task.fd].conn.value.client
            && Traced(Next(s, step), r.value.client, pieces + [r.value.piece])
  {
    hide Inv, Valid, Absorb, Apply, Wanted, Sound, FedTo, SlotOk, Next, Returning, ReadBy, AfterRead, Traced;
    ReturningSession(s, step);
    EndsAt(s, step);
    PlaceOfSlot(s, s.task.fd);
    SlotsOkOf(Next(s, step));
    var u, fd := Returning(s, step), s.task.fd;
    var c, got := u.slots[fd].conn.value, u.task.got;
    var piece := c.arrived[c.read - got..c.read];
    var junk :| FedTo(pieces, junk, SessionAt(s, fd));
    var used := FedOn(pieces, junk, SessionAt(s, fd), piece, step.junk);
    AfterReadTraced(u, fd, got, step.junk, pieces + [piece], used, Apply(SessionAt(s, fd), piece, step.junk));
  }

  lemma SlotsOkOf(s: State)
    requires Inv(s)
    ensures forall fd: nat | fd < |s.slots| :: SlotOk(s, fd)
  {
  }

  lemma PlaceOfSlot(s: State, fd: nat)
    requires Inv(s) && Live(s, fd)
    ensures var c := s.slots[fd].conn.value.client;
            SlotOk(s, fd) && c < |s.places| && c < |s.clients| && s.places[c] == InSlot(fd)
  {
    ConnOf(s, fd);
  }

  /** A step in the handling of another descriptor. */
  lemma UnmovedByOther(s: State, step: EventLoop.Step, fd: nat)
    requires Inv(s) && Enabled(s, step) && Live(s, fd) && SlotOk(s, fd)
    requires |Next(s, step).slots| == |s.slots| && SlotOk(Next(s, step), fd)
    requires (step.Recv? || step.RecvDry? || step.Send? || step.SendFull?) && s.task.fd != fd
    ensures Unmoved(s, Next(s, step), fd)
  {
    hide Absorb, Wanted, Sound, Valid, SlotOk, Inv;
    if step.Recv? {
      RecvShape(s, step.count, step.junk);
    } else if step.RecvDry? {
      AfterReadShape(s, s.task.fd, s.task.got, step.junk);
    }
    UnmovedSlot(s, Next(s, step), fd);
  }

  lemma SlotTableStays(s: State, step: EventLoop.Step)
    requires Enabled(s, step)
    ensures |Next(s, step).slots| == |s.slots|
  {
    hide Absorb, Wanted, Sound;
  }

  /** A step in the handling of fd that does not end a read_data call. */
  lemma UnmovedByHandling(s: State, step: EventLoop.Step)
    requires Inv(s) && Enabled(s, step) && !Returns(s, step)
    requires step.Recv? || step.RecvDry? || step.Send? || step.SendFull?
    requires SlotOk(s, s.task.fd) && SlotOk(Next(s, step), s.task.fd)
    ensures Unmoved(s, Next(s, step), s.task.fd)
  {
    hide Inv, SlotOk, Absorb, Sound;
    match step
    case Recv(k, junk) => UnmovedByPart(s, k, junk);
    case Send(k) => UnmovedBySend(s, k);
    case SendFull => UnmovedBySendFull(s);
  }

  /** A step of another kind. */
  lemma UnmovedByRest(s: State, step: EventLoop.Step, fd: nat)
    requires Inv(s) && Enabled(s, step) && Live(s, fd) && SlotOk(s, fd)
    requires |Next(s, step).slots| == |s.slots| && SlotOk(Next(s, step), fd)
    requires !step.Recv? && !step.RecvDry? && !step.Send? && !step.SendFull?
    ensures Unmoved(s, Next(s, step), fd)
  {
    hide Inv, SlotOk, Absorb, Sound, Wanted;
    if step.Arrive? && step.fd == fd {
      UnmovedByArrive(s, fd, step.count);
    } else if step.Add? && s.task.fd == fd {
      UnmovedByAdd(s);
    } else {
      UnmovedSlot(s, Next(s, step), fd);
    }
  }

  lemma UnmovedBy(s: State, step: EventLoop.Step, fd: nat)
    requires Inv(s) && Enabled(s, step) && Live(s, fd) && Inv(Next(s, step))
    requires !(Returns(s, step) && s.task.fd == fd)
    ensures SlotOk(s, fd) && Unmoved(s, Next(s, step), fd)
  {
    hide Inv, SlotOk, Unmoved, Returns, Next, Enabled;
    SlotTableStays(s, step);
    SlotsOkOf(s);
    SlotsOkOf(Next(s, step));
    if step.Recv? || step.RecvDry? || step.Send? || step.SendFull? {
      TaskHasFd(s, step);
      if s.task.fd == fd { UnmovedByHandling(s, step); } else { UnmovedByOther(s, step, fd); }
    } else {
      UnmovedByRest(s, step, fd);
    }
  }

  lemma TaskHasFd(s: State, step: EventLoop.Step)
    requires Enabled(s, step) && (step.Recv? || step.RecvDry? || step.Send? || step.SendFull?)
    ensures s.task.Reading? || s.task.Echoing?
  {
  }

  // ---------------------------------------------------------------------------------------------
  // One step
  // ---------------------------------------------------------------------------------------------

  /** Which client a step adds a result for, if any. */
  lemma AddsForHandled(s: State, step: EventLoop.Step, c: nat)
    requires Inv(s) && Enabled(s, step)
    ensures !Returns(s, step) ==> AddedFor(s, step, c) == []
    ensures Returns(s, step) ==> (s.task.Reading? && Live(s, s.task.fd) &&
              (s.slots[s.task.fd].conn.value.client != c ==> AddedFor(s, step, c) == []))
  {
    hide Absorb, Valid;
    if Returns(s, step) { ReturningSession(s, step); }
  }

  /** What a step does to the places of the clients. */
  lemma PlacesMove(s: State, step: EventLoop.Step, c: nat)
    requires Inv(s) && Enabled(s, step) && c < |s.places| && c < |s.clients|
    ensures var t := Next(s, step);
            && c < |t.places| && c < |t.clients| && s.clients[c].written <= t.clients[c].written
            && s.log <= t.log
            && (!(Returns(s, step) && Live(s, s.task.fd) && s.slots[s.task.fd].conn.value.client == c) ==>
                  t.places[c] == s.places[c])
  {
    hide Absorb, Wanted, Sound, Valid;
    if step.Recv? {
      RecvShape(s, step.count, step.junk);
    } else if step.RecvDry? {
      AfterReadShape(s, s.task.fd, s.task.got, step.junk);
    }
  }

  /** The client's place is where it was, unless it is the one a read_data call returns for. */
  lemma PlaceStays(s: State, step: EventLoop.Step, c: nat)
    requires Inv(s) && Enabled(s, step) && c < |s.places|
    requires Returns(s, step) ==> s.places[c] != InSlot(s.task.fd)
    ensures AddedFor(s, step, c) == []
    ensures c < |Next(s, step).places| && Next(s, step).places[c] == s.places[c]
  {
    hide Inv, Next, Enabled, AddedFor;
    PlaceFacts(s, c);
    AddsForHandled(s, step, c);
    if Returns(s, step) { PlaceOfSlot(s, s.task.fd); }
    PlacesMove(s, step, c);
  }

  lemma SlotTraced(t: State, c: nat, fd: nat, pieces: seq<seq<byte>>)
    requires c < |t.places| && t.places[c] == InSlot(fd) && InSlotFrom(t, fd, pieces)
    ensures Traced(t, c, pieces)
  {
  }

  /** A client in a slot whose read_data call does not return. */
  lemma TracedInSlot(s: State, step: EventLoop.Step, c: nat, fd: nat, pieces: seq<seq<byte>>)
    requires Inv(s) && Enabled(s, step) && Inv(Next(s, step))
    requires c < |s.places| && s.places[c] == InSlot(fd) && InSlotFrom(s, fd, pieces)
    requires Live(s, fd) && !(Returns(s, step) && s.task.fd == fd)
    ensures Traced(Next(s, step), c, pieces) && AddedFor(s, step, c) == []
  {
    hide Inv, Traced, InSlotFrom, Unmoved, Next, Enabled, AddedFor;
    UnmovedBy(s, step, fd);
    PlaceStays(s, step, c);
    UnmovedIsTraced(s, Next(s, step), fd, pieces);
    SlotTraced(Next(s, step), c, fd, pieces);
  }

  lemma UnmovedIsTraced(s: State, t: State, fd: nat, pieces: seq<seq<byte>>)
    requires InSlotFrom(s, fd, pieces) && Unmoved(s, t, fd)
    ensures InSlotFrom(t, fd, pieces)
  {
    hide SlotOk, FedTo;
    var junk :| FedTo(pieces, junk, SessionAt(s, fd));
    StaysInSlot(t, fd, pieces, junk, SessionAt(s, fd));
  }

  lemma TracedInLog(s: State, step: EventLoop.Step, c: nat, i: nat, pieces: seq<seq<byte>>)
    requires Inv(s) && Enabled(s, step)
    requires c < |s.places| && c < |s.clients| && s.places[c] == InLog(i) && InLogFrom(s, i, c, pieces)
    ensures Traced(Next(s, step), c, pieces) && AddedFor(s, step, c) == []
  {
    hide Inv, FedTo, Next, Enabled, AddedFor;
    PlaceStays(s, step, c);
    PlacesMove(s, step, c);
    var junk, t :| FedTo(pieces, junk, t) && EndedAs(s.log[i], t, s.clients[c].written);
    EntersLog(Next(s, step), i, c, pieces, junk, t);
  }

  /** A client that has yet to be accepted. */
  lemma TracedNotYet(s: State, step: EventLoop.Step, c: nat)
    requires Inv(s) && Enabled(s, step) && |s.places| <= c && Inv(Next(s, step))
    ensures Traced(Next(s, step), c, []) && AddedFor(s, step, c) == []
  {
    hide Inv, Returns, AddedFor, Next, Enabled, SlotOk, FedTo;
    var t := Next(s, step);
    AddsForHandled(s, step, c);
    if Returns(s, step) { PlaceOfSlot(s, s.task.fd); }
    PlacesGrow(s, step);
    if step.Accept? && c == |s.places| {
      SlotTableStays(s, step);
      AcceptsInTable(s, step.fd);
      SlotsOkOf(s);
      SlotsOkOf(t);
      NewSession(s, step.fd);
      FedNothing();
      StaysInSlot(t, step.fd, [], [], NEW);
    }
  }

  lemma PlacesGrow(s: State, step: EventLoop.Step)
    requires Inv(s) && Enabled(s, step)
    ensures |Next(s, step).places| == |s.places| + (if step.Accept? then 1 else 0)
  {
    hide Absorb, Wanted, Sound, Valid;
    if step.Recv? {
      RecvShape(s, step.count, step.junk);
    } else if step.RecvDry? {
      AfterReadShape(s, s.task.fd, s.task.got, step.junk);
    }
  }

  lemma AcceptsInTable(s: State, fd: nat)
    requires Enabled(s, Accept(fd))
    ensures fd < |s.slots|
  {
  }

  lemma FedNothing()
    ensures FedTo([], [], NEW)
  {
  }

  lemma NewSession(s: State, fd: nat)
    requires Inv(s) && Enabled(s, Accept(fd)) && fd < |Next(s, Accept(fd)).slots| && fd < |s.slots|
    requires SlotOk(s, fd) && SlotOk(Next(s, Accept(fd)), fd)
    ensures var t := Next(s, Accept(fd));
            Live(t, fd) && SessionAt(t, fd) == NEW && |t.places| == |s.places| + 1 && t.places[|s.places|] == InSlot(fd)
  {
    assert QueuedOk(s, 0);
  }

  lemma TracedKept(s: State, step: EventLoop.Step, c: nat, pieces: seq<seq<byte>>)
    requires Inv(s) && Enabled(s, step) && Inv(Next(s, step)) && Traced(s, c, pieces)
    ensures Traced(Next(s, step), c, pieces + AddedFor(s, step, c))
  {
    hide Inv, Next, Enabled, Returns, AddedFor, SlotOk, InSlotFrom, InLogFrom;
    assert pieces + [] == pieces;
    if |s.places| <= c {
      TracedNotYet(s, step, c);
    } else {
      PlaceFacts(s, c);
      match s.places[c]
      case InLog(i) => TracedInLog(s, step, c, i, pieces);
      case InSlot(fd) =>
        AddsForHandled(s, step, c);
        if Returns(s, step) && s.task.fd == fd {
          TracedByReturn(s, step, pieces);
          AddsResult(s, step, c);
        } else {
          TracedInSlot(s, step, c, fd, pieces);
        }
    }
  }

  lemma PlaceFacts(s: State, c: nat)
    requires Inv(s) && c < |s.places|
    ensures c < |s.clients|
    ensures s.places[c].InSlot? ==> Live(s, s.places[c].fd) && s.slots[s.places[c].fd].conn.value.client == c
  {
    assert PlaceOk(s, c);
  }

  lemma AddsResult(s: State, step: EventLoop.Step, c: nat)
    requires ReadBy(s, step).Some? && ReadBy(s, step).value.client == c
    ensures AddedFor(s, step, c) == [ReadBy(s, step).value.piece]
  {
  }

  lemma RunStep(states: seq<State>, steps: seq<EventLoop.Step>, i: nat)
    requires Q.Behaviour(states, steps) && i < |steps| && i + 1 < |states|
    ensures Inv(states[i]) && Enabled(states[i], steps[i]) && states[i + 1] == Next(states[i], steps[i])
    ensures Inv(states[i + 1])
  {
    hide Inv, Enabled, Next;
    Q.Reached(states, steps, i);
    Q.Reached(states, steps, i + 1);
  }

  lemma NobodyYet(states: seq<State>, steps: seq<EventLoop.Step>, c: nat)
    requires Q.Behaviour(states, steps)
    ensures |states| == |steps| + 1 && Traced(states[0], c, [])
  {
  }

  lemma {:induction false} RunTraced(states: seq<State>, steps: seq<EventLoop.Step>, i: nat, c: nat)
    requires Q.Behaviour(states, steps) && |steps| < |states| && i <= |steps|
    ensures Traced(states[i], c, Results(states, steps, i, c))
  {
    hide Q.Behaviour, Inv, Traced, Enabled, Next, AddedFor;
    NobodyYet(states, steps, c);
    if i == 0 {
      assert Results(states, steps, 0, c) == [];
    } else {
      RunTraced(states, steps, i - 1, c);
      RunStep(states, steps, i - 1);
      TracedKept(states[i - 1], steps[i - 1], c, Results(states, steps, i - 1, c));
    }
  }

  // ---------------------------------------------------------------------------------------------
  // At rest
  // ---------------------------------------------------------------------------------------------

  function Lengths(pieces: seq<seq<byte>>): (lens: seq<nat>)
    ensures |lens| == |pieces|
  {
    if pieces == [] then [] else [|pieces[0]|] + Lengths(pieces[1..])
  }

  lemma {:induction false} CutByLengths(pieces: seq<seq<byte>>)
    ensures P.Sum(Lengths(pieces)) == |Flatten(pieces)|
    ensures P.Cut(Flatten(pieces), Lengths(pieces)) == pieces
  {
    if pieces == [] {
      assert P.Cut([], []) == [];
    } else {
      CutByLengths(pieces[1..]);
      var all, lens := Flatten(pieces), Lengths(pieces);
      assert lens[0] == |pieces[0]| && lens[1..] == Lengths(pieces[1..]);
      assert all[..lens[0]] == pieces[0] && all[lens[0]..] == Flatten(pieces[1..]);
    }
  }

  lemma AsksFor(s: Session, n: nat)
    requires Valid(s, n) && s.open
    ensures Wanted(s.req) == P.WantedAt(|s.past|, n)
  {
    AtIsSound(s.req, s.past, n);
  }

  lemma NotYetComplete(s: Session, rest: seq<byte>, n: nat)
    requires Valid(s, n) && s.open && Complete(s.past + rest, n)
    ensures rest != []
  {
    assert s.past + [] == s.past;
  }

  /** The results of read_data calls that make up a whole session form a schedule. */
  lemma {:induction false} ResultsAreScheduled(s: Session, pieces: seq<seq<byte>>, n: nat, junk: seq<byte>)
    requires Valid(s, n) && S.Feedable(s, pieces, junk)
    requires FrameStream(s.past + Flatten(pieces), n) && Complete(s.past + Flatten(pieces), n)
    ensures P.Schedule(Lengths(pieces), |s.past|, |s.past + Flatten(pieces)|, n)
    decreases |pieces|
  {
    hide Apply, Valid, FrameStream, Complete, P.WantedAt, Sound, Wanted;
    if pieces == [] {
      assert s.past + [] == s.past;
    } else {
      var piece, rest := pieces[0], Flatten(pieces[1..]);
      var t := Apply(s, piece, junk);
      assert s.past + Flatten(pieces) == (s.past + piece) + rest;
      AsksFor(s, n);
      NotYetComplete(s, Flatten(pieces), n);
      FrameStreamPrefix(s.past + piece, rest, n);
      Advance(s, piece, n, junk);
      S.ApplyPast(s, piece, junk);
      ResultsAreScheduled(t, pieces[1..], n, junk);
      assert Lengths(pieces)[1..] == Lengths(pieces[1..]);
    }
  }

  /** Client c's line in the log reports these bytes as echoed. */
  ghost predicate LogsEcho(s: State, c: nat, echoed: seq<byte>) {
    exists i | 0 <= i < |s.log| :: s.log[i].client == c && s.log[i].echoed == echoed
  }

  lemma LoggedAtRest(s: State, c: nat, pieces: seq<seq<byte>>) returns (junk: seq<byte>)
    requires Inv(s) && Q.Quiescent(s) && c < |s.clients| && Traced(s, c, pieces)
    requires Complete(s.clients[c].written, s.clients[c].size)
    ensures S.Feedable(NEW, pieces, junk) && Flatten(pieces) == s.clients[c].written
    ensures LogsEcho(s, c, S.Feed(NEW, pieces, junk).sent)
  {
    var w := s.clients[c].written;
    Q.AnsweredAtRest(s, c);
    assert PlaceOk(s, c);
    var i := s.places[c].index;
    assert RecordOk(s, i) && s.log[i].client == c;
    hide Inv, Q.Quiescent, Complete;
    var used, t :| FedTo(pieces, used, t) && EndedAs(s.log[i], t, w);
    junk := used;
    S.FeedPast(NEW, pieces, junk);
    assert t.past == [] + Flatten(pieces) == Flatten(pieces);
    assert t.past == w;
  }

  lemma FaithfulTo(pieces: seq<seq<byte>>, bodies: seq<seq<byte>>, n: nat, junk: seq<byte>)
    requires 1 <= n < U32_LIMIT && S.Uniform(bodies, n)
    requires S.Feedable(NEW, pieces, junk) && Flatten(pieces) == S.Stream(bodies)
    requires P.Schedule(Lengths(pieces), 0, S.SessionLength(|bodies|, n), n) && P.WholeBodies(Lengths(pieces), 0, n)
    ensures S.Feed(NEW, pieces, junk).sent == Flatten(bodies)
  {
    hide P.Schedule, P.WholeBodies, S.Stream, S.Feedable, S.Feed;
    CutByLengths(pieces);
    P.ScheduleSum(Lengths(pieces), 0, S.SessionLength(|bodies|, n), n);
    P.WholeBodiesSuffice(bodies, Lengths(pieces), n, junk);
  }

  /** A whole session read in these pieces: a schedule, and the echo that goes with it. */
  lemma WholeSession(pieces: seq<seq<byte>>, bodies: seq<seq<byte>>, n: nat, junk: seq<byte>)
    requires 1 <= n < U32_LIMIT && S.Uniform(bodies, n)
    requires S.Feedable(NEW, pieces, junk) && Flatten(pieces) == S.Stream(bodies)
    ensures P.Schedule(Lengths(pieces), 0, S.SessionLength(|bodies|, n), n)
    ensures P.WholeBodies(Lengths(pieces), 0, n) ==> S.Feed(NEW, pieces, junk).sent == Flatten(bodies)
  {
    hide P.Schedule, P.WholeBodies, S.Stream, S.SessionLength, S.Feedable, S.Feed, Complete, FrameStream, S.Uniform;
    S.StreamEnds(bodies, n);
    CutByLengths(pieces);
    NewIsValid(n);
    assert NEW.past + Flatten(pieces) == Flatten(pieces);
    ResultsAreScheduled(NEW, pieces, n, junk);
    if P.WholeBodies(Lengths(pieces), 0, n) { FaithfulTo(pieces, bodies, n, junk); }
  }

  lemma SizeOf(s: State, c: nat)
    requires Inv(s) && c < |s.clients|
    ensures 1 <= s.clients[c].size < U32_LIMIT
  {
  }

  /** What client c has been sent back, if it has sent these bodies, and the lengths of the reads. */
  lemma ContentsAtRest(
      s: State, c: nat, pieces: seq<seq<byte>>, bodies: seq<seq<byte>>, n: nat) returns (junk: seq<byte>)
    requires Inv(s) && Q.Quiescent(s) && c < |s.clients| && Traced(s, c, pieces)
    requires n == s.clients[c].size && s.clients[c].written == S.Stream(bodies) && S.Uniform(bodies, n)
    ensures 1 <= n < U32_LIMIT && P.Schedule(Lengths(pieces), 0, S.SessionLength(|bodies|, n), n)
    ensures S.Feedable(NEW, pieces, junk) && Flatten(pieces) == S.Stream(bodies)
    ensures LogsEcho(s, c, S.Feed(NEW, pieces, junk).sent)
    ensures P.WholeBodies(Lengths(pieces), 0, n) ==> LogsEcho(s, c, Flatten(bodies))
  {
    hide P.Schedule, P.WholeBodies, S.Stream, S.SessionLength, S.Feedable, S.Feed, Inv, Q.Quiescent, Traced, Complete;
    SizeOf(s, c);
    S.StreamEnds(bodies, n);
    junk := LoggedAtRest(s, c, pieces);
    WholeSession(pieces, bodies, n, junk);
  }

  /**
   The contents at rest. For a client that has sent k bodies of its size, in whatever pieces read_data
   returned them, the echo its line in the log reports is that of the parser fed with those pieces; and it
   is right for all bodies, hence for these, if and only if no call returned strictly inside a body.
   */
  lemma QuiescentContents(
      states: seq<State>, steps: seq<EventLoop.Step>, s: State, c: nat, bodies: seq<seq<byte>>, n: nat, lens: seq<nat>)
      returns (junk: seq<byte>)
    requires Q.Behaviour(states, steps) && |steps| < |states| && s == states[|steps|] && Q.Quiescent(s)
    requires c < |s.clients| && n == s.clients[c].size && s.clients[c].written == S.Stream(bodies)
    requires S.Uniform(bodies, n)
    requires lens == Lengths(Results(states, steps, |steps|, c))
    ensures S.Feedable(NEW, Results(states, steps, |steps|, c), junk)
    ensures LogsEcho(s, c, S.Feed(NEW, Results(states, steps, |steps|, c), junk).sent)
    ensures 1 <= n < U32_LIMIT && P.Sum(lens) == S.SessionLength(|bodies|, n)
    ensures P.WholeBodies(lens, 0, n) <==> P.AlwaysFaithful(|bodies|, lens, n)
    ensures P.WholeBodies(lens, 0, n) ==> LogsEcho(s, c, Flatten(bodies))
  {
    hide Inv, Q.Behaviour, Q.Quiescent, Traced;
    hide S.Stream, S.SessionLength, S.Feedable, S.Feed, P.Schedule, P.AlwaysFaithful;
    Q.Reached(states, steps, |steps|);
    RunTraced(states, steps, |steps|, c);
    junk := ContentsAtRest(s, c, Results(states, steps, |steps|, c), bodies, n);
    P.FaithfulExactlyWhenBodiesAreWhole(|bodies|, lens, n);
  }
}
