/**
 What the event loop owes its clients: in every reachable state each descriptor's request agrees
 with the bytes its connection has delivered, and when nothing is left to do every client that has
 finished sending has been answered, logged and forgotten.
 */
module Completeness {
  import opened Bytes
  import opened Framing
  import opened EventLoop
  import opened Wakeups

  function Got(s: State, fd: nat): nat {
    if s.task.Reading? && s.task.fd == fd then s.task.got else 0
  }

  function Left(s: State, fd: nat): seq<byte> {
    if s.task.Echoing? && s.task.fd == fd then s.task.left else []
  }

  /** The connection as handle_request sees it: without the bytes of a read_data call under way, with the echo owed. */
  function SessionOf(req: Request, c: Conn, got: nat, left: seq<byte>): Session
    requires got <= c.read <= |c.arrived|
  {
    Session(c.arrived[..c.read - got], req, c.sent + left, true)
  }

  predicate ClientsOk(s: State) {
    forall c | 0 <= c < |s.clients| :: 1 <= s.clients[c].size < U32_LIMIT
  }

  ghost predicate Framed(s: State) {
    forall c | 0 <= c < |s.clients| :: FrameStream(s.clients[c].written, s.clients[c].size)
  }

  ghost predicate ConnOk(s: State, fd: nat, c: Conn)
    requires fd < |s.slots|
  {
    && c.client < |s.places| && c.client < |s.clients| && s.places[c.client] == InSlot(fd)
    && c.arrived <= s.clients[c.client].written
    && Got(s, fd) <= c.read <= |c.arrived|
    && Valid(SessionOf(s.slots[fd].req, c, Got(s, fd), Left(s, fd)), s.clients[c.client].size)
    && Got(s, fd) <= Wanted(s.slots[fd].req)
    && (s.task.Echoing? && s.task.fd == fd ==> s.task.left != [])
    && (!c.registered ==> s.task == Adding(fd))
  }

  ghost predicate SlotOk(s: State, fd: nat)
    requires fd < |s.slots|
  {
    match s.slots[fd].conn
    case None => s.slots[fd].req == FRESH
    case Some(c) => ConnOk(s, fd, c)
  }

  /** accept takes connections in the order in which clients made them. */
  predicate QueuedOk(s: State, i: nat)
    requires i < |s.backlog|
  {
    var c := s.backlog[i];
    && c.client == |s.places| + i < |s.clients|
    && c.arrived <= s.clients[c.client].written && c.read == 0 && c.sent == [] && !c.registered
  }

  predicate PlaceOk(s: State, c: nat)
    requires c < |s.places|
  {
    match s.places[c]
    case InSlot(fd) => Live(s, fd) && s.slots[fd].conn.value.client == c
    case InLog(i) => i < |s.log| && s.log[i].client == c
  }

  predicate RecordOk(s: State, i: nat)
    requires i < |s.log|
  {
    var r := s.log[i];
    && r.client < |s.places| && r.client < |s.clients| && s.places[r.client] == InLog(i)
    && var cl := s.clients[r.client];
       Complete(cl.written, cl.size) && r.total == |cl.written| && |r.echoed| == Frames(|cl.written|, cl.size) * cl.size
  }

  /** The accepted clients that are not in the log yet. */
  function InService(places: seq<Place>): nat {
    if places == [] then 0 else (if places[0].InSlot? then 1 else 0) + InService(places[1..])
  }

  lemma {:induction false} InServiceSnoc(places: seq<Place>, p: Place)
    ensures InService(places + [p]) == InService(places) + (if p.InSlot? then 1 else 0)
  {
    if places == [] {
      assert [p][1..] == [];
    } else {
      InServiceSnoc(places[1..], p);
      assert (places + [p])[1..] == places[1..] + [p];
    }
  }

  lemma {:induction false} InServiceLogged(places: seq<Place>, c: nat, p: Place)
    requires c < |places| && places[c].InSlot? && p.InLog?
    ensures InService(places[c := p]) + 1 == InService(places)
  {
    if 0 < c {
      InServiceLogged(places[1..], c - 1, p);
      assert places[c := p][1..] == places[1..][c - 1 := p];
    } else {
      assert places[c := p][1..] == places[1..];
    }
  }

  predicate CountsOk(s: State) {
    && |s.clients| == |s.places| + |s.backlog|
    && s.totalServed + (if s.task.Adding? then 1 else 0) == |s.places|
    && InService(s.places) + |s.log| == |s.places|
    && s.connected + |s.log| == s.totalServed
    && s.connected <= s.maxConcurrent
  }

  predicate ReadingOk(s: State) {
    s.task.Reading? ==> Live(s, s.task.fd) && s.task.got < Wanted(s.slots[s.task.fd].req)
  }

  ghost predicate Inv(s: State) {
    Control(s) && NoLostWakeup(s) && Books(s) && ReadingOk(s)
  }

  ghost predicate Books(s: State) {
    && ClientsOk(s) && Framed(s) && CountsOk(s)
    && (forall fd | 0 <= fd < |s.slots| :: SlotOk(s, fd))
    && (forall i | 0 <= i < |s.backlog| :: QueuedOk(s, i))
    && (forall c | 0 <= c < |s.places| :: PlaceOk(s, c))
    && (forall i | 0 <= i < |s.log| :: RecordOk(s, i))
  }

  // ---------------------------------------------------------------------------------------------
  // Steps of handle_request
  // ---------------------------------------------------------------------------------------------

  /** The state that slot fd's part of the invariant depends on is the same. */
  predicate SameSlot(s: State, t: State, fd: nat) {
    && fd < |s.slots| && fd < |t.slots| && s.slots[fd] == t.slots[fd]
    && Got(s, fd) == Got(t, fd) && Left(s, fd) == Left(t, fd)
    && (t.task.Reading? && t.task.fd == fd ==> s.task.Reading? && s.task.fd == fd)
    && (t.task.Echoing? && t.task.fd == fd ==> s.task.Echoing? && s.task.fd == fd)
    && (s.task == Adding(fd) ==> t.task == Adding(fd))
    && (Live(s, fd) ==>
          var c := s.slots[fd].conn.value.client;
          c < |s.places| && c < |s.clients| ==>
            c < |t.places| && c < |t.clients| && t.places[c] == s.places[c]
            && t.clients[c].size == s.clients[c].size && s.clients[c].written <= t.clients[c].written)
  }

  lemma SlotFrame(s: State, t: State, fd: nat)
    requires fd < |s.slots| && SlotOk(s, fd) && fd < |t.slots| && s.slots[fd] == t.slots[fd]
    requires SameSlot(s, t, fd)
    ensures SlotOk(t, fd)
  {
    hide Valid, Wanted;
    if Live(s, fd) {
      var c := s.slots[fd].conn.value;
      assert ConnOk(s, fd, c);
    }
  }

  /** The end of a read_data call in the terms of sessions. */
  lemma AbsorbIsApply(req: Request, c: Conn, got: nat, junk: seq<byte>)
    requires got <= c.read <= |c.arrived| && Sound(req) && got <= Wanted(req)
    ensures var s, piece := SessionOf(req, c, got, []), c.arrived[c.read - got..c.read];
            var t := Apply(s, piece, junk);
            match Absorb(req, piece, junk)
            case Blocked(r) => t == SessionOf(r, c, 0, [])
            case Header(r) => t == SessionOf(r, c, 0, [])
            case Echo(r, frame) => t == SessionOf(r, c, 0, frame)
            case Finished(r) => !t.open && t.sent == c.sent && t.past == c.arrived[..c.read]
  {
    var s, piece := SessionOf(req, c, got, []), c.arrived[c.read - got..c.read];
    assert s.past + piece == c.arrived[..c.read];
    assert s.sent == c.sent;
    hide Absorb;
  }

  /** How much was read decides which way the iteration ends. */
  lemma AbsorbShape(req: Request, piece: seq<byte>, junk: seq<byte>)
    requires Sound(req) && |piece| <= Wanted(req)
    ensures match Absorb(req, piece, junk)
            case Blocked(_) => |piece| < Wanted(req)
            case Echo(r, frame) => |piece| == Wanted(req) && 4 <= Offset(req) && |frame| == req.msgSize
            case Header(_) => |piece| == Wanted(req)
            case Finished(r) => |piece| == Wanted(req) && r.transferred == req.transferred + |piece|
  {
  }

  /** Where an open session's bytes put it. */
  lemma ValidFacts(s: Session, n: nat)
    requires Valid(s, n) && s.open
    ensures Sound(s.req) && s.req.transferred == |s.past| && (4 <= Offset(s.req) ==> 0 < s.req.msgSize)
  {
    AtIsSound(s.req, s.past, n);
    ShortPast(|s.past|, n);
  }

  lemma EndedFacts(t: Session, rest: seq<byte>, n: nat)
    requires Valid(t, n) && !t.open && FrameStream(t.past + rest, n)
    ensures rest == [] && Complete(t.past, n) && |t.sent| == Frames(|t.past|, n) * n
  {
    FrameStreamPrefix(t.past, rest, n);
  }

  /** One read_data result of handle_request, in the terms of its session. */
  lemma AbsorbSession(req: Request, c: Conn, got: nat, written: seq<byte>, n: nat, junk: seq<byte>)
    requires got <= c.read <= |c.arrived| && c.arrived <= written && FrameStream(written, n)
    requires Valid(SessionOf(req, c, got, []), n) && got <= Wanted(req)
    ensures Sound(req)
    ensures match Absorb(req, c.arrived[c.read - got..c.read], junk)
            case Blocked(r) => got < Wanted(req) && Valid(SessionOf(r, c, 0, []), n)
            case Header(r) => got == Wanted(req) && Valid(SessionOf(r, c, 0, []), n)
            case Echo(r, frame) => frame != [] && got == Wanted(req) && Valid(SessionOf(r, c, 0, frame), n)
            case Finished(r) =>
              && Complete(written, n) && r.transferred == |written| && c.read == |written|
              && |c.sent| == Frames(|written|, n) * n
  {
    hide Absorb, Apply, Valid, FrameStream, Complete, Frames, Sound, Wanted, Offset;
    var s := SessionOf(req, c, got, []);
    var piece, rest := c.arrived[c.read - got..c.read], written[c.read..];
    ReadSplits(c.arrived, written, c.read, got);
    ValidFacts(s, n);
    FrameStreamPrefix(s.past + piece, rest, n);
    Advance(s, piece, n, junk);
    AbsorbIsApply(req, c, got, junk);
    AbsorbShape(req, piece, junk);
    if Absorb(req, piece, junk).Finished? {
      EndedFacts(Apply(s, piece, junk), rest, n);
      assert written[..c.read] == written;
    }
  }

  lemma ReadSplits(arrived: seq<byte>, written: seq<byte>, read: nat, got: nat)
    requires got <= read <= |arrived| && arrived <= written
    ensures arrived[..read - got] + arrived[read - got..read] == arrived[..read] == written[..read]
    ensures written == (arrived[..read - got] + arrived[read - got..read]) + written[read..]
  {
  }

  // ---------------------------------------------------------------------------------------------
  // The books are kept
  // ---------------------------------------------------------------------------------------------

  /** A step that changes one open slot, and no place, queue or log entry. */
  lemma BooksFrame(s: State, t: State, fd: nat)
    requires Books(s) && fd < |s.slots| && OnlySlot(s, t, fd)
    requires t == s.(slots := t.slots, task := t.task, ready := t.ready, todo := t.todo)
    requires Live(s, fd) == Live(t, fd) && SlotOk(t, fd)
    requires Live(s, fd) ==> t.slots[fd].conn.value.client == s.slots[fd].conn.value.client
    requires s.task.Adding? == t.task.Adding? && (s.task.Adding? ==> t.task.fd == s.task.fd)
    requires s.task.Reading? || s.task.Echoing? ==> s.task.fd == fd || t.task == s.task
    requires t.task.Reading? || t.task.Echoing? ==> t.task.fd == fd || t.task == s.task
    ensures Books(t)
  {
    hide ConnOk, Framed, RecordOk;
    forall f | 0 <= f < |t.slots| && f != fd ensures SlotOk(t, f) {
      SlotFrame(s, t, f);
    }
    forall c | 0 <= c < |t.places| ensures PlaceOk(t, c) {
      assert PlaceOk(s, c);
    }
    forall i | 0 <= i < |t.backlog| ensures QueuedOk(t, i) {
      assert QueuedOk(s, i);
    }
    assert Framed(t) by { assert t.clients == s.clients; FramedSame(s, t); }
    forall i | 0 <= i < |t.log| ensures RecordOk(t, i) {
      RecordSame(s, t, i);
    }
  }

  lemma FramedSame(s: State, t: State)
    requires Framed(s) && t.clients == s.clients
    ensures Framed(t)
  {
  }

  lemma RecordSame(s: State, t: State, i: nat)
    requires i < |s.log| && RecordOk(s, i) && t.clients == s.clients && t.places == s.places && t.log == s.log
    ensures RecordOk(t, i)
  {
  }

  lemma ConnOf(s: State, fd: nat)
    requires Books(s) && Live(s, fd)
    ensures ConnOk(s, fd, s.slots[fd].conn.value)
  {
    assert SlotOk(s, fd);
  }

  lemma BooksArrive(s: State, fd: nat, k: nat)
    requires Books(s) && Enabled(s, Arrive(fd, k))
    ensures Books(Next(s, Arrive(fd, k)))
  {
    hide Valid, Framed, Wanted;
    var t := Next(s, Arrive(fd, k));
    var c, d := s.slots[fd].conn.value, t.slots[fd].conn.value;
    ConnOf(s, fd);
    var w := s.clients[c.client].written;
    assert d.arrived == w[..|c.arrived| + k];
    assert c.arrived == w[..|c.arrived|];
    assert d.arrived[..c.read - Got(s, fd)] == c.arrived[..c.read - Got(s, fd)];
    assert ConnOk(t, fd, d);
    BooksFrame(s, t, fd);
  }

  lemma BooksSend(s: State, k: nat)
    requires Books(s) && Enabled(s, Send(k))
    ensures Books(Next(s, Send(k)))
  {
    hide Valid, Framed, Wanted;
    var fd, left := s.task.fd, s.task.left;
    var t := Next(s, Send(k));
    var c, d := s.slots[fd].conn.value, t.slots[fd].conn.value;
    ConnOf(s, fd);
    assert d.sent + left[k..] == c.sent + left;
    assert ConnOk(t, fd, d);
    BooksFrame(s, t, fd);
  }

  lemma BooksSendFull(s: State)
    requires Books(s) && Enabled(s, SendFull)
    ensures Books(Next(s, SendFull))
  {
    hide Valid, Framed, Wanted;
    var fd := s.task.fd;
    var t := Next(s, SendFull);
    ConnOf(s, fd);
    assert ConnOk(t, fd, t.slots[fd].conn.value);
    BooksFrame(s, t, fd);
  }

  /** recv returned k more bytes to read_data. */
  lemma BooksReadMore(s: State, k: nat, junk: seq<byte>)
    requires Books(s) && Enabled(s, Recv(k, junk))
    ensures Books(ReadMore(s, k).(task := Reading(s.task.fd, s.task.got + k)))
  {
    hide Valid, Framed, Wanted;
    var fd := s.task.fd;
    var t := ReadMore(s, k).(task := Reading(fd, s.task.got + k));
    var c, d := s.slots[fd].conn.value, t.slots[fd].conn.value;
    ConnOf(s, fd);
    assert d.read - Got(t, fd) == c.read - Got(s, fd);
    assert ConnOk(t, fd, d);
    BooksFrame(s, t, fd);
  }

  /** read_data returned, and handle_request reads on, echoes, or returns. */
  lemma BooksAfterRead(s: State, junk: seq<byte>)
    requires Books(s) && s.task.Reading? && Registered(s, s.task.fd)
    ensures var fd, got := s.task.fd, s.task.got;
            && Sound(s.slots[fd].req) && got <= Wanted(s.slots[fd].req)
            && got <= s.slots[fd].conn.value.read <= |s.slots[fd].conn.value.arrived|
            && Books(AfterRead(s, fd, got, junk)) && ReadingOk(AfterRead(s, fd, got, junk))
  {
    hide Valid, Framed, Absorb, Wanted, Sound;
    var fd, got := s.task.fd, s.task.got;
    var slot := s.slots[fd];
    var c := slot.conn.value;
    ConnOf(s, fd);
    var client := s.clients[c.client];
    assert FrameStream(client.written, client.size) by { FramedAt(s, c.client); }
    AbsorbSession(slot.req, c, got, client.written, client.size, junk);
    var t := AfterRead(s, fd, got, junk);
    match Absorb(slot.req, c.arrived[c.read - got..c.read], junk)
    case Finished(r) =>
      BooksCleanup(s, fd, r.transferred);
    case Blocked(r) =>
      WantsSomething(r);
      assert ConnOk(t, fd, c);
      BooksFrame(s, t, fd);
    case Header(r) =>
      WantsSomething(r);
      assert ConnOk(t, fd, c);
      BooksFrame(s, t, fd);
    case Echo(r, frame) =>
      WantsSomething(r);
      assert ConnOk(t, fd, c);
      BooksFrame(s, t, fd);
  }

  lemma WantsSomething(r: Request)
    ensures 1 <= Wanted(r)
  {
  }

  lemma FramedAt(s: State, c: nat)
    requires Framed(s) && c < |s.clients|
    ensures FrameStream(s.clients[c].written, s.clients[c].size)
  {
  }

  lemma BooksCleanup(s: State, fd: nat, total: nat)
    requires Books(s) && Handling(s, fd) && Registered(s, fd)
    requires var c := s.slots[fd].conn.value;
             c.client < |s.clients| && c.client < |s.places| &&
             var cl := s.clients[c.client];
             && Complete(cl.written, cl.size) && total == |cl.written|
             && |c.sent| == Frames(|cl.written|, cl.size) * cl.size
    ensures Books(Cleanup(s, fd, total))
  {
    hide Framed, Valid, Wanted, Complete, Frames;
    var t := Cleanup(s, fd, total);
    var c := s.slots[fd].conn.value.client;
    ConnOf(s, fd);
    InServiceLogged(s.places, c, InLog(|s.log|));
    forall f | 0 <= f < |t.slots| ensures SlotOk(t, f) {
      if f != fd {
        assert SlotOk(s, f);
        if Live(s, f) { ConnOf(s, f); }
        assert SameSlot(s, t, f);
        SlotFrame(s, t, f);
      }
    }
    forall d | 0 <= d < |t.places| ensures PlaceOk(t, d) {
      assert PlaceOk(s, d);
    }
    forall i | 0 <= i < |t.backlog| ensures QueuedOk(t, i) {
      assert QueuedOk(s, i);
    }
    forall i | 0 <= i < |t.log| ensures RecordOk(t, i) {
      if i < |s.log| { assert RecordOk(s, i); }
    }
    FramedSame(s, t);
  }

  lemma BooksAccept(s: State, fd: nat)
    requires Books(s) && Enabled(s, Accept(fd))
    ensures Books(Next(s, Accept(fd)))
  {
    hide Framed, Valid, Wanted;
    var t := Next(s, Accept(fd));
    var c := s.backlog[0];
    assert QueuedOk(s, 0);
    assert SlotOk(s, fd);
    InServiceSnoc(s.places, InSlot(fd));
    assert SlotOk(t, fd) by {
      NewIsValid(s.clients[c.client].size);
      FreshWantsFour();
      assert SessionOf(FRESH, t.slots[fd].conn.value, 0, []) == NEW;
    }
    forall f | 0 <= f < |t.slots| && f != fd ensures SlotOk(t, f) {
      assert SlotOk(s, f);
      assert SameSlot(s, t, f);
      SlotFrame(s, t, f);
    }
    forall d | 0 <= d < |t.places| ensures PlaceOk(t, d) {
      if d < |s.places| { assert PlaceOk(s, d); }
    }
    forall i | 0 <= i < |t.backlog| ensures QueuedOk(t, i) {
      assert QueuedOk(s, i + 1);
    }
    forall i | 0 <= i < |t.log| ensures RecordOk(t, i) {
      assert RecordOk(s, i);
    }
    FramedSame(s, t);
  }

  lemma FreshWantsFour()
    ensures Wanted(FRESH) == 4
  {
  }

  lemma BooksAdd(s: State)
    requires Books(s) && Enabled(s, Add) && Control(s)
    ensures Books(Next(s, Add))
  {
    hide Framed, Valid, Wanted;
    var t, fd := Next(s, Add), s.task.fd;
    ConnOf(s, fd);
    assert ConnOk(t, fd, t.slots[fd].conn.value);
    forall f | 0 <= f < |t.slots| && f != fd ensures SlotOk(t, f) {
      assert SlotOk(s, f);
      if Live(s, f) { ConnOf(s, f); }
      assert SameSlot(s, t, f);
      SlotFrame(s, t, f);
    }
    forall d | 0 <= d < |t.places| ensures PlaceOk(t, d) {
      assert PlaceOk(s, d);
    }
    forall i | 0 <= i < |t.backlog| ensures QueuedOk(t, i) {
      assert QueuedOk(s, i);
    }
    forall i | 0 <= i < |t.log| ensures RecordOk(t, i) {
      assert RecordOk(s, i);
    }
    FramedSame(s, t);
  }

  lemma BooksConnect(s: State, size: nat, stalls: nat)
    requires Books(s) && Enabled(s, Connect(size, stalls))
    ensures Books(Next(s, Connect(size, stalls)))
  {
    hide Valid, Wanted;
    var t := Next(s, Connect(size, stalls));
    forall f | 0 <= f < |t.slots| ensures SlotOk(t, f) {
      assert SlotOk(s, f);
      assert SameSlot(s, t, f);
      SlotFrame(s, t, f);
    }
    forall d | 0 <= d < |t.places| ensures PlaceOk(t, d) {
      assert PlaceOk(s, d);
    }
    forall i | 0 <= i < |t.backlog| ensures QueuedOk(t, i) {
      if i < |s.backlog| { assert QueuedOk(s, i); }
    }
    forall i | 0 <= i < |t.log| ensures RecordOk(t, i) {
      assert RecordOk(s, i);
    }
    NewIsValid(size);
    assert FrameStream([], size);
  }

  /** A client that has ended its session writes nothing more. */
  lemma CompleteIsFinal(w: seq<byte>, more: seq<byte>, n: nat)
    requires 1 <= n && FrameStream(w + more, n) && Complete(w, n)
    ensures w + more == w
  {
    if more != [] {
      FrameStreamPrefix(w, more, n);
      assert false;
    }
  }

  lemma BooksWrite(s: State, c: nat, bytes: seq<byte>)
    requires Books(s) && Enabled(s, Write(c, bytes))
    ensures Books(Next(s, Write(c, bytes)))
  {
    hide Valid, Wanted, FrameStream, Complete, Frames;
    var t := Next(s, Write(c, bytes));
    forall f | 0 <= f < |t.slots| ensures SlotOk(t, f) {
      assert SlotOk(s, f);
      assert SameSlot(s, t, f);
      SlotFrame(s, t, f);
    }
    forall d | 0 <= d < |t.places| ensures PlaceOk(t, d) {
      assert PlaceOk(s, d);
    }
    forall i | 0 <= i < |t.backlog| ensures QueuedOk(t, i) {
      assert QueuedOk(s, i);
    }
    forall i | 0 <= i < |t.log| ensures RecordOk(t, i) {
      assert RecordOk(s, i);
      if s.log[i].client == c { CompleteIsFinal(s.clients[c].written, bytes, s.clients[c].size); }
    }
  }

  lemma BooksArriveQueued(s: State, index: nat, k: nat)
    requires Books(s) && Enabled(s, ArriveQueued(index, k))
    ensures Books(Next(s, ArriveQueued(index, k)))
  {
    hide Valid, Wanted, Framed;
    var t := Next(s, ArriveQueued(index, k));
    forall f | 0 <= f < |t.slots| ensures SlotOk(t, f) {
      assert SlotOk(s, f);
      assert SameSlot(s, t, f);
      SlotFrame(s, t, f);
    }
    forall d | 0 <= d < |t.places| ensures PlaceOk(t, d) {
      assert PlaceOk(s, d);
    }
    forall i | 0 <= i < |t.backlog| ensures QueuedOk(t, i) {
      assert QueuedOk(s, i);
    }
    forall i | 0 <= i < |t.log| ensures RecordOk(t, i) {
      assert RecordOk(s, i);
    }
    FramedSame(s, t);
  }

  /** Steps that only move the server or the ready list. */
  lemma BooksControl(s: State, step: EventLoop.Step)
    requires Books(s) && Control(s) && Enabled(s, step)
    requires step.Drop? || step.Wait? || step.Dispatch? || step.Rest? || step.AcceptDry?
    ensures Books(Next(s, step)) && (ReadingOk(s) ==> ReadingOk(Next(s, step)))
  {
    hide Valid, Wanted, Framed;
    var t := Next(s, step);
    var fd := if step.Dispatch? && s.todo[0] != s.listener then s.todo[0] else s.listener;
    assert s.todo != [] ==> s.todo[0] in s.todo;
    assert SlotOk(s, fd);
    WantsSomething(s.slots[fd].req);
    assert SlotOk(t, fd);
    BooksFrame(s, t, fd);
  }
}
