/**
 Many clients of one readiness-driven server: events on different descriptors in any order. A slot's
 request is shared by its successive occupants; accepting a client does not touch it, so a reused
 descriptor relies on the clean-up after the last one.
 */
module Isolation {
  import opened Bytes
  import F = Framing
  import S = Segmentation

  /** A connection: the how-manieth accepted, its message size, what was read from it and sent to it. */
  datatype Conn = Conn(serial: nat, n: nat, past: seq<byte>, sent: seq<byte>)

  datatype Slot = Slot(req: F.Request, conn: Option<Conn>)

  /** A session that has ended, as its last call left it before the clean-up. */
  datatype Closed = Closed(serial: nat, n: nat, session: F.Session)

  datatype State = State(slots: seq<Slot>, accepted: nat, closed: seq<Closed>)

  /** accept returned fd for a client that uses size n; or a call of handle_request on fd found `fed` to read. */
  datatype Event = Accept(fd: nat, n: nat) | Ready(fd: nat, fed: seq<byte>, junk: seq<byte>)

  datatype Reading = Reading(fed: seq<byte>, junk: seq<byte>)

  function SessionOf(slot: Slot): F.Session
    requires slot.conn.Some?
  {
    F.Session(slot.conn.value.past, slot.req, slot.conn.value.sent, true)
  }

  ghost predicate SlotOk(slot: Slot) {
    if slot.conn.Some? then F.Valid(SessionOf(slot), slot.conn.value.n) else slot.req == F.FRESH
  }

  ghost predicate Inv(s: State) {
    forall slot <- s.slots :: SlotOk(slot)
  }

  ghost predicate Enabled(s: State, e: Event) {
    e.fd < |s.slots| &&
    var slot := s.slots[e.fd];
    match e
    case Accept(_, n) => slot.conn.None? && 1 <= n < U32_LIMIT
    case Ready(_, fed, _) => slot.conn.Some? && F.FrameStream(slot.conn.value.past + fed, slot.conn.value.n)
  }

  /** The slot after a call that left its session at t; the cleanup path zeroes the request. */
  function Settle(conn: Conn, t: F.Session): Slot {
    if t.open then Slot(t.req, Some(conn.(past := t.past, sent := t.sent)))
    else Slot(F.Request(0, [0, 0, 0, 0], 0, None), None)
  }

  ghost function Called(slot: Slot, fed: seq<byte>, junk: seq<byte>): (t: F.Session)
    requires SlotOk(slot) && slot.conn.Some? && F.FrameStream(slot.conn.value.past + fed, slot.conn.value.n)
    ensures F.Valid(t, slot.conn.value.n)
  {
    S.Drain(SessionOf(slot), fed, slot.conn.value.n, junk)
  }

  ghost function Next(s: State, e: Event): (t: State)
    requires Inv(s) && Enabled(s, e)
    ensures Inv(t)
  {
    var slot := s.slots[e.fd];
    assert SlotOk(slot);
    match e
    case Accept(fd, n) =>
      F.NewIsValid(n);
      var now := slot.(conn := Some(Conn(s.accepted, n, [], [])));
      assert SlotOk(now);
      s.(slots := s.slots[fd := now], accepted := s.accepted + 1)
    case Ready(fd, fed, junk) =>
      var conn := slot.conn.value;
      var t := Called(slot, fed, junk);
      assert SlotOk(Settle(conn, t));
      State(s.slots[fd := Settle(conn, t)], s.accepted,
            if t.open then s.closed else s.closed + [Closed(conn.serial, conn.n, t)])
  }

  /** The state after a sequence of events, if they can happen in that order. */
  ghost function Run(size: nat, events: seq<Event>): (s: Option<State>)
    ensures s.Some? ==> Inv(s.value)
    decreases |events|
  {
    if events == [] then
      Some(State(seq(size, _ => Slot(F.FRESH, None)), 0, []))
    else
      var last := |events| - 1;
      var s := Run(size, events[..last]);
      if s.Some? && Enabled(s.value, events[last]) then Some(Next(s.value, events[last])) else None
  }

  // ---------------------------------------------------------------------------------------------
  // One connection on its own
  // ---------------------------------------------------------------------------------------------

  /** A server with a single client, which it reads from as listed. */
  ghost function Alone(n: nat, readings: seq<Reading>): (s: Option<F.Session>)
    ensures s.Some? ==> F.Valid(s.value, n)
    decreases |readings|
  {
    if !(1 <= n < U32_LIMIT) then None
    else if readings == [] then
      F.NewIsValid(n);
      Some(F.NEW)
    else
      var last := |readings| - 1;
      var s := Alone(n, readings[..last]);
      if s.Some? && s.value.open && F.FrameStream(s.value.past + readings[last].fed, n) then
        Some(S.Drain(s.value, readings[last].fed, n, readings[last].junk))
      else None
  }

  function Accepts(events: seq<Event>): nat {
    if events == [] then 0
    else Accepts(events[..|events| - 1]) + if events[|events| - 1].Accept? then 1 else 0
  }

  /** Which client fd stands for: the last one accepted on it. */
  function Holder(events: seq<Event>, fd: nat): Option<nat> {
    if events == [] then None
    else
      var before, e := events[..|events| - 1], events[|events| - 1];
      if e.Accept? && e.fd == fd then Some(Accepts(before)) else Holder(before, fd)
  }

  /** The projection of a run to one client: what was read from it. */
  function Share(events: seq<Event>, serial: nat): seq<Reading> {
    if events == [] then []
    else
      var before, e := events[..|events| - 1], events[|events| - 1];
      if e.Ready? && Holder(before, e.fd) == Some(serial) then Share(before, serial) + [Reading(e.fed, e.junk)]
      else Share(before, serial)
  }

  lemma {:induction false} ShareOfNobody(events: seq<Event>, serial: nat)
    requires Accepts(events) <= serial
    ensures Share(events, serial) == [] && forall fd :: Holder(events, fd) != Some(serial)
  {
    if events == [] {
      assert Share(events, serial) == [];
    } else {
      ShareOfNobody(events[..|events| - 1], serial);
    }
  }

  /** The client in a slot is where it would be had the server served it alone. */
  ghost predicate SlotAlone(slot: Slot, fd: nat, events: seq<Event>) {
    slot.conn.Some? ==>
      var c := slot.conn.value;
      c.serial < Accepts(events) && Holder(events, fd) == Some(c.serial) &&
      Alone(c.n, Share(events, c.serial)) == Some(SessionOf(slot))
  }

  ghost predicate ClosedAlone(c: Closed, events: seq<Event>) {
    && c.serial < Accepts(events) && !c.session.open
    && Alone(c.n, Share(events, c.serial)) == Some(c.session)
  }

  predicate IsHeldBy(slot: Slot, serial: nat) {
    slot.conn.Some? && slot.conn.value.serial == serial
  }

  /** No client is in two places. */
  predicate NobodyTwice(slots: seq<Slot>, closed: seq<Closed>) {
    && (forall k, a | 0 <= k < |closed| && 0 <= a < |slots| :: !IsHeldBy(slots[a], closed[k].serial))
    && (forall k, l | 0 <= k < l < |closed| :: closed[k].serial != closed[l].serial)
  }

  ghost predicate Books(s: State, events: seq<Event>) {
    && s.accepted == Accepts(events)
    && (forall fd | 0 <= fd < |s.slots| :: SlotAlone(s.slots[fd], fd, events))
    && (forall k | 0 <= k < |s.closed| :: ClosedAlone(s.closed[k], events))
    && NobodyTwice(s.slots, s.closed)
  }

  /** No client has two descriptors. */
  lemma {:induction false} HolderUnique(events: seq<Event>, a: nat, b: nat)
    requires Holder(events, a).Some? && Holder(events, a) == Holder(events, b)
    ensures a == b
  {
    if events == [] {
      assert false;
    } else {
      var before, e := events[..|events| - 1], events[|events| - 1];
      ShareOfNobody(before, Accepts(before));
      if !(e.Accept? && (e.fd == a || e.fd == b)) { HolderUnique(before, a, b); }
    }
  }

  /** What one more event does to the projections. */
  lemma OneMore(events: seq<Event>, e: Event, serial: nat, fd: nat)
    ensures Accepts(events + [e]) == Accepts(events) + if e.Accept? then 1 else 0
    ensures Holder(events + [e], fd) == if e.Accept? && e.fd == fd then Some(Accepts(events)) else Holder(events, fd)
    ensures Share(events + [e], serial) ==
            Share(events, serial) +
            if e.Ready? && Holder(events, e.fd) == Some(serial) then [Reading(e.fed, e.junk)] else []
  {
    var more := events + [e];
    assert more[..|more| - 1] == events;
  }

  /** A client that the event does not concern. */
  lemma SlotStays(slot: Slot, fd: nat, events: seq<Event>, e: Event)
    requires SlotAlone(slot, fd, events) && e.fd != fd
    ensures SlotAlone(slot, fd, events + [e])
  {
    if slot.conn.Some? {
      var serial := slot.conn.value.serial;
      OneMore(events, e, serial, fd);
      if Holder(events, e.fd) == Some(serial) { HolderUnique(events, fd, e.fd); }
    }
  }

  lemma ClosedStays(c: Closed, events: seq<Event>, e: Event)
    requires ClosedAlone(c, events) && (e.Ready? ==> Holder(events, e.fd) != Some(c.serial))
    ensures ClosedAlone(c, events + [e])
  {
    OneMore(events, e, c.serial, e.fd);
  }

  lemma AloneOneMore(n: nat, readings: seq<Reading>, s: F.Session, fed: seq<byte>, junk: seq<byte>)
    requires Alone(n, readings) == Some(s) && s.open && F.FrameStream(s.past + fed, n)
    ensures F.Valid(s, n) && Alone(n, readings + [Reading(fed, junk)]) == Some(S.Drain(s, fed, n, junk))
  {
    var more := readings + [Reading(fed, junk)];
    assert more[..|more| - 1] == readings;
  }

  /** The client whose socket was ready goes on as it would alone. */
  lemma CallIsAlone(slot: Slot, fd: nat, events: seq<Event>, fed: seq<byte>, junk: seq<byte>)
    requires SlotOk(slot) && SlotAlone(slot, fd, events) && slot.conn.Some?
    requires F.FrameStream(slot.conn.value.past + fed, slot.conn.value.n)
    ensures var c, t, more := slot.conn.value, Called(slot, fed, junk), events + [Ready(fd, fed, junk)];
            && Alone(c.n, Share(more, c.serial)) == Some(t) && c.serial < Accepts(more)
            && SlotAlone(Settle(c, t), fd, more)
            && (!t.open ==> ClosedAlone(Closed(c.serial, c.n, t), more))
  {
    var c := slot.conn.value;
    hide F.Valid, F.FrameStream, S.Drain, Alone, Share, Holder, Accepts;
    OneMore(events, Ready(fd, fed, junk), c.serial, fd);
    AloneOneMore(c.n, Share(events, c.serial), SessionOf(slot), fed, junk);
    var t := Called(slot, fed, junk);
    if t.open { assert SessionOf(Settle(c, t)) == t; }
  }

  lemma BooksAccept(s: State, events: seq<Event>, fd: nat, n: nat)
    requires Inv(s) && Books(s, events) && Enabled(s, Accept(fd, n))
    ensures Books(Next(s, Accept(fd, n)), events + [Accept(fd, n)])
  {
    var e := Accept(fd, n);
    var t, more := Next(s, e), events + [e];
    OneMore(events, e, Accepts(events), fd);
    ShareOfNobody(events, Accepts(events));
    assert SlotOk(s.slots[fd]);
    forall a | 0 <= a < |t.slots| ensures SlotAlone(t.slots[a], a, more) {
      if a != fd { SlotStays(s.slots[a], a, events, e); }
      else {
        assert t.slots[fd] == Slot(F.FRESH, Some(Conn(s.accepted, n, [], [])));
        assert SessionOf(t.slots[fd]) == F.NEW;
      }
    }
    forall k | 0 <= k < |t.closed| ensures ClosedAlone(t.closed[k], more) {
      ClosedStays(s.closed[k], events, e);
    }
    forall k, a | 0 <= k < |t.closed| && 0 <= a < |t.slots| ensures !IsHeldBy(t.slots[a], t.closed[k].serial) {
      assert ClosedAlone(s.closed[k], events);
      assert !IsHeldBy(s.slots[a], s.closed[k].serial);
    }
  }

  /** The client's serial is its own: not that of an ended session, nor of another slot. */
  lemma OwnSerial(s: State, events: seq<Event>, fd: nat)
    requires Books(s, events) && fd < |s.slots| && s.slots[fd].conn.Some?
    ensures forall k | 0 <= k < |s.closed| :: s.closed[k].serial != s.slots[fd].conn.value.serial
    ensures forall a | 0 <= a < |s.slots| && a != fd :: !IsHeldBy(s.slots[a], s.slots[fd].conn.value.serial)
    ensures Holder(events, fd) == Some(s.slots[fd].conn.value.serial)
  {
    var serial := s.slots[fd].conn.value.serial;
    assert SlotAlone(s.slots[fd], fd, events);
    forall k | 0 <= k < |s.closed| ensures s.closed[k].serial != serial {
      assert !IsHeldBy(s.slots[fd], s.closed[k].serial);
    }
    forall a | 0 <= a < |s.slots| && a != fd ensures !IsHeldBy(s.slots[a], serial) {
      assert SlotAlone(s.slots[a], a, events);
      if IsHeldBy(s.slots[a], serial) { HolderUnique(events, a, fd); }
    }
  }

  lemma SlotsUpdated(s: State, events: seq<Event>, e: Event, slot: Slot, now: seq<Slot>)
    requires Books(s, events) && e.fd < |s.slots| && SlotAlone(slot, e.fd, events + [e]) && now == s.slots[e.fd := slot]
    ensures forall a | 0 <= a < |now| :: SlotAlone(now[a], a, events + [e])
  {
    hide SlotAlone, ClosedAlone, Accepts;
    forall a | 0 <= a < |now| ensures SlotAlone(now[a], a, events + [e]) {
      if a != e.fd { SlotStays(s.slots[a], a, events, e); }
    }
  }

  lemma ClosedUpdated(s: State, events: seq<Event>, e: Event, ended: seq<Closed>)
    requires Books(s, events) && e.Ready? && e.fd < |s.slots| && s.slots[e.fd].conn.Some?
    requires forall k | 0 <= k < |ended| :: ClosedAlone(ended[k], events + [e])
    ensures forall k | 0 <= k < |s.closed + ended| :: ClosedAlone((s.closed + ended)[k], events + [e])
  {
    OwnSerial(s, events, e.fd);
    hide SlotAlone, ClosedAlone, Accepts, Holder;
    forall k | 0 <= k < |s.closed + ended| ensures ClosedAlone((s.closed + ended)[k], events + [e]) {
      if k < |s.closed| { ClosedStays(s.closed[k], events, e); }
    }
  }

  lemma NobodyTwiceUpdated(slots: seq<Slot>, closed: seq<Closed>, fd: nat, slot: Slot, ended: seq<Closed>)
    requires NobodyTwice(slots, closed) && fd < |slots| && slots[fd].conn.Some?
    requires forall a | 0 <= a < |slots| && a != fd :: !IsHeldBy(slots[a], slots[fd].conn.value.serial)
    requires forall k | 0 <= k < |closed| :: closed[k].serial != slots[fd].conn.value.serial
    requires if slot.conn.Some? then ended == [] && slot.conn.value.serial == slots[fd].conn.value.serial
             else |ended| == 1 && ended[0].serial == slots[fd].conn.value.serial
    ensures NobodyTwice(slots[fd := slot], closed + ended)
  {
    var now, all := slots[fd := slot], closed + ended;
    forall k, a | 0 <= k < |all| && 0 <= a < |now| ensures !IsHeldBy(now[a], all[k].serial) {
      if k < |closed| { assert !IsHeldBy(slots[a], closed[k].serial); }
    }
  }

  /** The books after a call, given what became of the client in slot fd. */
  lemma BooksUpdated(s: State, events: seq<Event>, e: Event, slot: Slot, ended: seq<Closed>, t: State)
    requires Books(s, events) && e.Ready? && e.fd < |s.slots| && s.slots[e.fd].conn.Some?
    requires t == State(s.slots[e.fd := slot], s.accepted, s.closed + ended)
    requires SlotAlone(slot, e.fd, events + [e]) && forall k | 0 <= k < |ended| :: ClosedAlone(ended[k], events + [e])
    requires if slot.conn.Some? then ended == [] && slot.conn.value.serial == s.slots[e.fd].conn.value.serial
             else |ended| == 1 && ended[0].serial == s.slots[e.fd].conn.value.serial
    ensures Books(t, events + [e])
  {
    OwnSerial(s, events, e.fd);
    OneMore(events, e, s.slots[e.fd].conn.value.serial, e.fd);
    hide SlotAlone, ClosedAlone, Holder, Accepts, IsHeldBy;
    SlotsUpdated(s, events, e, slot, t.slots);
    ClosedUpdated(s, events, e, ended);
    NobodyTwiceUpdated(s.slots, s.closed, e.fd, slot, ended);
  }

  lemma BooksReady(s: State, events: seq<Event>, fd: nat, fed: seq<byte>, junk: seq<byte>)
    requires Inv(s) && Books(s, events) && Enabled(s, Ready(fd, fed, junk))
    ensures Books(Next(s, Ready(fd, fed, junk)), events + [Ready(fd, fed, junk)])
  {
    var slot := s.slots[fd];
    assert SlotOk(slot) && SlotAlone(slot, fd, events);
    hide F.Valid, F.FrameStream, S.Drain, Books;
    CallIsAlone(slot, fd, events, fed, junk);
    hide SlotAlone, ClosedAlone;
    var c, t := slot.conn.value, Called(slot, fed, junk);
    var ended := if t.open then [] else [Closed(c.serial, c.n, t)];
    assert s.closed + [] == s.closed;
    assert forall k | 0 <= k < |ended| :: ClosedAlone(ended[k], events + [Ready(fd, fed, junk)]);
    BooksUpdated(s, events, Ready(fd, fed, junk), Settle(c, t), ended, Next(s, Ready(fd, fed, junk)));
  }

  lemma BooksKept(s: State, events: seq<Event>, e: Event)
    requires Inv(s) && Books(s, events) && Enabled(s, e)
    ensures Books(Next(s, e), events + [e])
  {
    match e
    case Accept(fd, n) => BooksAccept(s, events, fd, n);
    case Ready(fd, fed, junk) => BooksReady(s, events, fd, fed, junk);
  }

  lemma RunOneMore(size: nat, events: seq<Event>, e: Event)
    requires Run(size, events + [e]).Some?
    ensures Run(size, events).Some? && Enabled(Run(size, events).value, e)
    ensures Run(size, events + [e]) == Some(Next(Run(size, events).value, e))
  {
    var more := events + [e];
    assert more[..|more| - 1] == events;
  }

  lemma {:induction false} BooksAlways(size: nat, events: seq<Event>)
    requires Run(size, events).Some?
    ensures Books(Run(size, events).value, events)
    decreases |events|
  {
    if events == [] {
      assert Run(size, events) == Some(State(seq(size, _ => Slot(F.FRESH, None)), 0, []));
    } else {
      var before, e := events[..|events| - 1], events[|events| - 1];
      assert before + [e] == events;
      RunOneMore(size, before, e);
      hide Books, Next, Enabled, Run;
      BooksAlways(size, before);
      BooksKept(Run(size, before).value, before, e);
    }
  }

  /**
   Isolation: in every run over any number of descriptors, each client in a slot, however often its
   descriptor has been used before, and each client whose session has ended, has exactly the request,
   the echoed bytes and the end it would have had if only its own readings had happened.
   */
  lemma ClientsAreIsolated(size: nat, events: seq<Event>)
    requires Run(size, events).Some?
    ensures var s := Run(size, events).value;
            && (forall fd | 0 <= fd < |s.slots| && s.slots[fd].conn.Some? ::
                  var c := s.slots[fd].conn.value;
                  Alone(c.n, Share(events, c.serial)) == Some(SessionOf(s.slots[fd])))
            && (forall c <- s.closed :: Alone(c.n, Share(events, c.serial)) == Some(c.session))
  {
    BooksAlways(size, events);
    var s := Run(size, events).value;
    forall fd | 0 <= fd < |s.slots| && s.slots[fd].conn.Some?
      ensures var c := s.slots[fd].conn.value; Alone(c.n, Share(events, c.serial)) == Some(SessionOf(s.slots[fd]))
    {
      assert SlotAlone(s.slots[fd], fd, events);
    }
    forall c | c in s.closed ensures Alone(c.n, Share(events, c.serial)) == Some(c.session) {
      var k :| 0 <= k < |s.closed| && s.closed[k] == c;
      assert ClosedAlone(s.closed[k], events);
    }
  }

  /** Hence two runs that read the same from a client, among whatever other events, treat it alike. */
  lemma SameReadingsSameSession(size: nat, events: seq<Event>, fd: nat, size': nat, events': seq<Event>, fd': nat)
    requires Run(size, events).Some? && Run(size', events').Some?
    requires var s := Run(size, events).value; fd < |s.slots| && s.slots[fd].conn.Some?
    requires var s := Run(size', events').value; fd' < |s.slots| && s.slots[fd'].conn.Some?
    requires var c, c' := Run(size, events).value.slots[fd].conn.value, Run(size', events').value.slots[fd'].conn.value;
             c.n == c'.n && Share(events, c.serial) == Share(events', c'.serial)
    ensures SessionOf(Run(size, events).value.slots[fd]) == SessionOf(Run(size', events').value.slots[fd'])
  {
    ClientsAreIsolated(size, events);
    ClientsAreIsolated(size', events');
  }

  /** And its position is a function of its own bytes alone, however they were cut. */
  lemma PositionIsOwn(size: nat, events: seq<Event>, fd: nat)
    requires Run(size, events).Some?
    requires var s := Run(size, events).value; fd < |s.slots| && s.slots[fd].conn.Some?
    ensures var slot := Run(size, events).value.slots[fd]; var c := slot.conn.value;
            && |slot.req.partial| == 4
            && S.PositionOf(SessionOf(slot)) == S.PositionAfter(c.past, c.n)
  {
    var slot := Run(size, events).value.slots[fd];
    assert SlotOk(slot);
    S.PositionClosedForm(SessionOf(slot), slot.conn.value.n);
  }
}
