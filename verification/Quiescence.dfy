/** Whole runs of the epoll system: safety at every state, and what is true when it comes to rest. */
module Quiescence {
  import opened Bytes
  import opened Framing
  import S = Segmentation
  import opened EventLoop
  import opened Wakeups
  import opened Completeness

  lemma InvInit(s: State)
    requires Init(s)
    ensures Inv(s)
  {
    assert forall fd | 0 <= fd < |s.slots| :: s.slots[fd] in s.slots;
  }

  lemma InvRecv(s: State, k: nat, junk: seq<byte>)
    requires Inv(s) && Enabled(s, Recv(k, junk))
    ensures Books(Next(s, Recv(k, junk))) && ReadingOk(Next(s, Recv(k, junk)))
  {
    hide Books, Control, NoLostWakeup, AfterRead, Wanted, Sound;
    var fd, got := s.task.fd, s.task.got + k;
    BooksReadMore(s, k, junk);
    if Wanted(s.slots[fd].req) <= got {
      var u := ReadMore(s, k).(task := Reading(fd, got));
      assert Registered(s, fd) by { HandledIsRegistered(s); }
      BooksAfterRead(u, junk);
      AfterReadForgetsTask(ReadMore(s, k), fd, got, junk, Reading(fd, got));
    }
  }

  lemma HandledIsRegistered(s: State)
    requires Control(s) && (s.task.Reading? || s.task.Echoing?)
    ensures Registered(s, s.task.fd)
  {
  }

  lemma AfterReadForgetsTask(s: State, fd: nat, got: nat, junk: seq<byte>, task: Task)
    requires Live(s, fd) && Sound(s.slots[fd].req) && got <= Wanted(s.slots[fd].req)
    requires var c := s.slots[fd].conn.value; got <= c.read <= |c.arrived|
    ensures AfterRead(s.(task := task), fd, got, junk) == AfterRead(s, fd, got, junk)
  {
    hide Absorb, Wanted, Sound;
  }

  lemma InvKept(s: State, step: EventLoop.Step)
    requires Inv(s) && Enabled(s, step)
    ensures Inv(Next(s, step))
  {
    ControlKept(s, step);
    WakeupKept(s, step);
    hide Control, NoLostWakeup, Books, Enabled, Sound, Wanted, AfterRead;
    BooksKept(s, step);
  }

  lemma BooksKept(s: State, step: EventLoop.Step)
    requires Inv(s) && Enabled(s, step)
    ensures Books(Next(s, step)) && ReadingOk(Next(s, step))
  {
    match step
    case Connect(size, stalls) => BooksConnect(s, size, stalls);
    case Write(c, bytes) => BooksWrite(s, c, bytes);
    case ArriveQueued(i, k) => BooksArriveQueued(s, i, k);
    case Arrive(fd, k) => BooksArrive(s, fd, k);
    case Accept(fd) => BooksAccept(s, fd);
    case Add => BooksAdd(s);
    case Recv(k, junk) => InvRecv(s, k, junk);
    case RecvDry(junk) => HandledIsRegistered(s); BooksAfterRead(s, junk);
    case Send(k) => BooksSend(s, k);
    case SendFull => BooksSendFull(s);
    case _ => BooksControl(s, step);
  }

  ghost predicate Behaviour(states: seq<State>, steps: seq<EventLoop.Step>) {
    && |states| == |steps| + 1 && Init(states[0])
    && forall i | 0 <= i < |steps| :: Enabled(states[i], steps[i]) && states[i + 1] == Next(states[i], steps[i])
  }

  lemma {:induction false} Reached(states: seq<State>, steps: seq<EventLoop.Step>, i: nat)
    requires Behaviour(states, steps) && i < |states|
    ensures Inv(states[i])
  {
    if i == 0 {
      InvInit(states[0]);
    } else {
      Reached(states, steps, i - 1);
      InvKept(states[i - 1], steps[i - 1]);
    }
  }

  /** The safety half of the edge-triggered design, in every state of every run. */
  lemma WakeupsAreNeverLost(states: seq<State>, steps: seq<EventLoop.Step>, i: nat, fd: nat)
    requires Behaviour(states, steps) && i < |states|
    ensures var s := states[i];
            && (Registered(s, fd) && 0 < Unread(s.slots[fd].conn.value) ==>
                  fd in s.ready || fd in s.todo || Handling(s, fd))
            && (s.backlog != [] ==>
                  s.listener in s.ready || s.listener in s.todo || s.task.Accepting? || s.task.Adding?)
  {
    Reached(states, steps, i);
    assert FdServed(states[i], fd);
  }

  /** The server sleeps, no edge is pending, and every byte written has arrived. */
  predicate Quiescent(s: State) {
    && s.task.Waiting? && s.ready == {}
    && forall fd | 0 <= fd < |s.slots| && Live(s, fd) ::
         var c := s.slots[fd].conn.value; c.client < |s.clients| && |c.arrived| == |s.clients[c.client].written|
  }

  lemma QuiescentSlot(s: State, fd: nat)
    requires Inv(s) && Quiescent(s) && Live(s, fd)
    ensures var c := s.slots[fd].conn.value;
            c.client < |s.clients| && !Complete(s.clients[c.client].written, s.clients[c.client].size)
  {
    ConnOf(s, fd);
    assert FdServed(s, fd);
    var c := s.slots[fd].conn.value;
    assert c.arrived[..c.read] == s.clients[c.client].written;
  }

  /** The log has exactly one line for client c, and it reports these lengths. */
  predicate LoggedOnce(s: State, c: nat, total: nat, echoed: nat) {
    exists i | 0 <= i < |s.log| ::
      s.log[i].client == c && s.log[i].total == total && |s.log[i].echoed| == echoed
      && forall j | 0 <= j < |s.log| && s.log[j].client == c :: j == i
  }

  /** No descriptor stands for client c, and every free slot is zeroed. */
  predicate Forgotten(s: State, c: nat) {
    forall fd | 0 <= fd < |s.slots| ::
      if Live(s, fd) then s.slots[fd].conn.value.client != c else s.slots[fd].req == FRESH
  }

  lemma AnsweredAtRest(s: State, c: nat)
    requires Inv(s) && Quiescent(s) && c < |s.clients| && Complete(s.clients[c].written, s.clients[c].size)
    ensures var cl := s.clients[c];
            && s.backlog == [] && Forgotten(s, c)
            && LoggedOnce(s, c, |cl.written|, Frames(|cl.written|, cl.size) * cl.size)
  {
    hide Complete, Framed, Frames;
    assert s.backlog == [] by { assert ListenerServed(s); }
    forall fd | 0 <= fd < |s.slots|
      ensures if Live(s, fd) then s.slots[fd].conn.value.client != c else s.slots[fd].req == FRESH
    {
      assert SlotOk(s, fd);
      if Live(s, fd) { QuiescentSlot(s, fd); }
    }
    assert PlaceOk(s, c);
    var i := s.places[c].index;
    assert RecordOk(s, i);
    forall j | 0 <= j < |s.log| && s.log[j].client == c ensures j == i {
      assert RecordOk(s, j);
    }
  }

  /**
   In a quiescent state of any run, a client that has written k bodies of its size and the zero size
   has been logged exactly once, with k * (n + 4) + 4 bytes received and k * n bytes echoed; it no
   longer holds a descriptor, and every descriptor without a connection has a zeroed request.
   */
  lemma QuiescentCompleteness(states: seq<State>, steps: seq<EventLoop.Step>, c: nat, bodies: seq<seq<byte>>)
    requires Behaviour(states, steps) && var s := states[|states| - 1]; Quiescent(s) && c < |s.clients|
    requires var s := states[|states| - 1];
             var n := s.clients[c].size;
             n < U32_LIMIT && S.Uniform(bodies, n) && s.clients[c].written == S.Stream(bodies)
    ensures var s := states[|states| - 1];
            var n := s.clients[c].size;
            && s.backlog == [] && Forgotten(s, c)
            && LoggedOnce(s, c, S.SessionLength(|bodies|, n), S.EchoLength(|bodies|, n))
  {
    hide Forgotten, LoggedOnce, Quiescent, S.Stream, Complete;
    var s := states[|states| - 1];
    var n := s.clients[c].size;
    Reached(states, steps, |states| - 1);
    assert 1 <= n;
    hide Inv, Behaviour;
    hide S.SessionLength, S.EchoLength, Frames;
    S.StreamEnds(bodies, n);
    AnsweredAtRest(s, c);
  }

  /** Every step keeps max_concurrent the larger of what it was and connected_count. */
  lemma PeakStep(s: State, step: EventLoop.Step)
    requires Inv(s) && Enabled(s, step)
    ensures var t := Next(s, step);
            t.maxConcurrent == if s.maxConcurrent < t.connected then t.connected else s.maxConcurrent
  {
    hide Books, Control, NoLostWakeup, Sound, Wanted, Absorb;
    CountsHold(s);
    match step
    case Recv(k, junk) => RecvShape(s, k, junk);
    case RecvDry(junk) => AfterReadShape(s, s.task.fd, s.task.got, junk);
    case _ =>
  }

  lemma CountsHold(s: State)
    requires Inv(s)
    ensures s.connected <= s.maxConcurrent
  {
  }

  /** The largest connected_count among the first i + 1 states. */
  function Peak(states: seq<State>, i: nat): nat
    requires i < |states|
  {
    if i == 0 then states[0].connected
    else
      var before, now := Peak(states, i - 1), states[i].connected;
      if before < now then now else before
  }

  lemma {:induction false} PeakIsReached(states: seq<State>, i: nat)
    requires i < |states|
    ensures forall j | 0 <= j <= i :: states[j].connected <= Peak(states, i)
    ensures exists j :: 0 <= j <= i && states[j].connected == Peak(states, i)
  {
    if i == 0 {
      assert states[0].connected == Peak(states, 0);
    } else {
      PeakIsReached(states, i - 1);
      if Peak(states, i - 1) < states[i].connected { assert states[i].connected == Peak(states, i); }
    }
  }

  lemma {:induction false} MaxIsPeak(states: seq<State>, steps: seq<EventLoop.Step>, i: nat)
    requires Behaviour(states, steps) && i < |states|
    ensures states[i].maxConcurrent == Peak(states, i)
  {
    if i == 0 {
      assert Init(states[0]);
    } else {
      MaxIsPeak(states, steps, i - 1);
      Reached(states, steps, i - 1);
      PeakStep(states[i - 1], steps[i - 1]);
    }
  }

  /**
   total_served counts accepted clients, connected_count those not logged yet, and max_concurrent is the
   largest connected_count so far: it was reached, and never exceeded.
   */
  lemma Accounting(states: seq<State>, steps: seq<EventLoop.Step>, i: nat)
    requires Behaviour(states, steps) && i < |states|
    ensures var s := states[i];
            !s.task.Adding? ==>
              && s.totalServed == |s.clients| - |s.backlog| && s.connected == InService(s.places)
              && s.totalServed == s.connected + |s.log|
    ensures forall j | 0 <= j <= i :: states[j].connected <= states[i].maxConcurrent
    ensures exists j :: 0 <= j <= i && states[j].connected == states[i].maxConcurrent
  {
    Reached(states, steps, i);
    MaxIsPeak(states, steps, i);
    PeakIsReached(states, i);
  }

  // ---------------------------------------------------------------------------------------------
  // Liveness
  // ---------------------------------------------------------------------------------------------

  lemma ReadingGoesOn(s: State)
    requires Inv(s) && s.task.Reading?
    ensures exists step :: IsServer(step) && Enabled(s, step)
  {
    hide FrameStream, Complete;
    var fd, got := s.task.fd, s.task.got;
    ConnOf(s, fd);
    var c := s.slots[fd].conn.value;
    AtIsSound(s.slots[fd].req, c.arrived[..c.read - got], s.clients[c.client].size);
    var step := if Unread(c) == 0 then RecvDry([]) else Recv(1, []);
    assert IsServer(step) && Enabled(s, step);
  }

  /** Unless the descriptor table is full, the server and kernel can always go on until there is nothing to do. */
  lemma Progress(s: State)
    requires Inv(s) && !(s.task.Waiting? && s.ready == {})
    requires s.task.Accepting? && s.backlog != [] ==>
               exists fd: nat :: fd < |s.slots| && fd != s.listener && !Live(s, fd)
    ensures exists step :: IsServer(step) && Enabled(s, step)
  {
    match s.task
    case Waiting =>
      var f :| f in s.ready;
      assert IsServer(Wait([f])) && Enabled(s, Wait([f]));
    case Between =>
      var step := if s.todo == [] then Rest else Dispatch;
      assert IsServer(step) && Enabled(s, step);
    case Accepting =>
      if s.backlog == [] {
        assert IsServer(AcceptDry) && Enabled(s, AcceptDry);
      } else {
        var fd: nat :| fd < |s.slots| && fd != s.listener && !Live(s, fd);
        assert IsServer(Accept(fd)) && Enabled(s, Accept(fd));
      }
    case Adding(_) =>
      assert IsServer(Add) && Enabled(s, Add);
    case Reading(_, _) =>
      ReadingGoesOn(s);
    case Echoing(fd, left) =>
      ConnOf(s, fd);
      assert IsServer(Send(1)) && Enabled(s, Send(1));
  }

  const SLOT_UNREAD: Slot -> nat := (slot: Slot) => if slot.conn.Some? then Unread(slot.conn.value) else 0
  const SLOT_STALLS: Slot -> nat := (slot: Slot) => if slot.conn.Some? then slot.conn.value.stalls else 0
  const UNREAD: Conn -> nat := (c: Conn) => Unread(c)
  const STALLS: Conn -> nat := (c: Conn) => c.stalls

  /** What the server still has to do without further input, most significant part first. */
  datatype Work = Work(unread: nat, sends: nat, connections: nat, edges: nat, events: nat)

  function WorkOf(s: State): Work {
    Work(Total(s.slots, SLOT_UNREAD) + Total(s.backlog, UNREAD),
         Total(s.slots, SLOT_STALLS) + Total(s.backlog, STALLS) + (if s.task.Echoing? then |s.task.left| else 0),
         2 * |s.backlog| + (if s.task.Adding? then 1 else 0),
         |s.ready|,
         3 * |s.todo| + (if s.task.Waiting? then 0 else if s.task.Between? then 1 else 2))
  }

  predicate Less(v: Work, w: Work) {
    v.unread < w.unread || (v.unread == w.unread && (
    v.sends < w.sends || (v.sends == w.sends && (
    v.connections < w.connections || (v.connections == w.connections && (
    v.edges < w.edges || (v.edges == w.edges && v.events < w.events)))))))
  }

  lemma WorkRecv(s: State, k: nat, junk: seq<byte>)
    requires Inv(s) && Enabled(s, Recv(k, junk))
    ensures Less(WorkOf(Next(s, Recv(k, junk))), WorkOf(s))
  {
    hide Inv, Next, AfterRead;
    var fd := s.task.fd;
    var u, t := ReadMore(s, k), Next(s, Recv(k, junk));
    RecvShape(s, k, junk);
    TotalUpdate(s.slots, fd, u.slots[fd], SLOT_UNREAD);
    TotalUpdate(u.slots, fd, t.slots[fd], SLOT_UNREAD);
    assert t.slots == u.slots[fd := t.slots[fd]];
  }

  lemma WorkRecvDry(s: State, junk: seq<byte>)
    requires Inv(s) && Enabled(s, RecvDry(junk))
    ensures Less(WorkOf(Next(s, RecvDry(junk))), WorkOf(s))
  {
    var fd := s.task.fd;
    var t := Next(s, RecvDry(junk));
    assert s.task.got < Wanted(s.slots[fd].req);
    hide Inv, AfterRead;
    AfterReadShape(s, fd, s.task.got, junk);
    TotalUpdate(s.slots, fd, t.slots[fd], SLOT_UNREAD);
    TotalUpdate(s.slots, fd, t.slots[fd], SLOT_STALLS);
    assert t.slots == s.slots[fd := t.slots[fd]];
  }

  lemma WorkSlot(s: State, t: State, fd: nat)
    requires fd < |s.slots| && |t.slots| == |s.slots| && t.slots == s.slots[fd := t.slots[fd]]
    ensures Total(t.slots, SLOT_UNREAD) + SLOT_UNREAD(s.slots[fd]) ==
            Total(s.slots, SLOT_UNREAD) + SLOT_UNREAD(t.slots[fd])
    ensures Total(t.slots, SLOT_STALLS) + SLOT_STALLS(s.slots[fd]) ==
            Total(s.slots, SLOT_STALLS) + SLOT_STALLS(t.slots[fd])
  {
    TotalUpdate(s.slots, fd, t.slots[fd], SLOT_UNREAD);
    TotalUpdate(s.slots, fd, t.slots[fd], SLOT_STALLS);
  }

  lemma SmallerSet(a: set<nat>, b: set<nat>, x: nat)
    requires a <= b && x in b && x !in a
    ensures |a| < |b|
  {
    SubsetSize(a, b - {x});
  }

  lemma {:induction false} SubsetSize(a: set<nat>, b: set<nat>)
    requires a <= b
    ensures |a| <= |b|
    decreases a
  {
    if a == {} {
      assert |a| == 0;
    } else {
      var x :| x in a;
      SubsetSize(a - {x}, b - {x});
    }
  }

  lemma WorkEcho(s: State, step: EventLoop.Step)
    requires Enabled(s, step) && (step.Send? || step.SendFull?)
    ensures Less(WorkOf(Next(s, step)), WorkOf(s))
  {
    WorkSlot(s, Next(s, step), s.task.fd);
  }

  lemma WorkAccept(s: State, fd: nat)
    requires Inv(s) && Enabled(s, Accept(fd))
    ensures Less(WorkOf(Next(s, Accept(fd))), WorkOf(s))
  {
    hide Inv;
    WorkSlot(s, Next(s, Accept(fd)), fd);
  }

  lemma WorkAdd(s: State)
    requires Enabled(s, Add)
    ensures Less(WorkOf(Next(s, Add)), WorkOf(s))
  {
    WorkSlot(s, Next(s, Add), s.task.fd);
  }

  lemma WorkEdges(s: State, step: EventLoop.Step)
    requires Enabled(s, step) && (step.Wait? || step.Drop?)
    ensures Less(WorkOf(Next(s, step)), WorkOf(s))
  {
    var t := Next(s, step);
    match step
    case Wait(batch) => assert batch[0] in batch; SmallerSet(t.ready, s.ready, batch[0]);
    case Drop(fd) => SmallerSet(t.ready, s.ready, fd);
  }

  /** Every step of the server or the kernel leaves less to do. */
  lemma WorkDecreases(s: State, step: EventLoop.Step)
    requires Inv(s) && Enabled(s, step) && IsServer(step)
    ensures Less(WorkOf(Next(s, step)), WorkOf(s))
  {
    hide Inv;
    match step
    case Recv(k, junk) => WorkRecv(s, k, junk);
    case RecvDry(junk) => WorkRecvDry(s, junk);
    case Send(_) => WorkEcho(s, step);
    case SendFull => WorkEcho(s, step);
    case Add => WorkAdd(s);
    case Accept(fd) => WorkAccept(s, fd);
    case Wait(_) => WorkEdges(s, step);
    case Drop(_) => WorkEdges(s, step);
    case _ =>
  }

  /**
   However the run is scheduled, the server cannot go on for ever on its own: from any state on some
   client has to connect or write, or the network has to deliver, or the run comes to rest.
   */
  lemma {:induction false} ServerComesToRest(run: nat -> State, steps: nat -> EventLoop.Step, i: nat)
    requires Inv(run(i))
    requires forall j: nat :: Enabled(run(j), steps(j)) && run(j + 1) == Next(run(j), steps(j))
    ensures exists j: nat :: i <= j && !IsServer(steps(j))
    decreases WorkOf(run(i)).unread, WorkOf(run(i)).sends, WorkOf(run(i)).connections,
              WorkOf(run(i)).edges, WorkOf(run(i)).events
  {
    if !IsServer(steps(i)) {
      assert i <= i && !IsServer(steps(i));
    } else {
      InvKept(run(i), steps(i));
      WorkDecreases(run(i), steps(i));
      ServerComesToRest(run, steps, i + 1);
    }
  }
}
