/** No wakeup is lost: what every step of the event loop keeps about edges, batches and handlers. */
module Wakeups {
  import opened Bytes
  import opened Framing
  import opened EventLoop

  /** Descriptors in the ready list and in the batch are registered, and a batch has no repeats. */
  ghost predicate Control(s: State) {
    && s.listener < |s.slots| && !Live(s, s.listener)
    && Distinct(s.todo)
    && (forall f <- s.todo :: f == s.listener || Registered(s, f))
    && (forall f <- s.ready :: f == s.listener || Registered(s, f))
    && (s.task.Reading? || s.task.Echoing? ==> Registered(s, s.task.fd) && s.task.fd !in s.todo)
    && (s.task.Adding? ==> Live(s, s.task.fd) && !Registered(s, s.task.fd))
    && (s.task.Waiting? ==> s.todo == [])
  }

  /** Somebody will look at fd again. */
  predicate Noticed(s: State, fd: nat) {
    fd in s.ready || fd in s.todo || Handling(s, fd)
  }

  predicate FdServed(s: State, fd: nat) {
    Registered(s, fd) && 0 < Unread(s.slots[fd].conn.value) ==> Noticed(s, fd)
  }

  predicate ListenerServed(s: State) {
    s.backlog != [] ==> s.listener in s.ready || s.listener in s.todo || s.task.Accepting? || s.task.Adding?
  }

  ghost predicate NoLostWakeup(s: State) {
    && ListenerServed(s)
    && forall fd: nat :: FdServed(s, fd)
  }

  /** Only the slot of fd differs. */
  predicate OnlySlot(s: State, t: State, fd: nat) {
    && t.listener == s.listener && |t.slots| == |s.slots|
    && forall f | 0 <= f < |s.slots| && f != fd :: t.slots[f] == s.slots[f]
  }

  /** The same descriptors are open and registered. */
  ghost predicate SameRegistrations(s: State, t: State) {
    && t.listener == s.listener && |t.slots| == |s.slots|
    && (forall f: nat :: Live(t, f) == Live(s, f))
    && (forall f: nat :: Registered(t, f) == Registered(s, f))
  }

  /** handle_request goes on or returns; only the request of fd changes. */
  predicate Goes(s: State, t: State, fd: nat) {
    && fd < |s.slots| && OnlySlot(s, t, fd) && t.slots[fd].conn == s.slots[fd].conn
    && t == s.(slots := t.slots, task := t.task)
    && (t.task == Between || ((t.task.Reading? || t.task.Echoing?) && t.task.fd == fd))
  }

  /** The ways read_data can leave handle_request. */
  lemma AfterReadShape(s: State, fd: nat, got: nat, junk: seq<byte>)
    requires Live(s, fd) && Sound(s.slots[fd].req) && got <= Wanted(s.slots[fd].req)
    requires var c := s.slots[fd].conn.value; got <= c.read <= |c.arrived|
    ensures var t := AfterRead(s, fd, got, junk);
            || (Goes(s, t, fd) && (t.task == Between ==> got < Wanted(s.slots[fd].req)))
            || (|t.log| == |s.log| + 1 && t == Cleanup(s, fd, t.log[|s.log|].total) && got == Wanted(s.slots[fd].req))
  {
  }

  lemma RecvShape(s: State, k: nat, junk: seq<byte>)
    requires Enabled(s, Recv(k, junk))
    ensures var fd := s.task.fd;
            var u, t := ReadMore(s, k), Next(s, Recv(k, junk));
            || (Goes(u, t, fd) && t.task != Between)
            || (|t.log| == |s.log| + 1 && t == Cleanup(u, fd, t.log[|s.log|].total))
  {
    hide AfterRead, Wanted, Sound;
    var fd, got := s.task.fd, s.task.got + k;
    if got == Wanted(s.slots[fd].req) {
      AfterReadShape(ReadMore(s, k), fd, got, junk);
    }
  }

  lemma SameFrame(s: State, t: State, fd: nat)
    requires fd < |s.slots| && OnlySlot(s, t, fd) && t.slots[fd].conn.Some? == s.slots[fd].conn.Some?
    requires s.slots[fd].conn.Some? ==> t.slots[fd].conn.value.registered == s.slots[fd].conn.value.registered
    ensures SameRegistrations(s, t)
  {
  }

  lemma ControlFrame(s: State, t: State)
    requires Control(s) && SameRegistrations(s, t)
    requires t.todo == s.todo && (forall f <- t.ready :: f in s.ready || Registered(s, f) || f == s.listener)
    requires t.task == s.task || t.task.Between? || t.task.Accepting? || (t.task.Waiting? && s.todo == [])
             || ((t.task.Reading? || t.task.Echoing?) && (s.task.Reading? || s.task.Echoing?) && t.task.fd == s.task.fd)
    ensures Control(t)
  {
  }

  lemma ControlClosed(s: State, fd: nat, total: nat)
    requires Control(s) && Handling(s, fd)
    ensures Control(Cleanup(s, fd, total))
  {
    var t := Cleanup(s, fd, total);
    forall f: nat | f != fd ensures Registered(t, f) == Registered(s, f) && Live(t, f) == Live(s, f) {}
  }

  lemma ControlAccept(s: State, fd: nat)
    requires Control(s) && Enabled(s, Accept(fd))
    ensures Control(Next(s, Accept(fd)))
  {
    var t := Next(s, Accept(fd));
    forall f: nat | f != fd ensures Registered(t, f) == Registered(s, f) && Live(t, f) == Live(s, f) {}
  }

  lemma ControlAdd(s: State)
    requires Control(s) && Enabled(s, Add)
    ensures Control(Next(s, Add))
  {
    var t := Next(s, Add);
    forall f: nat | f != s.task.fd ensures Registered(t, f) == Registered(s, f) && Live(t, f) == Live(s, f) {}
  }

  lemma ControlRecv(s: State, k: nat, junk: seq<byte>)
    requires Control(s) && Enabled(s, Recv(k, junk))
    ensures Control(Next(s, Recv(k, junk)))
  {
    hide AfterRead, Next;
    var u, t := ReadMore(s, k), Next(s, Recv(k, junk));
    SameFrame(s, u, s.task.fd);
    ControlFrame(s, u);
    RecvShape(s, k, junk);
    if Goes(u, t, s.task.fd) {
      SameFrame(u, t, s.task.fd);
      ControlFrame(u, t);
    } else {
      ControlClosed(u, s.task.fd, t.log[|s.log|].total);
    }
  }

  lemma ControlRecvDry(s: State, junk: seq<byte>)
    requires Control(s) && Enabled(s, RecvDry(junk))
    ensures Control(Next(s, RecvDry(junk)))
  {
    hide AfterRead;
    var t := Next(s, RecvDry(junk));
    AfterReadShape(s, s.task.fd, s.task.got, junk);
    if Goes(s, t, s.task.fd) {
      SameFrame(s, t, s.task.fd);
      ControlFrame(s, t);
    } else {
      ControlClosed(s, s.task.fd, t.log[|s.log|].total);
    }
  }

  lemma ControlBatch(s: State, step: EventLoop.Step)
    requires Control(s) && Enabled(s, step) && (step.Wait? || step.Dispatch?)
    ensures Control(Next(s, step))
  {
    var t := Next(s, step);
    assert forall f: nat :: Registered(t, f) == Registered(s, f);
    if step.Wait? {
      assert forall f <- t.todo :: f in s.ready;
    } else {
      assert forall f <- t.todo :: f in s.todo && f != s.todo[0];
      assert s.todo[0] in s.todo;
    }
  }

  lemma ControlKept(s: State, step: EventLoop.Step)
    requires Control(s) && Enabled(s, step)
    ensures Control(Next(s, step))
  {
    var t := Next(s, step);
    match step
    case Wait(_) => ControlBatch(s, step);
    case Dispatch => ControlBatch(s, step);
    case Accept(fd) => ControlAccept(s, fd);
    case Add => ControlAdd(s);
    case Recv(k, junk) => ControlRecv(s, k, junk);
    case RecvDry(junk) => ControlRecvDry(s, junk);
    case Arrive(fd, _) => SameFrame(s, t, fd); ControlFrame(s, t);
    case Send(_) => SameFrame(s, t, s.task.fd); ControlFrame(s, t);
    case SendFull => SameFrame(s, t, s.task.fd); ControlFrame(s, t);
    case _ => SameFrame(s, t, s.listener); ControlFrame(s, t);
  }

  // ---------------------------------------------------------------------------------------------

  /** Nothing but fd is affected, and fd is still noticed if it has to be. */
  lemma WakeupFrame(s: State, t: State, fd: nat)
    requires NoLostWakeup(s) && OnlySlot(s, t, fd) && fd < |s.slots|
    requires t.listener == s.listener && ListenerServed(t) && FdServed(t, fd)
    requires forall f | f in s.ready && f != fd :: f in t.ready
    requires forall f | f in s.todo && f != fd :: f in t.todo
    requires (s.task.Reading? || s.task.Echoing?) && s.task.fd != fd ==> Handling(t, s.task.fd)
    ensures NoLostWakeup(t)
  {
    forall f: nat ensures FdServed(t, f) {
      assert FdServed(s, f);
    }
  }

  lemma WakeupRecv(s: State, k: nat, junk: seq<byte>)
    requires Control(s) && NoLostWakeup(s) && Enabled(s, Recv(k, junk))
    ensures NoLostWakeup(Next(s, Recv(k, junk)))
  {
    hide AfterRead, Next;
    RecvShape(s, k, junk);
    WakeupFrame(s, Next(s, Recv(k, junk)), s.task.fd);
  }

  /** The short read that ends a call has seen the socket empty. */
  lemma WakeupRecvDry(s: State, junk: seq<byte>)
    requires Control(s) && NoLostWakeup(s) && Enabled(s, RecvDry(junk))
    ensures NoLostWakeup(Next(s, RecvDry(junk)))
  {
    hide AfterRead;
    AfterReadShape(s, s.task.fd, s.task.got, junk);
    WakeupFrame(s, Next(s, RecvDry(junk)), s.task.fd);
  }

  lemma WakeupBatch(s: State, step: EventLoop.Step)
    requires Control(s) && NoLostWakeup(s) && Enabled(s, step) && (step.Wait? || step.Dispatch?)
    ensures NoLostWakeup(Next(s, step))
  {
    var t := Next(s, step);
    forall f: nat ensures FdServed(t, f) {
      assert FdServed(s, f);
      if step.Dispatch? && f in s.todo && f != s.todo[0] { assert f in s.todo[1..]; }
    }
    if step.Dispatch? && s.listener in s.todo && s.listener != s.todo[0] { assert s.listener in s.todo[1..]; }
  }

  lemma WakeupKept(s: State, step: EventLoop.Step)
    requires Control(s) && NoLostWakeup(s) && Enabled(s, step)
    ensures NoLostWakeup(Next(s, step))
  {
    var t := Next(s, step);
    match step
    case Wait(_) => WakeupBatch(s, step);
    case Dispatch => WakeupBatch(s, step);
    case Accept(fd) => WakeupFrame(s, t, fd);
    case Add => WakeupFrame(s, t, s.task.fd);
    case Recv(k, junk) => WakeupRecv(s, k, junk);
    case RecvDry(junk) => WakeupRecvDry(s, junk);
    case Arrive(fd, _) => WakeupFrame(s, t, fd);
    case Send(_) => WakeupFrame(s, t, s.task.fd);
    case SendFull => WakeupFrame(s, t, s.task.fd);
    case Drop(fd) => if fd < |s.slots| { WakeupFrame(s, t, fd); } else { WakeupFrame(s, t, s.listener); }
    case _ => WakeupFrame(s, t, s.listener);
  }
}
