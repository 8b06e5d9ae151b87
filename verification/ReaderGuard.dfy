/**
 When reader_guard tells the truth. The reader lowers it after loads that found the ring empty, and a put may
 have raised it since: then the ring holds an item and every get waits, until some other put raises it again.
 */
module ReaderGuard {
  import opened Bytes
  import opened ConcurrentRing

  /** The step by which a get that has found head == tail stores 0 to the guard. */
  predicate Lowers(s: State, step: Step) {
    step.Decide? && s.reader.SawTail? && s.reader.head == s.reader.tail
  }

  /** A put has raised the guard since the reader's last load of tail. */
  predicate Missed(steps: seq<Step>, i: nat)
    requires i <= |steps|
  {
    if i == 0 || steps[i - 1].ReadTail? then false else steps[i - 1].RaiseGuard? || Missed(steps, i - 1)
  }

  /** The last store to the guard was a get's, and undid one that a put had made since that get loaded tail. */
  predicate Undone(states: seq<State>, steps: seq<Step>, i: nat)
    requires i <= |steps| < |states|
  {
    if i == 0 || steps[i - 1].RaiseGuard? then false
    else if Lowers(states[i - 1], steps[i - 1]) then Missed(steps, i - 1)
    else Undone(states, steps, i - 1)
  }

  /** The put of ticket t has yet to raise the guard. */
  predicate UnderWay(s: State, t: nat)
    requires Bounds(s) && t < s.tail
  {
    assert TicketOk(s, t);
    s.writers[s.tickets[t].owner] == Copying(t)
  }

  predicate AllUnderWay(s: State, from: nat)
    requires Bounds(s)
  {
    forall t | from <= t < s.tail :: UnderWay(s, t)
  }

  /** What the guard and the reader's loads say of the puts. */
  predicate Truthful(s: State, missed: bool, undone: bool)
    requires Bounds(s)
  {
    && (s.reader.Fetching? ==> s.guard)
    && (s.reader.SawTail? && !missed ==> AllUnderWay(s, s.reader.tail))
    && (undone ==> !s.guard)
    && (!s.guard && !undone ==> AllUnderWay(s, s.head))
  }

  /** Only the store to the guard ends a put. */
  lemma UnderWayKept(s: State, step: Step, from: nat)
    requires Bounds(s) && AllUnderWay(s, from) && Enabled(s, step) && !step.RaiseGuard? && Bounds(Next(s, step))
    ensures AllUnderWay(Next(s, step), from)
  {
    var u := Next(s, step);
    forall t | from <= t < u.tail ensures UnderWay(u, t) {
      assert TicketOk(u, t);
      if t < s.tail { assert UnderWay(s, t) && TicketOk(s, t); }
    }
  }

  lemma TruthfulKept(s: State, step: Step, missed: bool, undone: bool)
    requires Bounds(s) && Truthful(s, missed, undone) && Enabled(s, step) && Bounds(Next(s, step))
    ensures var m := (if step.ReadTail? then false else step.RaiseGuard? || missed);
            var u := (if step.RaiseGuard? then false else if Lowers(s, step) then missed else undone);
            Truthful(Next(s, step), m, u)
  {
    var t := Next(s, step);
    HeadAndTailGrow(s, step);
    if !step.RaiseGuard? {
      if s.reader.SawTail? && !missed { UnderWayKept(s, step, s.reader.tail); }
      if !s.guard && !undone { UnderWayKept(s, step, s.head); }
    }
  }

  lemma {:induction false} ReachedTruthful(states: seq<State>, steps: seq<Step>, i: nat)
    requires Behaviour(states, steps) && i <= |steps| < |states|
    ensures Bounds(states[i]) && Truthful(states[i], Missed(steps, i), Undone(states, steps, i))
  {
    Reached(states, steps, i);
    if i > 0 {
      ReachedTruthful(states, steps, i - 1);
      TruthfulKept(states[i - 1], steps[i - 1], Missed(steps, i - 1), Undone(states, steps, i - 1));
    }
  }

  /** No put is between its compare-exchange and its store to the guard. */
  predicate NoPutUnderWay(s: State) {
    forall w | 0 <= w < |s.writers| :: !s.writers[w].Copying?
  }

  lemma HeldByItsPut(s: State)
    requires Bounds(s) && AllUnderWay(s, s.head) && s.head < s.tail
    ensures !NoPutUnderWay(s)
  {
    assert UnderWay(s, s.head) && TicketOk(s, s.head);
  }

  /**
   With no put under way, the guard is up on a ring that holds an item if and only if the reader has not undone
   a store to it; so a ring that holds an item and keeps it from every get is one where that has happened.
   */
  lemma GuardIsRightExactlyWhen(states: seq<State>, steps: seq<Step>, i: nat)
    requires Behaviour(states, steps) && i <= |steps| < |states|
    requires NoPutUnderWay(states[i]) && states[i].head < states[i].tail
    ensures states[i].guard <==> !Undone(states, steps, i)
  {
    ReachedTruthful(states, steps, i);
    var s := states[i];
    if AllUnderWay(s, s.head) { HeldByItsPut(s); }
  }

  lemma DownStays(s: State, step: Step)
    requires Enabled(s, step) && !step.RaiseGuard? && (s.reader.Fetching? ==> s.guard)
    ensures var t := Next(s, step); !s.guard ==> !t.guard && t.head == s.head && t.delivered == s.delivered
  {
  }

  /** While the guard is down nothing is delivered, whoever moves, until a put raises it. */
  lemma {:induction false} NothingUntilRaised(states: seq<State>, steps: seq<Step>, i: nat, j: nat)
    requires Behaviour(states, steps) && i <= j <= |steps| < |states| && !states[i].guard
    requires forall k | i <= k < j :: !steps[k].RaiseGuard?
    ensures !states[j].guard && states[j].head == states[i].head && states[j].delivered == states[i].delivered
    decreases j
  {
    if i < j {
      ReachedTruthful(states, steps, j - 1);
      DownStays(states[j - 1], steps[j - 1]);
      hide Bounds, Enabled, Next;
      NothingUntilRaised(states, steps, i, j - 1);
    }
  }

  // ---------------------------------------------------------------------------------------------
  // A get that waits on a ring that holds an item
  // ---------------------------------------------------------------------------------------------

  /** An empty ring of one one-byte slot, with one writer outside. */
  function OneWriter(old0: byte): State {
    State(1, 1, 0, 0, false, [[old0]], [Outside], Away, [[old0]], [], [])
  }

  lemma OneWriterReached(old0: byte)
    ensures Reaches(OneWriter(old0))
  {
    var c := OneWriter(old0);
    var init, none: seq<Step> := c.(writers := []), [];
    assert Behaviour([init], none) && [init][|none|] == init;
    hide Reaches;
    Then(init, NewWriter, c);
  }

  /** The reader has just found it empty. */
  lemma FoundEmpty(old0: byte)
    ensures Reaches(OneWriter(old0).(reader := SawTail(0, 0)))
  {
    hide Reaches;
    OneWriterReached(old0);
    var c := OneWriter(old0);
    var d, e := c.(reader := SawHead(0)), c.(reader := SawTail(0, 0));
    Then(c, ReadHead, d);
    Then(d, ReadTail, e);
  }

  /**
   The reader loads head and tail of an empty ring; a put runs from its start to its end and raises the guard;
   the reader lowers it. The item is in the buffer, nobody is in put or get, and the guard is down.
   */
  lemma GetWaits(old0: byte, x: byte) returns (s: State)
    ensures Reaches(s) && s.head < s.tail && Stored(s, s.head) && s.cells == [[x]]
    ensures NoPutUnderWay(s) && s.reader == Away && !s.guard
  {
    FoundEmpty(old0);
    hide Reaches;
    var e := OneWriter(old0).(reader := SawTail(0, 0));
    var f := e.(writers := [Copying(0)], tail := 1, tickets := [Ticket(0, [x], 0)]);
    assert e.tickets + [Ticket(0, [x], 0)] == f.tickets && e.writers[0 := Copying(0)] == f.writers;
    PutUpToTicket(e, 0, [x], f);
    var g := f.(cells := [[x]], tickets := [Ticket(0, [x], 1)]);
    assert f.cells[0 := [old0][0 := x]] == g.cells by { assert [old0][0 := x] == [x]; }
    assert f.tickets[0 := Ticket(0, [x], 1)] == g.tickets;
    Then(f, CopyByte(0), g);
    var h := g.(writers := [Outside], guard := true);
    Then(g, RaiseGuard(0), h);
    s := h.(reader := Away, guard := false);
    Then(h, Decide, s);
  }
}
