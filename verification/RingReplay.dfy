/**
 The same schedule with another item: whatever run has led a ring to a state, it can be replayed with any
 other item given to one of its puts, and the reader sees no difference before it fetches that put's ticket.
 */
module RingReplay {
  import opened Bytes
  import opened ConcurrentRing

  // ---------------------------------------------------------------------------------------------
  // Up to the compare-exchange
  // ---------------------------------------------------------------------------------------------

  /** A put that has been given `item` and has no ticket yet. */
  predicate Waits(v: Writer) {
    v.AtTop? || v.HasHead? || v.HasTail?
  }

  function Given(v: Writer, item: Item): Writer
    requires Waits(v)
  {
    match v
    case AtTop(_) => AtTop(item)
    case HasHead(_, h) => HasHead(item, h)
    case HasTail(_, h, t) => HasTail(item, h, t)
    case _ => v
  }

  /** s, had its writer w been given another item. */
  function Before(s: State, w: nat, item: Item): State
    requires w < |s.writers| && Waits(s.writers[w])
  {
    s.(writers := s.writers[w := Given(s.writers[w], item)])
  }

  lemma BeforeEnabled(s: State, step: Step, w: nat, item: Item)
    requires w < |s.writers| && Waits(s.writers[w]) && Enabled(s, step)
    ensures Enabled(Before(s, w, item), step)
  {
  }

  /** A step of the put itself, short of its ticket. */
  lemma BeforeOwnStep(s: State, step: Step, w: nat, item: Item)
    requires w < |s.writers| && Waits(s.writers[w]) && Enabled(s, step) && !TakesTicket(s, step)
    requires step == LoadHead(w) || step == LoadTail(w) || step == TryReserve(w)
    ensures Enabled(Before(s, w, item), step)
    ensures w < |Next(s, step).writers| && Waits(Next(s, step).writers[w])
    ensures Next(Before(s, w, item), step) == Before(Next(s, step), w, item)
  {
    var t := Next(s, step);
    assert Next(Before(s, w, item), step).writers == Before(t, w, item).writers;
  }

  /** A step of anybody else. */
  lemma BeforeOtherStep(s: State, step: Step, w: nat, item: Item)
    requires w < |s.writers| && Waits(s.writers[w]) && Enabled(s, step)
    requires step != LoadHead(w) && step != LoadTail(w) && step != TryReserve(w)
    ensures Enabled(Before(s, w, item), step)
    ensures w < |Next(s, step).writers| && Next(s, step).writers[w] == s.writers[w]
    ensures Next(Before(s, w, item), step) == Before(Next(s, step), w, item)
  {
    BeforeEnabled(s, step, w, item);
    var t := Next(s, step);
    assert Next(Before(s, w, item), step).writers == Before(t, w, item).writers;
  }

  lemma BeforeStep(s: State, step: Step, w: nat, item: Item)
    requires w < |s.writers| && Waits(s.writers[w]) && Enabled(s, step)
    requires w < |Next(s, step).writers| && Waits(Next(s, step).writers[w])
    ensures Enabled(Before(s, w, item), step)
    ensures Next(Before(s, w, item), step) == Before(Next(s, step), w, item)
  {
    if step == LoadHead(w) || step == LoadTail(w) || step == TryReserve(w) {
      BeforeOwnStep(s, step, w, item);
    } else {
      BeforeOtherStep(s, step, w, item);
    }
  }

  // ---------------------------------------------------------------------------------------------
  // From the compare-exchange to the fetch
  // ---------------------------------------------------------------------------------------------

  /** Ticket h has been taken, and its fetch has not begun. */
  predicate Pending(s: State, h: nat)
    requires Bounds(s)
  {
    s.head <= h < s.tail && !(s.reader.Fetching? && s.head == h)
  }

  /** s, had the put of ticket h been given another item. */
  function After(s: State, h: nat, item: Item): State
    requires Bounds(s) && Pending(s, h) && |item| == s.elem
  {
    var k := s.tickets[h];
    assert TicketOk(s, h);
    LeftoverLength(s, h);
    s.(tickets := s.tickets[h := k.(item := item)],
    cells := s.cells[h % s.size := Over(item, Leftover(s, h), k.copied)])
  }

  /** Steps that move no byte, no ticket and not the head. */
  predicate Moves(s: State, step: Step) {
    !step.Advance? && !step.CopyByte? && !TakesTicket(s, step)
  }

  lemma AfterMoves(s: State, step: Step, h: nat, item: Item)
    requires Bounds(s) && Pending(s, h) && |item| == s.elem && Enabled(s, step) && Moves(s, step) && !step.FetchByte?
    requires Bounds(Next(s, step)) && Pending(Next(s, step), h)
    ensures Enabled(After(s, h, item), step) && Next(After(s, h, item), step) == After(Next(s, step), h, item)
  {
    var t := Next(s, step);
    assert Leftover(t, h) == Leftover(s, h);
    assert TicketOk(s, h);
  }

  lemma AfterFetchByte(s: State, h: nat, item: Item)
    requires Bounds(s) && Pending(s, h) && |item| == s.elem && Enabled(s, FetchByte)
    requires Bounds(Next(s, FetchByte)) && Pending(Next(s, FetchByte), h)
    ensures Enabled(After(s, h, item), FetchByte)
    ensures Next(After(s, h, item), FetchByte) == After(Next(s, FetchByte), h, item)
  {
    assert Leftover(Next(s, FetchByte), h) == Leftover(s, h);
    Apart(s.head, h, s.size);
    assert After(s, h, item).cells[s.head % s.size] == s.cells[s.head % s.size];
  }

  lemma AfterTakes(s: State, w: nat, h: nat, item: Item)
    requires Bounds(s) && Pending(s, h) && |item| == s.elem && Enabled(s, TryReserve(w)) && Reserves(s, w)
    requires Bounds(Next(s, TryReserve(w))) && Pending(Next(s, TryReserve(w)), h)
    ensures Enabled(After(s, h, item), TryReserve(w))
    ensures Next(After(s, h, item), TryReserve(w)) == After(Next(s, TryReserve(w)), h, item)
  {
    var t := Next(s, TryReserve(w));
    assert Leftover(t, h) == Leftover(s, h);
    assert Next(After(s, h, item), TryReserve(w)).tickets == After(t, h, item).tickets;
  }

  lemma AfterCopyMine(s: State, w: nat, item: Item)
    requires Bounds(s) && Enabled(s, CopyByte(w)) && |item| == s.elem
    requires Pending(s, s.writers[w].ticket) && Bounds(Next(s, CopyByte(w)))
    ensures var h, t := s.writers[w].ticket, Next(s, CopyByte(w));
            Pending(t, h) && Enabled(After(s, h, item), CopyByte(w)) &&
            Next(After(s, h, item), CopyByte(w)) == After(t, h, item)
  {
    var h, t := s.writers[w].ticket, Next(s, CopyByte(w));
    var u := After(s, h, item);
    assert TicketOk(s, h);
    LeftoverLength(s, h);
    assert Leftover(t, h) == Leftover(s, h);
    ByteCopied(item, Leftover(s, h), s.tickets[h].copied);
    assert Next(u, CopyByte(w)).tickets == After(t, h, item).tickets;
    assert Next(u, CopyByte(w)).cells == After(t, h, item).cells;
  }

  lemma AfterCopyOther(s: State, w: nat, h: nat, item: Item)
    requires Bounds(s) && Pending(s, h) && |item| == s.elem && Enabled(s, CopyByte(w))
    requires s.head <= s.writers[w].ticket < s.tail && s.writers[w].ticket != h
    requires Bounds(Next(s, CopyByte(w))) && Pending(Next(s, CopyByte(w)), h)
    ensures Enabled(After(s, h, item), CopyByte(w))
    ensures Next(After(s, h, item), CopyByte(w)) == After(Next(s, CopyByte(w)), h, item)
  {
    var t, k := Next(s, CopyByte(w)), s.writers[w].ticket;
    var u := After(s, h, item);
    if k < h { Apart(k, h, s.size); } else { Apart(h, k, s.size); }
    assert Leftover(t, h) == Leftover(s, h);
    assert Next(u, CopyByte(w)).tickets == After(t, h, item).tickets;
    assert Next(u, CopyByte(w)).cells == After(t, h, item).cells;
  }

  lemma AfterAdvance(s: State, h: nat, item: Item)
    requires Bounds(s) && Pending(s, h) && |item| == s.elem && Enabled(s, Advance)
    requires Bounds(Next(s, Advance)) && Pending(Next(s, Advance), h)
    ensures Enabled(After(s, h, item), Advance)
    ensures Next(After(s, h, item), Advance) == After(Next(s, Advance), h, item)
  {
    assert Leftover(Next(s, Advance), h) == Leftover(s, h);
  }

  /** Nothing but the put's slot and ticket tells the two runs apart until the ticket is fetched. */
  lemma AfterStep(s: State, step: Step, h: nat, item: Item)
    requires Bounds(s) && Window(s) && Pending(s, h) && |item| == s.elem && Enabled(s, step)
    requires Bounds(Next(s, step)) && Pending(Next(s, step), h)
    ensures Enabled(After(s, h, item), step) && Next(After(s, h, item), step) == After(Next(s, step), h, item)
  {
    hide Bounds, Window, Next, Pending, After;
    match step
    case CopyByte(w) =>
      CopiesIntoTheWindow(s, w);
      if s.writers[w].ticket == h { AfterCopyMine(s, w, item); } else { AfterCopyOther(s, w, h, item); }
    case FetchByte => AfterFetchByte(s, h, item);
    case Advance => AfterAdvance(s, h, item);
    case TryReserve(w) =>
      if Reserves(s, w) { AfterTakes(s, w, h, item); } else { AfterMoves(s, step, h, item); }
    case _ => AfterMoves(s, step, h, item);
  }

  /** The compare-exchange itself. */
  lemma TakesAfter(s: State, w: nat, item: Item)
    requires Bounds(s) && Window(s) && |item| == s.elem && Enabled(s, TryReserve(w)) && Reserves(s, w)
    requires Bounds(Next(s, TryReserve(w)))
    ensures Pending(Next(s, TryReserve(w)), s.tail)
    ensures Enabled(Before(s, w, item), TryReserve(w))
    ensures Next(Before(s, w, item), TryReserve(w)) == After(Next(s, TryReserve(w)), s.tail, item)
  {
    var t, h := Next(s, TryReserve(w)), s.tail;
    assert WriterOk(s, w);
    assert s.cells[h % s.size] == Content(s, h);
    assert Leftover(t, h) == Leftover(s, h);
    var left := Leftover(s, h);
    assert item[..0] + left[0..] == left;
    assert Next(Before(s, w, item), TryReserve(w)).cells == After(t, h, item).cells;
    assert Next(Before(s, w, item), TryReserve(w)).tickets == After(t, h, item).tickets;
  }

  // ---------------------------------------------------------------------------------------------
  // The whole run
  // ---------------------------------------------------------------------------------------------

  /** One put of a run: its writer, the steps at which it is called and takes its ticket, and the ticket. */
  datatype Put = Put(w: nat, enter: nat, take: nat, ticket: nat)

  ghost predicate IsPut(states: seq<State>, steps: seq<Step>, p: Put) {
    && Behaviour(states, steps) && p.enter < p.take < |steps|
    && steps[p.enter].Enter? && steps[p.enter].w == p.w
    && (forall i | p.enter < i <= p.take :: p.w < |states[i].writers| && Waits(states[i].writers[p.w]))
    && steps[p.take] == TryReserve(p.w) && TakesAt(states, steps, p.take, p.ticket)
  }

  /** From its compare-exchange to the end of the run the put's ticket waits to be fetched. */
  ghost predicate StaysPending(states: seq<State>, p: Put) {
    forall i | p.take < i < |states| :: Bounds(states[i]) && Pending(states[i], p.ticket)
  }

  lemma {:induction false} SameShape(states: seq<State>, steps: seq<Step>, i: nat)
    requires Behaviour(states, steps) && i < |states|
    ensures states[i].elem == states[0].elem
  {
    if i > 0 {
      SameShape(states, steps, i - 1);
      assert states[i] == Next(states[i - 1], steps[i - 1]);
    }
  }

  lemma WaitsSinceEnter(states: seq<State>, steps: seq<Step>, w: nat, i: nat)
    requires Behaviour(states, steps) && i < |states| && w < |states[i].writers| && Waits(states[i].writers[w])
    ensures 0 < i <= |steps|
    ensures var s, step := states[i - 1], steps[i - 1];
            (w < |s.writers| && Waits(s.writers[w])) || (step.Enter? && step.w == w)
  {
    if i > 0 {
      assert states[i] == Next(states[i - 1], steps[i - 1]) && Enabled(states[i - 1], steps[i - 1]);
    }
  }

  /** A writer that waits for a ticket has been called, and has waited since. */
  lemma {:induction false} CalledBefore(states: seq<State>, steps: seq<Step>, w: nat, i: nat) returns (e: nat)
    requires Behaviour(states, steps) && i < |states| && w < |states[i].writers| && Waits(states[i].writers[w])
    ensures e < i <= |steps| && steps[e].Enter? && steps[e].w == w
    ensures forall j | e < j <= i :: w < |states[j].writers| && Waits(states[j].writers[w])
  {
    hide Behaviour, Waits;
    WaitsSinceEnter(states, steps, w, i);
    if w < |states[i - 1].writers| && Waits(states[i - 1].writers[w]) {
      e := CalledBefore(states, steps, w, i - 1);
    } else {
      e := i - 1;
    }
  }

  /** A fetch under way ends, or goes on: a ticket that waits at the end of a run has waited all the time. */
  lemma {:induction false} PendingBefore(states: seq<State>, steps: seq<Step>, i: nat, h: nat)
    requires Behaviour(states, steps) && i < |states| && h < states[i].tail
    requires Bounds(states[|steps|]) && Pending(states[|steps|], h)
    ensures Bounds(states[i]) && Pending(states[i], h)
    decreases |steps| - i
  {
    Reached(states, steps, i);
    if i < |steps| {
      HeadAndTailGrow(states[i], steps[i]);
      PendingBefore(states, steps, i + 1, h);
      assert states[i + 1] == Next(states[i], steps[i]) && Enabled(states[i], steps[i]);
      if states[i].reader.Fetching? && !steps[i].Advance? { FetchGoesOn(states[i], steps[i]); }
    }
  }

  lemma FindPut(states: seq<State>, steps: seq<Step>, h: nat) returns (p: Put)
    requires Behaviour(states, steps) && Bounds(states[|steps|]) && Pending(states[|steps|], h)
    ensures IsPut(states, steps, p) && p.ticket == h && StaysPending(states, p)
    ensures states[|steps|].tickets[h].owner == p.w
  {
    var q := TicketWasTaken(states, steps, |steps|, h);
    var w := steps[q].w;
    var e := CalledBefore(states, steps, w, q);
    p := Put(w, e, q, h);
    forall i | q < i < |states| ensures Bounds(states[i]) && Pending(states[i], h) {
      RunStep(states, steps, q);
      CountersGrow(states, steps, q + 1, i);
      PendingBefore(states, steps, i, h);
    }
  }

  /** State i of the run, had the put been given another item. */
  ghost function Replayed(states: seq<State>, steps: seq<Step>, p: Put, item: Item, i: nat): State
    requires IsPut(states, steps, p) && StaysPending(states, p) && i < |states|
    requires |item| == states[i].elem
  {
    if i <= p.enter then states[i]
    else if i <= p.take then Before(states[i], p.w, item)
    else After(states[i], p.ticket, item)
  }

  lemma ReplayedStep(states: seq<State>, steps: seq<Step>, p: Put, item: Item, i: nat)
    requires IsPut(states, steps, p) && StaysPending(states, p) && FetchesEndedWell(states, steps, |steps|)
    requires i < |steps| && |item| == states[i].elem == states[i + 1].elem
    ensures var step := (if i == p.enter then Enter(p.w, item) else steps[i]);
            var s := Replayed(states, steps, p, item, i);
            Enabled(s, step) && Next(s, step) == Replayed(states, steps, p, item, i + 1)
  {
    ReachedWell(states, steps, i);
    ReachedWell(states, steps, i + 1);
    assert states[i + 1] == Next(states[i], steps[i]) && Enabled(states[i], steps[i]);
    hide Behaviour, Bounds, Window, FetchesEndedWell, Pending, After;
    if i == p.enter {
      CalledWith(states[i], p.w, steps[i].item, item);
    } else if p.enter < i < p.take {
      BeforeStep(states[i], steps[i], p.w, item);
    } else if i == p.take {
      TakesAfter(states[i], p.w, item);
    } else if p.take < i {
      AfterStep(states[i], steps[i], p.ticket, item);
    }
  }

  lemma CalledWith(s: State, w: nat, x: Item, item: Item)
    requires Enabled(s, Enter(w, x)) && |item| == s.elem
    ensures Enabled(s, Enter(w, item)) && w < |Next(s, Enter(w, x)).writers|
    ensures Waits(Next(s, Enter(w, x)).writers[w])
    ensures Next(s, Enter(w, item)) == Before(Next(s, Enter(w, x)), w, item)
  {
    assert Next(s, Enter(w, item)).writers == Before(Next(s, Enter(w, x)), w, item).writers;
  }

  /** Another run with the same steps, except that the put called at step e is given another item. */
  ghost predicate Replay(others: seq<State>, steps: seq<Step>, e: nat, item: Item) {
    e < |steps| && steps[e].Enter? && Behaviour(others, steps[e := Enter(steps[e].w, item)])
  }

  /**
   Whatever item the put of a waiting ticket had been given, the same schedule would have led to the same
   state, but for that item in the ticket and, as far as it has been copied, in its slot.
   */
  lemma ItemsCanBeExchanged(states: seq<State>, steps: seq<Step>, h: nat, item: Item)
    returns (others: seq<State>, e: nat)
    requires Behaviour(states, steps) && FetchesEndedWell(states, steps, |steps|)
    requires Bounds(states[|steps|]) && Pending(states[|steps|], h) && |item| == states[|steps|].elem
    ensures Replay(others, steps, e, item) && steps[e].w == states[|steps|].tickets[h].owner
    ensures others[|steps|] == After(states[|steps|], h, item)
  {
    var p := FindPut(states, steps, h);
    e := p.enter;
    SameShape(states, steps, |steps|);
    forall i | 0 <= i < |states| ensures states[i].elem == |item| {
      SameShape(states, steps, i);
    }
    others := seq(|states|, i requires 0 <= i < |states| => Replayed(states, steps, p, item, i));
    var moves := steps[e := Enter(p.w, item)];
    forall i | 0 <= i < |moves| ensures Enabled(others[i], moves[i]) && others[i + 1] == Next(others[i], moves[i]) {
      ReplayedStep(states, steps, p, item, i);
    }
  }

  // ---------------------------------------------------------------------------------------------
  // What makes a fetch right for all items
  // ---------------------------------------------------------------------------------------------

  lemma OverIsItem(item: Item, left: Item, n: nat)
    requires n <= |item| == |left|
    ensures n == |item| ==> Over(item, left, n) == item
    ensures n < |item| && item[n] != left[n] ==> Over(item, left, n) != item
  {
    if n < |item| { assert Over(item, left, n)[n] == left[n]; }
  }

  lemma AgreesAfter(s: State, item: Item, k: nat)
    requires Bounds(s) && Window(s) && Pending(s, s.head) && |item| == s.elem && Bounds(After(s, s.head, item))
    requires k < s.tail
    ensures Agrees(After(s, s.head, item), k)
  {
    assert TicketOk(s, k) && TicketOk(s, s.head);
    if k != s.head { NoPutIsLate(s, k); }
  }

  /** Had the put been given `item`, its slot would hold the copied part of it over the leftover. */
  lemma UndisputedAfter(s: State, item: Item)
    requires Bounds(s) && Window(s) && Pending(s, s.head) && |item| == s.elem && Bounds(After(s, s.head, item))
    ensures s.tickets[s.head].copied <= s.elem == |Leftover(s, s.head)|
    ensures Undisputed(After(s, s.head, item)) <==>
            Over(item, Leftover(s, s.head), s.tickets[s.head].copied) == item
  {
    LeftoverLength(s, s.head);
    assert TicketOk(s, s.head);
    forall k | 0 <= k < s.tail ensures Agrees(After(s, s.head, item), k) {
      AgreesAfter(s, item, k);
    }
  }

  /** An item that the leftover disagrees with where nothing has been copied yet. */
  function Other(left: Item, n: nat): (item: Item)
    requires n < |left|
    ensures |item| == |left| && item[n] != left[n]
  {
    left[n := if left[n] == 0 then 1 else 0]
  }

  lemma StartsAfter(s: State, item: Item)
    requires Bounds(s) && Enabled(s, Decide) && StartsFetch(s, Decide) && |item| == s.elem
    ensures Pending(s, s.head) && Enabled(After(s, s.head, item), Decide)
    ensures StartsFetch(After(s, s.head, item), Decide)
  {
  }

  /** Every fetch that starts here, whatever its put was given to store, delivers that. */
  ghost predicate RightForAllItems(s: State)
    requires Bounds(s) && Pending(s, s.head)
  {
    forall item, moves, t | |item| == s.elem && FetchRun(After(s, s.head, item), moves, t) ::
      Delivers(After(s, s.head, item), t)
  }

  lemma ReachedAfter(states: seq<State>, steps: seq<Step>, item: Item)
    requires Behaviour(states, steps) && FetchesEndedWell(states, steps, |steps|)
    requires Bounds(states[|steps|]) && Pending(states[|steps|], states[|steps|].head)
    requires |item| == states[|steps|].elem
    ensures var s := states[|steps|]; Reaches(After(s, s.head, item))
  {
    var others, e := ItemsCanBeExchanged(states, steps, states[|steps|].head, item);
  }

  lemma RightAfterExactlyWhen(s: State, item: Item)
    requires Bounds(s) && Window(s) && Enabled(s, Decide) && StartsFetch(s, Decide) && |item| == s.elem
    requires Pending(s, s.head) && Reaches(After(s, s.head, item))
    ensures s.tickets[s.head].copied <= s.elem == |Leftover(s, s.head)|
    ensures Over(item, Leftover(s, s.head), s.tickets[s.head].copied) == item <==>
            forall moves, t | FetchRun(After(s, s.head, item), moves, t) :: Delivers(After(s, s.head, item), t)
  {
    StartsAfter(s, item);
    ReachedBounds(After(s, s.head, item));
    UndisputedAfter(s, item);
    hide Bounds, Window, After, Undisputed, Leftover, Pending, FetchRun, Delivers;
    FetchIsRightExactlyWhen(After(s, s.head, item));
  }

  /**
   The reader cannot know what a put was given: a fetch is right for every item of its ticket's put, each in
   the run replayed with it, if and only if that put has ended its memcpy.
   */
  lemma RightForAllItemsExactlyWhen(states: seq<State>, steps: seq<Step>)
    requires Behaviour(states, steps) && FetchesEndedWell(states, steps, |steps|)
    requires Enabled(states[|steps|], Decide) && StartsFetch(states[|steps|], Decide)
    ensures Bounds(states[|steps|]) && Pending(states[|steps|], states[|steps|].head)
    ensures var s := states[|steps|]; Stored(s, s.head) <==> RightForAllItems(s)
  {
    ReachedWell(states, steps, |steps|);
    var s := states[|steps|];
    var left, n := Leftover(s, s.head), s.tickets[s.head].copied;
    LeftoverLength(s, s.head);
    assert TicketOk(s, s.head);
    hide Behaviour, Bounds, Window, After, Leftover, Pending, FetchRun, Delivers, FetchesEndedWell;
    StartsAfter(s, left);
    if n == s.elem {
      forall item, moves, t | |item| == s.elem && FetchRun(After(s, s.head, item), moves, t)
        ensures Delivers(After(s, s.head, item), t)
      {
        ReachedAfter(states, steps, item);
        RightAfterExactlyWhen(s, item);
        OverIsItem(item, left, n);
      }
    } else {
      var item := Other(left, n);
      ReachedAfter(states, steps, item);
      RightAfterExactlyWhen(s, item);
      OverIsItem(item, left, n);
    }
  }
}
